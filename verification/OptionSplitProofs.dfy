/** What splitting keeps of a command line, and when a context printed and split again is the same. */
module OptionSplitProofs {
  import opened Wrappers
  import opened OptionSplit

  // ------------------------------------------------------------------------------ every argument is read exactly once

  /** The arguments that an item stands for. */
  function Tokens(env: Env, item: Item): seq<string> {
    match item
    case Dashes => ["--"]
    case Output(name) => [name]
    case Input(name) => ["-i", name]
    case Plain(o) => if TakesValue(env, o) then ["-" + o.key, o.val.value] else ["-" + o.key]
    case Av(key, val) => ["-" + key, val]
  }

  /** The option's value was an argument of its own. */
  predicate TakesValue(env: Env, o: Opt) {
    Find(env.table, o.key).Some? && (o.def.exit || o.def.hasArg) && o.val.Some?
  }

  function TokensLoop(env: Env, items: seq<Item>): seq<string> {
    if items == [] then [] else Tokens(env, items[0]) + TokensLoop(env, items[1..])
  }

  /** The arguments of all items, in order. */
  function AllTokens(env: Env, items: seq<Item>): seq<string> { TokensLoop(env, items) }

  lemma TokensUnfold(env: Env, items: seq<Item>)
    ensures AllTokens(env, []) == []
    ensures items != [] ==> AllTokens(env, items) == Tokens(env, items[0]) + AllTokens(env, items[1..])
  {
  }

  /** An option as reading makes it: not a group's separator, and with the value that its kind has. */
  ghost predicate ValidOpt(env: Env, o: Opt) {
    && ValidKey(o.key)
    && match Find(env.table, o.key)
       case Some(def) =>
         o.def == def && (if def.exit then true else if def.hasArg then o.val.Some? else o.val == Some("1"))
       case None => Negated(env.table, o.key) == Some(o.def) && o.val == Some("0")
  }

  ghost predicate ValidKey(key: string) { key != "" && key != "-" && key != "i" }

  ghost predicate ValidAv(env: Env, key: string, val: string) {
    ValidKey(key) && Find(env.table, key).None? && env.known(key) && env.accepts(key, val)
  }

  /** What can be read, given whether it stands behind "--". */
  ghost predicate Fits(env: Env, item: Item, dashed: bool) {
    match item
    case Dashes => true
    case Output(name) => name != "--" && (dashed || Bare(name))
    case Input(name) => !dashed
    case Plain(o) => !dashed && ValidOpt(env, o)
    case Av(key, val) => !dashed && ValidAv(env, key, val)
  }

  /** An option that was read this way only because the command line ended: without the optional argument, or by
      a name that is a library option's too. */
  ghost predicate Hanging(env: Env, item: Item) { item.Plain? && HangingOpt(env, item.o) }

  ghost predicate HangingOpt(env: Env, o: Opt) {
    if Find(env.table, o.key).Some? then o.def.exit && o.val.None? else env.known(o.key)
  }

  /** What is read, is a possible item, and its arguments are those before the rest. */
  lemma ReadFits(env: Env, rest: seq<string>, dashed: bool)
    requires rest != []
    ensures match ReadItem(env, rest, dashed)
      case Failed(_) => true
      case Read(item, rest') =>
        rest == Tokens(env, item) + rest' && Fits(env, item, dashed) && (Hanging(env, item) ==> rest' == [])
  {
    if rest[0] != "--" && !Bare(rest[0]) && !dashed {
      assert rest[0] == "-" + rest[0][1..];
      OptionFits(env, rest[0][1..], rest[1..]);
    }
  }

  lemma OptionFits(env: Env, key: string, rest: seq<string>)
    requires key != "" && key != "-"
    ensures match ReadOption(env, key, rest)
      case Failed(_) => true
      case Read(item, rest') =>
        && ["-" + key] + rest == Tokens(env, item) + rest' && Fits(env, item, false)
        && (Hanging(env, item) ==> rest' == []) && !item.Output? && !item.Dashes?
  {
    if rest != [] {
      FrontOfTwo("-" + key, rest);
    }
    if key == "i" {
      assert "-" + key == "-i";
    } else if Find(env.table, key).Some? {
      assert rest == [] ==> ["-" + key] + rest == ["-" + key];
    }
  }

  lemma FrontOfTwo(token: string, rest: seq<string>)
    requires rest != []
    ensures [token] + rest == [token, rest[0]] + rest[1..]
  {
  }

  /** Conversely, an item's arguments are read as that item. */
  lemma FittingIsRead(env: Env, item: Item, dashed: bool, rest: seq<string>)
    requires Fits(env, item, dashed) && (Hanging(env, item) ==> rest == [])
    ensures Tokens(env, item) + rest != []
    ensures ReadItem(env, Tokens(env, item) + rest, dashed) == Read(item, rest)
  {
    var tokens := Tokens(env, item) + rest;
    match item
    case Dashes => assert tokens[1..] == rest;
    case Output(name) => assert tokens[1..] == rest;
    case Input(name) => assert tokens[0] == "-i" && tokens[1..] == [name] + rest && tokens[1..][1..] == rest;
    case Plain(o) =>
      assert tokens[0] == "-" + o.key && tokens[0][1..] == o.key;
      if TakesValue(env, o) {
        assert tokens[1..] == [o.val.value] + rest && tokens[1..][1..] == rest;
      } else {
        assert tokens[1..] == rest;
      }
    case Av(key, val) =>
      assert tokens[0] == "-" + key && tokens[0][1..] == key && tokens[1..] == [val] + rest && tokens[1..][1..] == rest;
  }

  /** A command line that is read to its end: every item in its place, and only the last one hanging. */
  ghost predicate Ordered(env: Env, items: seq<Item>, dashed: bool) {
    forall i {:trigger items[i]} :: 0 <= i < |items| ==> Fits(env, items[i], BehindDashes(items, dashed, i))
  }

  /** Item i stands behind "--". */
  ghost predicate BehindDashes(items: seq<Item>, dashed: bool, i: nat)
    requires i <= |items|
  {
    if i == 0 then dashed else items[i - 1].Dashes?
  }

  ghost predicate Settled(env: Env, items: seq<Item>) {
    forall i {:trigger items[i]} :: 0 <= i < |items| ==> !Hanging(env, items[i])
  }

  ghost predicate Readable(env: Env, items: seq<Item>, dashed: bool) {
    Ordered(env, items, dashed) && (items != [] ==> Settled(env, items[..|items| - 1]))
  }

  lemma TailAt(items: seq<Item>, dashed: bool, i: nat)
    requires 0 < i < |items|
    ensures items[1..][i - 1] == items[i]
    ensures BehindDashes(items[1..], items[0].Dashes?, i - 1) == BehindDashes(items, dashed, i)
  {
  }

  lemma OrderedTail(env: Env, items: seq<Item>, dashed: bool)
    requires items != []
    ensures Ordered(env, items, dashed) <==> Fits(env, items[0], dashed) && Ordered(env, items[1..], items[0].Dashes?)
  {
    if Ordered(env, items, dashed) {
      forall i | 0 <= i < |items[1..]|
        ensures Fits(env, items[1..][i], BehindDashes(items[1..], items[0].Dashes?, i))
      {
        TailAt(items, dashed, i + 1);
      }
    } else if Fits(env, items[0], dashed) && Ordered(env, items[1..], items[0].Dashes?) {
      forall i | 0 <= i < |items|
        ensures Fits(env, items[i], BehindDashes(items, dashed, i))
      {
        if i > 0 {
          TailAt(items, dashed, i);
        }
      }
      assert false;
    }
  }

  lemma SettledTail(env: Env, items: seq<Item>)
    requires items != []
    ensures Settled(env, items) <==> !Hanging(env, items[0]) && Settled(env, items[1..])
  {
    assert items == [items[0]] + items[1..];
  }

  lemma ReadableTail(env: Env, items: seq<Item>, dashed: bool)
    requires items != []
    ensures Readable(env, items, dashed) <==>
      && Fits(env, items[0], dashed) && Readable(env, items[1..], items[0].Dashes?)
      && (|items| > 1 ==> !Hanging(env, items[0]))
  {
    OrderedTail(env, items, dashed);
    if |items| > 1 {
      SettledTail(env, items[..|items| - 1]);
      assert items[..|items| - 1][1..] == items[1..][..|items[1..]| - 1];
    }
  }

  /** Splitting without an error reads every argument exactly once and in order; up to an error, all before it. */
  lemma {:induction false} EveryArgumentOnce(env: Env, rest: seq<string>, dashed: bool)
    ensures var p := Parse(env, rest, dashed);
      && AllTokens(env, p.items) <= rest
      && (p.error.None? ==> AllTokens(env, p.items) == rest && Readable(env, p.items, dashed))
    decreases |rest|
  {
    TokensUnfold(env, Parse(env, rest, dashed).items);
    if rest != [] {
      ParseUnfolds(env, rest, dashed);
      ReadFits(env, rest, dashed);
      var step := ReadItem(env, rest, dashed);
      if step.Read? {
        EveryArgumentOnce(env, step.rest, step.item.Dashes?);
        ReadableTail(env, Parse(env, rest, dashed).items, dashed);
        TokensUnfold(env, Parse(env, step.rest, step.item.Dashes?).items);
      }
    }
  }

  /** Items that can be read one after the other are what their arguments are read as. */
  lemma {:induction false} ReadableIsRead(env: Env, items: seq<Item>, dashed: bool)
    requires Readable(env, items, dashed)
    ensures Parse(env, AllTokens(env, items), dashed) == Parsed(items, None)
    decreases |items|
  {
    TokensUnfold(env, items);
    if items != [] {
      ReadableTail(env, items, dashed);
      ReadableIsRead(env, items[1..], items[0].Dashes?);
      TokensUnfold(env, items[1..]);
      FittingIsRead(env, items[0], dashed, AllTokens(env, items[1..]));
      ParseUnfolds(env, AllTokens(env, items), dashed);
      assert [items[0]] + items[1..] == items;
    }
  }

  // -------------------------------------------------------------------------------------------- printing a context

  function OptItems(opts: seq<Opt>): (items: seq<Item>)
    ensures |items| == |opts|
  {
    seq(|opts|, i requires 0 <= i < |opts| => Plain(opts[i]))
  }

  function AvItems(av: seq<(string, string)>): (items: seq<Item>)
    ensures |items| == |av|
  {
    seq(|av|, i requires 0 <= i < |av| => Av(av[i].0, av[i].1))
  }

  function GroupEnd(name: string, isInput: bool): seq<Item> {
    if isInput then [Input(name)] else [Dashes, Output(name)]
  }

  function GroupItems(group: Group, isInput: bool): seq<Item> {
    AvItems(group.av) + OptItems(group.opts) + GroupEnd(group.arg, isInput)
  }

  function GroupsLoop(groups: seq<Group>, isInput: bool): seq<Item> {
    if groups == [] then [] else GroupItems(groups[0], isInput) + GroupsLoop(groups[1..], isInput)
  }

  function GroupsItems(groups: seq<Group>, isInput: bool): seq<Item> { GroupsLoop(groups, isInput) }

  /** Everything but the global options: input groups, output groups, and what trails. */
  function FileItems(ctx: Context): seq<Item> {
    GroupsItems(ctx.inputs, true) + (GroupsItems(ctx.outputs, false) + (AvItems(ctx.av) + OptItems(ctx.cur)))
  }

  /** The context as a command line again: the global options first. */
  function Printed(ctx: Context): seq<Item> { OptItems(ctx.globals) + FileItems(ctx) }

  // A context as splitting makes it.

  ghost predicate ValidOpts(env: Env, opts: seq<Opt>, global: bool) {
    forall i {:trigger opts[i]} :: 0 <= i < |opts| ==> ValidOpt(env, opts[i]) && opts[i].def.Global() == global
  }

  ghost predicate ValidAvs(env: Env, av: seq<(string, string)>) {
    forall i {:trigger av[i]} :: 0 <= i < |av| ==> ValidAv(env, av[i].0, av[i].1)
  }

  ghost predicate NoneHangs(env: Env, opts: seq<Opt>) {
    forall i {:trigger opts[i]} :: 0 <= i < |opts| ==> !HangingOpt(env, opts[i])
  }

  ghost predicate ValidGroups(env: Env, groups: seq<Group>, isInput: bool) {
    forall i {:trigger groups[i]} :: 0 <= i < |groups| ==>
      && ValidOpts(env, groups[i].opts, false) && NoneHangs(env, groups[i].opts) && ValidAvs(env, groups[i].av)
      && (isInput || groups[i].arg != "--")
  }

  ghost predicate ValidContext(env: Env, ctx: Context) {
    && ValidOpts(env, ctx.globals, true) && ValidOpts(env, ctx.cur, false) && ValidAvs(env, ctx.av)
    && ValidGroups(env, ctx.inputs, true) && ValidGroups(env, ctx.outputs, false)
  }

  /** None of the options outside finished groups hangs. */
  ghost predicate SettledContext(env: Env, ctx: Context) { NoneHangs(env, ctx.globals) && NoneHangs(env, ctx.cur) }

  lemma ApplyKeepsValid(env: Env, ctx: Context, item: Item, dashed: bool)
    requires ValidContext(env, ctx) && SettledContext(env, ctx) && Fits(env, item, dashed)
    ensures ValidContext(env, Apply(ctx, item))
    ensures !Hanging(env, item) ==> SettledContext(env, Apply(ctx, item))
  {
  }

  lemma {:induction false} SettledItemsGiveSettledContext(env: Env, items: seq<Item>, dashed: bool)
    requires Ordered(env, items, dashed) && Settled(env, items)
    ensures ValidContext(env, ApplyAll(EMPTY, items)) && SettledContext(env, ApplyAll(EMPTY, items))
    decreases |items|
  {
    ApplyUnfolds(EMPTY, items);
    if items != [] {
      var front, last := items[..|items| - 1], items[|items| - 1];
      assert items == front + [last];
      SettledItemsGiveSettledContext(env, front, dashed);
      ApplyBehind(EMPTY, front, last);
      ApplyKeepsValid(env, ApplyAll(EMPTY, front), last, if |items| == 1 then dashed else items[|items| - 2].Dashes?);
    }
  }

  // ------------------------------------------------------------------------------------ order within each list

  /** What an item adds to the list of global options, of a file's own options, and of library options. */
  function GlobalOf(item: Item): seq<Opt> { if item.Plain? && item.o.def.Global() then [item.o] else [] }

  function LocalOf(item: Item): seq<Opt> { if item.Plain? && !item.o.def.Global() then [item.o] else [] }

  function AvOf(item: Item): seq<(string, string)> { if item.Av? then [(item.key, item.val)] else [] }

  predicate IsFile(item: Item) { item.Input? || item.Output? }

  function Globals(items: seq<Item>): seq<Opt> {
    if items == [] then [] else Globals(items[..|items| - 1]) + GlobalOf(items[|items| - 1])
  }

  /** The items behind the last file name. */
  function Since(items: seq<Item>): seq<Item> {
    if items == [] || IsFile(items[|items| - 1]) then []
    else Since(items[..|items| - 1]) + [items[|items| - 1]]
  }

  function Locals(items: seq<Item>): seq<Opt> {
    if items == [] then [] else Locals(items[..|items| - 1]) + LocalOf(items[|items| - 1])
  }

  function Avs(items: seq<Item>): seq<(string, string)> {
    if items == [] then [] else Avs(items[..|items| - 1]) + AvOf(items[|items| - 1])
  }

  /** The file that an item names, with the options that stand between it and the file before it. */
  function FileOf(front: seq<Item>, item: Item, isInput: bool): seq<Group> {
    if IsFile(item) && item.Input? == isInput then [Group(item.name, Locals(Since(front)), Avs(Since(front)))] else []
  }

  /** Every file, in order. */
  function Files(items: seq<Item>, isInput: bool): seq<Group> {
    if items == [] then []
    else
      var front := items[..|items| - 1];
      Files(front, isInput) + FileOf(front, items[|items| - 1], isInput)
  }

  /** The lists of a context, in the order of the command line: the global options, the files with the options that
      stood before them, and the options behind the last file. */
  function Listed(items: seq<Item>): Context {
    Context(Globals(items), Files(items, false), Files(items, true), Locals(Since(items)), Avs(Since(items)))
  }

  lemma {:induction false} ListsNext(items: seq<Item>, item: Item)
    ensures Globals(items + [item]) == Globals(items) + GlobalOf(item)
    ensures Locals(items + [item]) == Locals(items) + LocalOf(item)
    ensures Avs(items + [item]) == Avs(items) + AvOf(item)
    ensures Since(items + [item]) == if IsFile(item) then [] else Since(items) + [item]
  {
    assert (items + [item])[..|items|] == items;
  }

  lemma {:induction false} FilesNext(items: seq<Item>, item: Item, isInput: bool)
    ensures Files(items + [item], isInput) == Files(items, isInput) + FileOf(items, item, isInput)
  {
    assert (items + [item])[..|items|] == items;
  }

  lemma {:induction false} SinceNext(items: seq<Item>, item: Item)
    ensures Locals(Since(items + [item])) == if IsFile(item) then [] else Locals(Since(items)) + LocalOf(item)
    ensures Avs(Since(items + [item])) == if IsFile(item) then [] else Avs(Since(items)) + AvOf(item)
  {
    ListsNext(items, item);
    ListsNext(Since(items), item);
  }

  /** What applying an item does to each list. */
  lemma AppliedIs(ctx: Context, item: Item, next: Context)
    requires next.globals == ctx.globals + GlobalOf(item)
    requires next.outputs == ctx.outputs + if item.Output? then [Group(item.name, ctx.cur, ctx.av)] else []
    requires next.inputs == ctx.inputs + if item.Input? then [Group(item.name, ctx.cur, ctx.av)] else []
    requires next.cur == if IsFile(item) then [] else ctx.cur + LocalOf(item)
    requires next.av == if IsFile(item) then [] else ctx.av + AvOf(item)
    ensures next == Apply(ctx, item)
  {
  }

  lemma {:induction false} ListedNext(items: seq<Item>, item: Item)
    ensures Listed(items + [item]) == Apply(Listed(items), item)
  {
    ListsNext(items, item);
    SinceNext(items, item);
    FilesNext(items, item, true);
    FilesNext(items, item, false);
    AppliedIs(Listed(items), item, Listed(items + [item]));
  }

  /** A context is what its items list. */
  lemma {:induction false} OrderIsKept(items: seq<Item>)
    ensures ApplyAll(EMPTY, items) == Listed(items)
    decreases |items|
  {
    if items == [] {
      ApplyUnfolds(EMPTY, items);
    } else {
      var front, last := items[..|items| - 1], items[|items| - 1];
      assert items == front + [last];
      OrderIsKept(front);
      ApplyBehind(EMPTY, front, last);
      ListedNext(front, last);
    }
  }

  /** The option belongs to a file: one of the three flags is set. */
  ghost predicate OfFile(o: Opt) { o.def.perFile || o.def.spec || o.def.offset }

  ghost predicate AllOfFile(opts: seq<Opt>) { forall i :: 0 <= i < |opts| ==> OfFile(opts[i]) }

  /** Options are where their flags say. */
  ghost predicate Sorted(ctx: Context) {
    && (forall i :: 0 <= i < |ctx.globals| ==> !OfFile(ctx.globals[i])) && AllOfFile(ctx.cur)
    && (forall i :: 0 <= i < |ctx.inputs| ==> AllOfFile(ctx.inputs[i].opts))
    && (forall i :: 0 <= i < |ctx.outputs| ==> AllOfFile(ctx.outputs[i].opts))
  }

  lemma {:induction false} ItemsAreSorted(ctx: Context, items: seq<Item>)
    requires Sorted(ctx)
    ensures Sorted(ApplyAll(ctx, items))
    decreases |items|
  {
    ApplyUnfolds(ctx, items);
    if items != [] {
      ItemsAreSorted(Apply(ctx, items[0]), items[1..]);
    }
  }

  /** Whatever the command line, and whether or not it ends in an error: among the global options there is none with
      one of the flags OPT_PERFILE, OPT_SPEC and OPT_OFFSET, and every option that stands with a file, or waits for the
      next one, has at least one of them. */
  lemma OptionsGoByTheirFlags(env: Env, argv: seq<string>)
    ensures Sorted(Split(env, argv).0)
  {
    ItemsAreSorted(EMPTY, Parse(env, Rest(argv, 1), false).items);
  }

  /** A command line without errors is its items' arguments, and its context is what those items list. */
  lemma SplitReadsEverything(env: Env, argv: seq<string>) returns (items: seq<Item>)
    requires Split(env, argv).1.None?
    ensures AllTokens(env, items) == Rest(argv, 1) && Readable(env, items, false)
    ensures Split(env, argv).0 == Listed(items)
  {
    items := Parse(env, Rest(argv, 1), false).items;
    EveryArgumentOnce(env, Rest(argv, 1), false);
    OrderIsKept(items);
  }

  // ------------------------------------------------------------------------------------------ reading what is printed

  /** Items that can stand anywhere but behind "--". */
  ghost predicate Run(env: Env, items: seq<Item>) {
    Ordered(env, items, false) && (items == [] || !items[|items| - 1].Dashes?)
  }

  lemma JoinedAt(a: seq<Item>, b: seq<Item>, i: nat)
    requires i < |a| + |b| && (a == [] || !a[|a| - 1].Dashes?)
    ensures (a + b)[i] == if i < |a| then a[i] else b[i - |a|]
    ensures BehindDashes(a + b, false, i)
      == if i < |a| then BehindDashes(a, false, i) else BehindDashes(b, false, i - |a|)
  {
  }

  lemma RunsJoin(env: Env, a: seq<Item>, b: seq<Item>)
    requires Run(env, a) && Run(env, b)
    ensures Run(env, a + b)
  {
    forall i | 0 <= i < |a + b|
      ensures Fits(env, (a + b)[i], BehindDashes(a + b, false, i))
    {
      JoinedAt(a, b, i);
    }
  }

  lemma SettledJoin(env: Env, a: seq<Item>, b: seq<Item>)
    requires Settled(env, a) && Settled(env, b)
    ensures Settled(env, a + b)
  {
  }

  lemma OptsRun(env: Env, opts: seq<Opt>, global: bool)
    requires ValidOpts(env, opts, global)
    ensures Run(env, OptItems(opts)) && (NoneHangs(env, opts) ==> Settled(env, OptItems(opts)))
  {
  }

  lemma AvsRun(env: Env, av: seq<(string, string)>)
    requires ValidAvs(env, av)
    ensures Run(env, AvItems(av)) && Settled(env, AvItems(av))
  {
  }

  lemma EndRuns(env: Env, name: string, isInput: bool)
    requires isInput || name != "--"
    ensures Run(env, GroupEnd(name, isInput)) && Settled(env, GroupEnd(name, isInput))
  {
  }

  lemma GroupRuns(env: Env, group: Group, isInput: bool)
    requires ValidOpts(env, group.opts, false) && NoneHangs(env, group.opts) && ValidAvs(env, group.av)
    requires isInput || group.arg != "--"
    ensures Run(env, GroupItems(group, isInput)) && Settled(env, GroupItems(group, isInput))
  {
    var a, o, end := AvItems(group.av), OptItems(group.opts), GroupEnd(group.arg, isInput);
    AvsRun(env, group.av);
    OptsRun(env, group.opts, false);
    EndRuns(env, group.arg, isInput);
    RunsJoin(env, a, o);
    SettledJoin(env, a, o);
    RunsJoin(env, a + o, end);
    SettledJoin(env, a + o, end);
  }

  lemma GroupsUnfold(groups: seq<Group>, isInput: bool)
    ensures GroupsItems([], isInput) == []
    ensures groups != [] ==>
      GroupsItems(groups, isInput) == GroupItems(groups[0], isInput) + GroupsItems(groups[1..], isInput)
  {
  }

  lemma {:induction false} GroupsRun(env: Env, groups: seq<Group>, isInput: bool)
    requires ValidGroups(env, groups, isInput)
    ensures Run(env, GroupsItems(groups, isInput)) && Settled(env, GroupsItems(groups, isInput))
    decreases |groups|
  {
    GroupsUnfold(groups, isInput);
    if groups != [] {
      GroupRuns(env, groups[0], isInput);
      GroupsRun(env, groups[1..], isInput);
      RunsJoin(env, GroupItems(groups[0], isInput), GroupsItems(groups[1..], isInput));
      SettledJoin(env, GroupItems(groups[0], isInput), GroupsItems(groups[1..], isInput));
    }
  }

  /** All that is printed before the trailing options of the table. */
  function Leading(ctx: Context): seq<Item> {
    OptItems(ctx.globals) + (GroupsItems(ctx.inputs, true) + (GroupsItems(ctx.outputs, false) + AvItems(ctx.av)))
  }

  lemma PrintedIs(ctx: Context)
    ensures Printed(ctx) == Leading(ctx) + OptItems(ctx.cur)
  {
  }

  lemma LeadingRuns(env: Env, ctx: Context)
    requires ValidContext(env, ctx)
    ensures Run(env, Leading(ctx)) && (NoneHangs(env, ctx.globals) ==> Settled(env, Leading(ctx)))
  {
    var i, o, a := GroupsItems(ctx.inputs, true), GroupsItems(ctx.outputs, false), AvItems(ctx.av);
    OptsRun(env, ctx.globals, true);
    GroupsRun(env, ctx.inputs, true);
    GroupsRun(env, ctx.outputs, false);
    AvsRun(env, ctx.av);
    RunsJoin(env, o, a);
    RunsJoin(env, i, o + a);
    RunsJoin(env, OptItems(ctx.globals), i + (o + a));
    SettledJoin(env, o, a);
    SettledJoin(env, i, o + a);
    if NoneHangs(env, ctx.globals) {
      SettledJoin(env, OptItems(ctx.globals), i + (o + a));
    }
  }

  // ------------------------------------------------------------------------------------------ rebuilding the context

  lemma {:induction false} ApplyJoin(ctx: Context, a: seq<Item>, b: seq<Item>)
    ensures ApplyAll(ctx, a + b) == ApplyAll(ApplyAll(ctx, a), b)
    decreases |a|
  {
    ApplyUnfolds(ctx, a);
    if a == [] {
      assert a + b == b;
    } else {
      assert (a + b)[1..] == a[1..] + b;
      ApplyUnfolds(ctx, a + b);
      ApplyJoin(Apply(ctx, a[0]), a[1..], b);
    }
  }

  lemma {:induction false} OptsRebuilt(ctx: Context, opts: seq<Opt>, global: bool)
    requires forall i {:trigger opts[i]} :: 0 <= i < |opts| ==> opts[i].def.Global() == global
    ensures ApplyAll(ctx, OptItems(opts))
      == if global then ctx.(globals := ctx.globals + opts) else ctx.(cur := ctx.cur + opts)
    decreases |opts|
  {
    ApplyUnfolds(ctx, OptItems(opts));
    if opts != [] {
      assert OptItems(opts)[1..] == OptItems(opts[1..]);
      OptsRebuilt(Apply(ctx, Plain(opts[0])), opts[1..], global);
      assert opts == [opts[0]] + opts[1..];
      Regroup(ctx.globals, opts[0], opts[1..]);
      Regroup(ctx.cur, opts[0], opts[1..]);
    } else {
      assert ctx.globals + opts == ctx.globals && ctx.cur + opts == ctx.cur;
    }
  }

  lemma Regroup<T>(a: seq<T>, x: T, b: seq<T>)
    ensures a + [x] + b == a + ([x] + b)
  {
  }

  lemma {:induction false} AvsRebuilt(ctx: Context, av: seq<(string, string)>)
    ensures ApplyAll(ctx, AvItems(av)) == ctx.(av := ctx.av + av)
    decreases |av|
  {
    ApplyUnfolds(ctx, AvItems(av));
    if av != [] {
      assert AvItems(av)[1..] == AvItems(av[1..]);
      AvsRebuilt(Apply(ctx, Av(av[0].0, av[0].1)), av[1..]);
      assert av == [av[0]] + av[1..];
      Regroup(ctx.av, av[0], av[1..]);
    } else {
      assert ctx.av + av == ctx.av;
    }
  }

  /** A context with one more group. */
  function WithGroup(ctx: Context, group: Group, isInput: bool): Context {
    if isInput then ctx.(inputs := ctx.inputs + [group]) else ctx.(outputs := ctx.outputs + [group])
  }

  lemma GroupRebuilt(env: Env, ctx: Context, group: Group, isInput: bool)
    requires ctx.cur == [] && ctx.av == [] && ValidOpts(env, group.opts, false)
    ensures ApplyAll(ctx, GroupItems(group, isInput)) == WithGroup(ctx, group, isInput)
  {
    var end := GroupEnd(group.arg, isInput);
    ApplyJoin(ctx, AvItems(group.av) + OptItems(group.opts), end);
    ApplyJoin(ctx, AvItems(group.av), OptItems(group.opts));
    AvsRebuilt(ctx, group.av);
    OptsRebuilt(ctx.(av := group.av), group.opts, false);
    assert [] + group.av == group.av && [] + group.opts == group.opts;
    EndApplied(ctx.(av := group.av, cur := group.opts), group.arg, isInput);
  }

  lemma EndApplied(ctx: Context, name: string, isInput: bool)
    ensures ApplyAll(ctx, GroupEnd(name, isInput)) == Apply(ctx, if isInput then Input(name) else Output(name))
  {
    if isInput {
      ApplyUnfolds(ctx, [Input(name)]);
      ApplyUnfolds(Apply(ctx, Input(name)), []);
    } else {
      ApplyUnfolds(ctx, [Dashes, Output(name)]);
      assert [Dashes, Output(name)][1..] == [Output(name)];
      ApplyUnfolds(ctx, [Output(name)]);
      ApplyUnfolds(Apply(ctx, Output(name)), []);
    }
  }

  function WithGroups(ctx: Context, groups: seq<Group>, isInput: bool): Context {
    if isInput then ctx.(inputs := ctx.inputs + groups) else ctx.(outputs := ctx.outputs + groups)
  }

  lemma {:induction false} GroupsRebuilt(env: Env, ctx: Context, groups: seq<Group>, isInput: bool)
    requires ctx.cur == [] && ctx.av == [] && ValidGroups(env, groups, isInput)
    ensures ApplyAll(ctx, GroupsItems(groups, isInput)) == WithGroups(ctx, groups, isInput)
    decreases |groups|
  {
    GroupsUnfold(groups, isInput);
    if groups == [] {
      ApplyUnfolds(ctx, []);
      assert ctx.inputs + groups == ctx.inputs && ctx.outputs + groups == ctx.outputs;
    } else {
      ApplyJoin(ctx, GroupItems(groups[0], isInput), GroupsItems(groups[1..], isInput));
      GroupRebuilt(env, ctx, groups[0], isInput);
      GroupsRebuilt(env, WithGroup(ctx, groups[0], isInput), groups[1..], isInput);
      assert groups == [groups[0]] + groups[1..];
      Regroup(ctx.inputs, groups[0], groups[1..]);
      Regroup(ctx.outputs, groups[0], groups[1..]);
    }
  }

  /** All but the global options is rebuilt, whatever global options there are already. */
  lemma FilesRebuilt(env: Env, ctx: Context, globals: seq<Opt>)
    requires ValidContext(env, ctx)
    ensures ApplyAll(EMPTY.(globals := globals), FileItems(ctx)) == ctx.(globals := globals)
  {
    var i, o := GroupsItems(ctx.inputs, true), GroupsItems(ctx.outputs, false);
    var a, c := AvItems(ctx.av), OptItems(ctx.cur);
    var c1 := EMPTY.(globals := globals);
    var c2 := c1.(inputs := ctx.inputs);
    var c3 := c2.(outputs := ctx.outputs);
    ApplyJoin(c1, i, o + (a + c));
    GroupsRebuilt(env, c1, ctx.inputs, true);
    assert [] + ctx.inputs == ctx.inputs;
    ApplyJoin(c2, o, a + c);
    GroupsRebuilt(env, c2, ctx.outputs, false);
    assert [] + ctx.outputs == ctx.outputs;
    ApplyJoin(c3, a, c);
    AvsRebuilt(c3, ctx.av);
    assert [] + ctx.av == ctx.av;
    OptsRebuilt(c3.(av := ctx.av), ctx.cur, false);
    assert [] + ctx.cur == ctx.cur;
  }

  /** The printed items make the context again. */
  lemma PrintedRebuilds(env: Env, ctx: Context)
    requires ValidContext(env, ctx)
    ensures ApplyAll(EMPTY, Printed(ctx)) == ctx
  {
    ApplyJoin(EMPTY, OptItems(ctx.globals), FileItems(ctx));
    OptsRebuilt(EMPTY, ctx.globals, true);
    assert [] + ctx.globals == ctx.globals;
    FilesRebuilt(env, ctx, ctx.globals);
  }

  /** So they do with the global options last. */
  lemma GlobalsLastRebuild(env: Env, ctx: Context)
    requires ValidContext(env, ctx)
    ensures ApplyAll(EMPTY, FileItems(ctx) + OptItems(ctx.globals)) == ctx
  {
    ApplyJoin(EMPTY, FileItems(ctx), OptItems(ctx.globals));
    FilesRebuilt(env, ctx, []);
    OptsRebuilt(ctx.(globals := []), ctx.globals, true);
    assert [] + ctx.globals == ctx.globals;
  }

  // --------------------------------------------------------------------------------------- printing and splitting

  /** Something besides global options is printed. */
  predicate HasMore(ctx: Context) { ctx.inputs != [] || ctx.outputs != [] || ctx.cur != [] || ctx.av != [] }

  lemma FileItemsIff(ctx: Context)
    ensures FileItems(ctx) != [] <==> HasMore(ctx)
  {
    GroupsUnfold(ctx.inputs, true);
    GroupsUnfold(ctx.outputs, false);
  }

  ghost predicate LastMayHang(env: Env, opts: seq<Opt>) {
    NoneHangs(env, opts) || (opts != [] && NoneHangs(env, opts[..|opts| - 1]))
  }

  /** Of the options outside finished groups at most one hangs, and it is the last of its list. */
  ghost predicate OneMayHang(env: Env, ctx: Context) {
    && LastMayHang(env, ctx.globals) && LastMayHang(env, ctx.cur)
    && (NoneHangs(env, ctx.globals) || NoneHangs(env, ctx.cur))
  }

  /** What a command line without errors splits into: a valid context, of which only an option at the end of its list
      may hang. */
  lemma SplitIsValid(env: Env, argv: seq<string>)
    requires Split(env, argv).1.None?
    ensures ValidContext(env, Split(env, argv).0) && OneMayHang(env, Split(env, argv).0)
  {
    EveryArgumentOnce(env, Rest(argv, 1), false);
    ItemsGiveValidContext(env, Parse(env, Rest(argv, 1), false).items);
  }

  lemma ItemsGiveValidContext(env: Env, items: seq<Item>)
    requires Readable(env, items, false)
    ensures ValidContext(env, ApplyAll(EMPTY, items)) && OneMayHang(env, ApplyAll(EMPTY, items))
  {
    if items == [] {
      ApplyUnfolds(EMPTY, []);
    } else {
      var front, last := items[..|items| - 1], items[|items| - 1];
      assert items == front + [last];
      SettledItemsGiveSettledContext(env, front, false);
      ApplyBehind(EMPTY, front, last);
      var ctx := ApplyAll(EMPTY, front);
      ApplyKeepsValid(env, ctx, last, BehindDashes(items, false, |items| - 1));
      if Hanging(env, last) {
        assert (ctx.globals + [last.o])[..|ctx.globals|] == ctx.globals;
        assert (ctx.cur + [last.o])[..|ctx.cur|] == ctx.cur;
      }
    }
  }

  lemma ReadableJoin(env: Env, a: seq<Item>, b: seq<Item>)
    requires Run(env, a) && Settled(env, a) && Run(env, b) && (b != [] ==> Settled(env, b[..|b| - 1]))
    ensures Readable(env, a + b, false)
  {
    RunsJoin(env, a, b);
    if b == [] {
      assert a + b == a;
    } else {
      assert (a + b)[..|a + b| - 1] == a + b[..|b| - 1];
      SettledJoin(env, a, b[..|b| - 1]);
    }
  }

  lemma OptsBeforeLast(env: Env, opts: seq<Opt>, global: bool)
    requires ValidOpts(env, opts, global) && opts != [] && LastMayHang(env, opts)
    ensures Settled(env, OptItems(opts)[..|opts| - 1])
  {
    var front := opts[..|opts| - 1];
    assert OptItems(opts)[..|opts| - 1] == OptItems(front);
    OptsRun(env, front, global);
  }

  lemma RunThenOpts(env: Env, a: seq<Item>, opts: seq<Opt>, global: bool)
    requires Run(env, a) && Settled(env, a) && ValidOpts(env, opts, global) && LastMayHang(env, opts)
    ensures Readable(env, a + OptItems(opts), false)
  {
    if opts == [] {
      assert OptItems(opts) == [];
      ReadableJoin(env, a, []);
    } else {
      OptsRun(env, opts, global);
      OptsBeforeLast(env, opts, global);
      ReadableJoin(env, a, OptItems(opts));
    }
  }

  lemma PrintedIsReadable(env: Env, ctx: Context)
    requires ValidContext(env, ctx) && NoneHangs(env, ctx.globals) && LastMayHang(env, ctx.cur)
    ensures Readable(env, Printed(ctx), false)
  {
    PrintedIs(ctx);
    LeadingRuns(env, ctx);
    RunThenOpts(env, Leading(ctx), ctx.cur, false);
  }

  lemma FilesRun(env: Env, ctx: Context)
    requires ValidContext(env, ctx) && NoneHangs(env, ctx.cur)
    ensures Run(env, FileItems(ctx)) && Settled(env, FileItems(ctx))
  {
    var i, o := GroupsItems(ctx.inputs, true), GroupsItems(ctx.outputs, false);
    var a, c := AvItems(ctx.av), OptItems(ctx.cur);
    GroupsRun(env, ctx.inputs, true);
    GroupsRun(env, ctx.outputs, false);
    AvsRun(env, ctx.av);
    OptsRun(env, ctx.cur, false);
    RunsJoin(env, a, c);
    SettledJoin(env, a, c);
    RunsJoin(env, o, a + c);
    SettledJoin(env, o, a + c);
    RunsJoin(env, i, o + (a + c));
    SettledJoin(env, i, o + (a + c));
  }

  lemma GlobalsAreReadable(env: Env, ctx: Context)
    requires ValidContext(env, ctx) && !HasMore(ctx) && LastMayHang(env, ctx.globals)
    ensures Readable(env, Printed(ctx), false)
  {
    FileItemsIff(ctx);
    assert Printed(ctx) == [] + OptItems(ctx.globals);
    RunThenOpts(env, [], ctx.globals, true);
  }

  /** The context as a command line with the option that may hang, if there is one, at its end. */
  ghost function CarefullyPrinted(env: Env, ctx: Context): seq<Item> {
    if NoneHangs(env, ctx.globals) then Printed(ctx) else FileItems(ctx) + OptItems(ctx.globals)
  }

  /** Whatever command line is split: its context, printed with the hanging option last, splits into itself. */
  lemma CarefullyPrintedSplitsAgain(env: Env, argv: seq<string>, program: string)
    requires Split(env, argv).1.None?
    ensures var ctx := Split(env, argv).0;
      Split(env, [program] + AllTokens(env, CarefullyPrinted(env, ctx))) == (ctx, None)
  {
    var ctx := Split(env, argv).0;
    var items := CarefullyPrinted(env, ctx);
    SplitIsValid(env, argv);
    if NoneHangs(env, ctx.globals) {
      PrintedIsReadable(env, ctx);
      PrintedRebuilds(env, ctx);
    } else {
      FilesRun(env, ctx);
      RunThenOpts(env, FileItems(ctx), ctx.globals, true);
      GlobalsLastRebuild(env, ctx);
    }
    ReadableIsRead(env, items, false);
    assert Rest([program] + AllTokens(env, items), 1) == AllTokens(env, items);
  }

  /** The arguments of a printed context, behind a program's name. */
  function PrintedArgv(env: Env, program: string, ctx: Context): seq<string> {
    [program] + AllTokens(env, Printed(ctx))
  }

  /** A context printed and split again is the same, if no global option hangs or nothing but globals is printed. */
  lemma PrintedSplitsAgain(env: Env, argv: seq<string>, program: string)
    requires Split(env, argv).1.None?
    requires var ctx := Split(env, argv).0; NoneHangs(env, ctx.globals) || !HasMore(ctx)
    ensures Split(env, PrintedArgv(env, program, Split(env, argv).0)) == Split(env, argv)
  {
    var ctx := Split(env, argv).0;
    SplitIsValid(env, argv);
    if NoneHangs(env, ctx.globals) {
      PrintedIsReadable(env, ctx);
    } else {
      GlobalsAreReadable(env, ctx);
    }
    ReadableIsRead(env, Printed(ctx), false);
    PrintedRebuilds(env, ctx);
    assert Rest(PrintedArgv(env, program, ctx), 1) == AllTokens(env, Printed(ctx));
  }

  // ---------------------------------------------------------------------------------------- when it is not the same

  /** Some global option has no value: an exiting option, such as -h, that ended the command line. */
  predicate LacksValue(ctx: Context) { ctx.globals != [] && ctx.globals[|ctx.globals| - 1].val.None? }

  /** Items whose reading does not depend on what follows them. */
  ghost predicate Steady(env: Env, items: seq<Item>, dashed: bool) {
    Ordered(env, items, dashed) && Settled(env, items) && !BehindDashes(items, dashed, |items|)
  }

  lemma SteadyTail(env: Env, items: seq<Item>, dashed: bool)
    requires Steady(env, items, dashed) && items != []
    ensures Fits(env, items[0], dashed) && !Hanging(env, items[0]) && Steady(env, items[1..], items[0].Dashes?)
  {
    OrderedTail(env, items, dashed);
    SettledTail(env, items);
  }

  lemma TokensThenRest(env: Env, items: seq<Item>, rest: seq<string>)
    requires items != []
    ensures AllTokens(env, items) + rest == Tokens(env, items[0]) + (AllTokens(env, items[1..]) + rest)
  {
    TokensUnfold(env, items);
  }

  lemma BehindTail(items: seq<Item>, parsed: Parsed)
    requires items != []
    ensures Behind([items[0]], Behind(items[1..], parsed)) == Behind(items, parsed)
  {
    assert [items[0]] + (items[1..] + parsed.items) == items + parsed.items;
  }

  /** Steady items are read as such, whatever stands behind them. */
  lemma {:induction false} SteadyIsRead(env: Env, items: seq<Item>, rest: seq<string>, dashed: bool)
    requires Steady(env, items, dashed)
    ensures Parse(env, AllTokens(env, items) + rest, dashed) == Behind(items, Parse(env, rest, false))
    decreases |items|
  {
    if items == [] {
      TokensUnfold(env, items);
      assert [] + rest == rest;
      assert [] + Parse(env, rest, false).items == Parse(env, rest, false).items;
    } else {
      var tail := AllTokens(env, items[1..]) + rest;
      SteadyTail(env, items, dashed);
      TokensThenRest(env, items, rest);
      FittingIsRead(env, items[0], dashed, tail);
      ParseUnfolds(env, Tokens(env, items[0]) + tail, dashed);
      SteadyIsRead(env, items[1..], rest, items[0].Dashes?);
      BehindTail(items, Parse(env, rest, false));
    }
  }

  lemma {:induction false} GlobalsGrow(ctx: Context, items: seq<Item>)
    ensures ctx.globals <= ApplyAll(ctx, items).globals
    decreases |items|
  {
    ApplyUnfolds(ctx, items);
    if items != [] {
      GlobalsGrow(Apply(ctx, items[0]), items[1..]);
    }
  }

  lemma {:induction false} TokensJoin(env: Env, a: seq<Item>, b: seq<Item>)
    ensures AllTokens(env, a + b) == AllTokens(env, a) + AllTokens(env, b)
    decreases |a|
  {
    TokensUnfold(env, a);
    if a == [] {
      assert a + b == b;
    } else {
      assert (a + b)[1..] == a[1..] + b;
      TokensUnfold(env, a + b);
      TokensJoin(env, a[1..], b);
      JoinThree(Tokens(env, a[0]), AllTokens(env, a[1..]), AllTokens(env, b));
    }
  }

  /** An exiting option takes whatever stands behind it. */
  lemma ExitTakesNext(env: Env, o: Opt, rest: seq<string>)
    requires ValidOpt(env, o) && o.val.None? && rest != []
    ensures Parse(env, ["-" + o.key] + rest, false)
         == Behind([Plain(Opt(o.def, o.key, Some(rest[0])))], Parse(env, rest[1..], false))
  {
    var tokens := ["-" + o.key] + rest;
    assert tokens[0][1..] == o.key && tokens[1..] == rest;
    ParseUnfolds(env, tokens, false);
  }

  /** An option that is a library option's too is read as that one when something stands behind it. */
  lemma LibraryOptionTakesNext(env: Env, o: Opt, rest: seq<string>)
    requires ValidOpt(env, o) && Find(env.table, o.key).None? && env.known(o.key) && rest != []
    ensures var parsed := Parse(env, ["-" + o.key] + rest, false);
      parsed.error.Some? || parsed == Behind([Av(o.key, rest[0])], Parse(env, rest[1..], false))
  {
    var tokens := ["-" + o.key] + rest;
    assert tokens[0][1..] == o.key && tokens[1..] == rest;
    ParseUnfolds(env, tokens, false);
  }

  /** Global options in front are read as such. */
  lemma FrontIsRead(env: Env, front: seq<Opt>, rest: seq<string>)
    requires ValidOpts(env, front, true) && NoneHangs(env, front)
    ensures Parse(env, AllTokens(env, OptItems(front)) + rest, false)
      == Behind(OptItems(front), Parse(env, rest, false))
  {
    OptsRun(env, front, true);
    SteadyIsRead(env, OptItems(front), rest, false);
  }

  /** What is printed of a context whose last global option hangs: that option has an argument of the printed files,
      or of the trailing options, behind it. */
  lemma HangingIsPrinted(env: Env, ctx: Context, front: seq<Opt>, o: Opt) returns (rest: seq<string>)
    requires ctx.globals == front + [o] && !TakesValue(env, o) && HasMore(ctx)
    requires ValidOpts(env, ctx.globals, true) && NoneHangs(env, front)
    ensures rest != [] && ValidOpt(env, o) && ValidOpts(env, front, true)
    ensures Parse(env, AllTokens(env, Printed(ctx)), false)
         == Behind(OptItems(front), Parse(env, ["-" + o.key] + rest, false))
  {
    rest := AllTokens(env, FileItems(ctx));
    PrintedTokens(env, ctx, front, o);
    FileItemsIff(ctx);
    TokensUnfold(env, FileItems(ctx));
    assert ctx.globals[|front|] == o && forall i :: 0 <= i < |front| ==> front[i] == ctx.globals[i];
    FrontIsRead(env, front, ["-" + o.key] + rest);
  }

  lemma ApplyThree(ctx: Context, front: seq<Item>, item: Item, others: seq<Item>)
    ensures ApplyAll(ctx, front + ([item] + others)) == ApplyAll(Apply(ApplyAll(ctx, front), item), others)
  {
    assert front + ([item] + others) == front + [item] + others;
    ApplyJoin(ctx, front + [item], others);
    ApplyBehind(ctx, front, item);
  }

  lemma TakenIsKept(front: seq<Opt>, taken: Opt, others: seq<Item>)
    requires taken.def.Global() && forall i {:trigger front[i]} :: 0 <= i < |front| ==> front[i].def.Global()
    ensures front + [taken] <= ApplyAll(EMPTY, OptItems(front) + ([Plain(taken)] + others)).globals
  {
    ApplyThree(EMPTY, OptItems(front), Plain(taken), others);
    OptsRebuilt(EMPTY, front, true);
    assert [] + front == front;
    GlobalsGrow(Apply(ApplyAll(EMPTY, OptItems(front)), Plain(taken)), others);
  }

  lemma OtherGlobal(globals: seq<Opt>, front: seq<Opt>, o: Opt, taken: Opt)
    requires globals == front + [o] && taken != o
    ensures !(front + [taken] <= globals)
  {
    assert (front + [taken])[|front|] != globals[|front|];
  }

  /** If a global option has no value and something else is printed, splitting again gives another context. */
  lemma LackingValueSplitsOtherwise(env: Env, argv: seq<string>, program: string)
    requires Split(env, argv).1.None? && LacksValue(Split(env, argv).0) && HasMore(Split(env, argv).0)
    ensures Split(env, PrintedArgv(env, program, Split(env, argv).0)).0 != Split(env, argv).0
  {
    var ctx := Split(env, argv).0;
    SplitIsValid(env, argv);
    OnlyLastHangs(env, ctx);
    var n := |ctx.globals| - 1;
    var front, o := ctx.globals[..n], ctx.globals[n];
    var rest := HangingIsPrinted(env, ctx, front, o);
    var taken, others := Opt(o.def, o.key, Some(rest[0])), Parse(env, rest[1..], false).items;
    ExitTakesNext(env, o, rest);
    assert Rest(PrintedArgv(env, program, ctx), 1) == AllTokens(env, Printed(ctx));
    TakenIsKept(front, taken, others);
    OtherGlobal(ctx.globals, front, o, taken);
  }

  lemma OnlyLastHangs(env: Env, ctx: Context)
    requires ctx.globals != []
    requires NoneHangs(env, ctx.globals) || NoneHangs(env, ctx.globals[..|ctx.globals| - 1])
    ensures NoneHangs(env, ctx.globals[..|ctx.globals| - 1])
  {
  }

  lemma OptItemsJoin(front: seq<Opt>, o: Opt)
    ensures OptItems(front + [o]) == OptItems(front) + [Plain(o)]
  {
  }

  lemma TokensOfOne(env: Env, o: Opt)
    requires !TakesValue(env, o)
    ensures AllTokens(env, [Plain(o)]) == ["-" + o.key]
  {
    TokensUnfold(env, [Plain(o)]);
    TokensUnfold(env, []);
  }

  lemma JoinThree<T>(a: seq<T>, b: seq<T>, c: seq<T>)
    ensures a + b + c == a + (b + c)
  {
  }

  lemma PrintedTokens(env: Env, ctx: Context, front: seq<Opt>, o: Opt)
    requires ctx.globals == front + [o] && !TakesValue(env, o)
    ensures AllTokens(env, Printed(ctx))
      == AllTokens(env, OptItems(front)) + (["-" + o.key] + AllTokens(env, FileItems(ctx)))
  {
    OptItemsJoin(front, o);
    TokensJoin(env, OptItems(ctx.globals), FileItems(ctx));
    TokensJoin(env, OptItems(front), [Plain(o)]);
    TokensOfOne(env, o);
    JoinThree(AllTokens(env, OptItems(front)), ["-" + o.key], AllTokens(env, FileItems(ctx)));
  }

  /** Some library option was given. */
  predicate HasAv(ctx: Context) {
    ctx.av != [] || (exists i :: 0 <= i < |ctx.inputs| && ctx.inputs[i].av != [])
    || (exists i :: 0 <= i < |ctx.outputs| && ctx.outputs[i].av != [])
  }

  lemma GroupHasAv(ctx: Context, name: string, isInput: bool)
    requires ctx.av != []
    ensures HasAv(Apply(ctx, if isInput then Input(name) else Output(name)))
  {
    var next := Apply(ctx, if isInput then Input(name) else Output(name));
    if isInput {
      assert next.inputs[|ctx.inputs|].av == ctx.av;
    } else {
      assert next.outputs[|ctx.outputs|].av == ctx.av;
    }
  }

  lemma GroupsKeepAv(ctx: Context, item: Item, i: nat)
    ensures i < |ctx.inputs| && ctx.inputs[i].av != [] ==> HasAv(Apply(ctx, item))
    ensures i < |ctx.outputs| && ctx.outputs[i].av != [] ==> HasAv(Apply(ctx, item))
  {
    var next := Apply(ctx, item);
    assert i < |ctx.inputs| ==> next.inputs[i] == ctx.inputs[i];
    assert i < |ctx.outputs| ==> next.outputs[i] == ctx.outputs[i];
  }

  lemma AvIsKept(ctx: Context, item: Item)
    requires HasAv(ctx)
    ensures HasAv(Apply(ctx, item))
  {
    if ctx.av != [] {
      if IsFile(item) {
        GroupHasAv(ctx, item.name, item.Input?);
      }
    } else if i :| 0 <= i < |ctx.inputs| && ctx.inputs[i].av != [] {
      GroupsKeepAv(ctx, item, i);
    } else {
      var i :| 0 <= i < |ctx.outputs| && ctx.outputs[i].av != [];
      GroupsKeepAv(ctx, item, i);
    }
  }

  lemma {:induction false} AvsAreKept(ctx: Context, items: seq<Item>)
    requires HasAv(ctx)
    ensures HasAv(ApplyAll(ctx, items))
    decreases |items|
  {
    ApplyUnfolds(ctx, items);
    if items != [] {
      AvIsKept(ctx, items[0]);
      AvsAreKept(Apply(ctx, items[0]), items[1..]);
    }
  }

  /** The last global option is a negated boolean option by a name that is a library option's too. */
  predicate Shadowed(env: Env, ctx: Context) {
    ctx.globals != [] &&
    var key := ctx.globals[|ctx.globals| - 1].key; Find(env.table, key).None? && env.known(key)
  }

  /** If that option is printed before something else and no library option was given, splitting again does not give
      the same context: it reads a library option, or fails. */
  lemma ShadowedSplitsOtherwise(env: Env, argv: seq<string>, program: string)
    requires Split(env, argv).1.None?
    requires var ctx := Split(env, argv).0; Shadowed(env, ctx) && HasMore(ctx) && !HasAv(ctx)
    ensures Split(env, PrintedArgv(env, program, Split(env, argv).0)) != (Split(env, argv).0, None)
  {
    var ctx := Split(env, argv).0;
    SplitIsValid(env, argv);
    OnlyLastHangs(env, ctx);
    var n := |ctx.globals| - 1;
    var front, o := ctx.globals[..n], ctx.globals[n];
    var rest := HangingIsPrinted(env, ctx, front, o);
    LibraryOptionTakesNext(env, o, rest);
    assert Rest(PrintedArgv(env, program, ctx), 1) == AllTokens(env, Printed(ctx));
    if Parse(env, ["-" + o.key] + rest, false).error.None? {
      ReadAvIsKept(OptItems(front), Av(o.key, rest[0]), Parse(env, rest[1..], false).items);
    }
  }

  lemma ReadAvIsKept(front: seq<Item>, item: Item, others: seq<Item>)
    requires item.Av?
    ensures HasAv(ApplyAll(EMPTY, front + ([item] + others)))
  {
    ApplyThree(EMPTY, front, item, others);
    AvsAreKept(Apply(ApplyAll(EMPTY, front), item), others);
  }

  /** Printing with the global options first and splitting again gives the same context if and only if no global option
      hangs or nothing but global options is printed; but for a shadowed option among library options, where
      RepeatedShadowPrintsItself shows a context that comes back although it hangs. */
  lemma PrintedSplitsAgainIff(env: Env, argv: seq<string>, program: string)
    requires Split(env, argv).1.None?
    requires var ctx := Split(env, argv).0; HasAv(ctx) ==> !Shadowed(env, ctx)
    ensures var ctx := Split(env, argv).0;
      Split(env, PrintedArgv(env, program, ctx)) == (ctx, None) <==> NoneHangs(env, ctx.globals) || !HasMore(ctx)
  {
    var ctx := Split(env, argv).0;
    SplitIsValid(env, argv);
    if NoneHangs(env, ctx.globals) || !HasMore(ctx) {
      PrintedSplitsAgain(env, argv, program);
    } else if LacksValue(ctx) {
      LackingValueSplitsOtherwise(env, argv, program);
    } else {
      HangsByName(env, ctx.globals);
      ShadowedSplitsOtherwise(env, argv, program);
    }
  }

  lemma HangsByName(env: Env, opts: seq<Opt>)
    requires LastMayHang(env, opts) && !NoneHangs(env, opts) && opts[|opts| - 1].val.Some?
    ensures Find(env.table, opts[|opts| - 1].key).None? && env.known(opts[|opts| - 1].key)
  {
    forall i | 0 <= i < |opts| - 1
      ensures !HangingOpt(env, opts[i])
    {
      assert opts[..|opts| - 1][i] == opts[i];
    }
  }

  // A boolean option y whose negation is a library option's name too.

  const OVERWRITE := OptionDef("y", false, true, false, false, false, false)

  const REPEATED := ["ffmpeg", "-noy", "-noy", "-noy"]

  const REPEATED_CONTEXT := Context([Opt(OVERWRITE, "noy", Some("0"))], [], [], [], [("noy", "-noy")])

  ghost predicate Shadowing(env: Env) {
    env.table == [OVERWRITE] && env.known("noy") && env.accepts("noy", "-noy")
  }

  lemma ShadowIsFound()
    ensures Find([OVERWRITE], "noy") == None && Negated([OVERWRITE], "noy") == Some(OVERWRITE)
  {
    assert Stem("oy") == "oy";
    assert Stem("noy") == "noy" && |"noy"| != |"y"|;
    assert FindFrom([OVERWRITE], "noy", 1) == None;
    assert Stem("y") == "y" && FindFrom([OVERWRITE], "y", 0) == Some(OVERWRITE);
    assert "noy"[2..] == "y" && "noy"[..2] == "no";
  }

  lemma RepeatedShadowSplits(env: Env)
    requires Shadowing(env)
    ensures Split(env, REPEATED) == (REPEATED_CONTEXT, None)
  {
    ShadowIsFound();
    var av, y := Av("noy", "-noy"), Plain(Opt(OVERWRITE, "noy", Some("0")));
    assert Rest(REPEATED, 1) == ["-noy", "-noy", "-noy"];
    assert "-noy"[1..] == "noy";
    ParseUnfolds(env, ["-noy", "-noy", "-noy"], false);
    ParseUnfolds(env, ["-noy"], false);
    assert Parse(env, ["-noy", "-noy", "-noy"], false) == Parsed([av, y], None);
    assert [] + [y.o] == [y.o] && [] + [("noy", "-noy")] == [("noy", "-noy")];
    ApplyTwo(av, y);
  }

  /** A shadowed option among library options of its own name: the context prints as the command line it came from,
      and so comes back although it hangs before something else. */
  lemma RepeatedShadowPrintsItself(env: Env)
    requires Shadowing(env)
    ensures var ctx := Split(env, REPEATED).0;
      && Split(env, REPEATED).1 == None && HasAv(ctx) && Shadowed(env, ctx) && HasMore(ctx)
      && PrintedArgv(env, "ffmpeg", ctx) == REPEATED
  {
    RepeatedShadowSplits(env);
    ShadowIsFound();
    var y, av := Plain(Opt(OVERWRITE, "noy", Some("0"))), Av("noy", "-noy");
    GroupsUnfold([], true);
    GroupsUnfold([], false);
    assert FileItems(REPEATED_CONTEXT) == [av];
    assert Printed(REPEATED_CONTEXT) == [y, av];
    assert "-" + "noy" == "-noy";
    TokensUnfold(env, [y, av]);
    TokensUnfold(env, [av]);
    assert [y, av][1..] == [av] && [av][1..] == [];
  }

  // A command line whose trailing -h is another option when it is printed first.

  const HELP := OptionDef("h", false, false, true, false, false, false)

  const HELP_CONTEXT := Context([Opt(HELP, "h", None)], [Group("a", [], [])], [], [], [])

  lemma HelpIsFound()
    ensures Find([HELP], "h") == Some(HELP)
  {
    assert Stem("h") == "h";
  }

  lemma ApplyTwo(a: Item, b: Item)
    ensures ApplyAll(EMPTY, [a, b]) == Apply(Apply(EMPTY, a), b)
  {
    ApplyUnfolds(EMPTY, [a, b]);
    ApplyUnfolds(Apply(EMPTY, a), [b]);
    ApplyUnfolds(Apply(Apply(EMPTY, a), b), []);
  }

  lemma HelpSplits(env: Env)
    requires env.table == [HELP]
    ensures Split(env, ["ffmpeg", "a", "-h"]) == (HELP_CONTEXT, None)
  {
    HelpIsFound();
    var help := Plain(Opt(HELP, "h", None));
    assert Rest(["ffmpeg", "a", "-h"], 1) == ["a", "-h"];
    ParseUnfolds(env, ["a", "-h"], false);
    ParseUnfolds(env, ["-h"], false);
    assert Parse(env, ["a", "-h"], false) == Parsed([Output("a"), help], None);
    assert [] + [help.o] == [help.o] && [] + [Group("a", [], [])] == [Group("a", [], [])];
    ApplyTwo(Output("a"), help);
  }

  lemma HelpPrints(env: Env)
    requires env.table == [HELP]
    ensures PrintedArgv(env, "ffmpeg", HELP_CONTEXT) == ["ffmpeg", "-h", "--", "a"]
  {
    var help, items := Plain(Opt(HELP, "h", None)), [Dashes, Output("a")];
    GroupsUnfold([], true);
    GroupsUnfold(HELP_CONTEXT.outputs, false);
    GroupsUnfold([], false);
    assert FileItems(HELP_CONTEXT) == items;
    assert Printed(HELP_CONTEXT) == [help] + items;
    assert "-" + "h" == "-h";
    TokensUnfold(env, [help] + items);
    TokensUnfold(env, items);
    TokensUnfold(env, [Output("a")]);
    assert ([help] + items)[1..] == items && items[1..] == [Output("a")];
  }

  lemma HelpSplitsOtherwise(env: Env)
    requires env.table == [HELP]
    ensures Split(env, ["ffmpeg", "-h", "--", "a"]) == (HELP_CONTEXT.(globals := [Opt(HELP, "h", Some("--"))]), None)
  {
    HelpIsFound();
    var help := Plain(Opt(HELP, "h", Some("--")));
    assert Rest(["ffmpeg", "-h", "--", "a"], 1) == ["-h", "--", "a"];
    ParseUnfolds(env, ["-h", "--", "a"], false);
    ParseUnfolds(env, ["a"], false);
    assert Parse(env, ["-h", "--", "a"], false) == Parsed([help, Output("a")], None);
    assert [] + [help.o] == [help.o] && [] + [Group("a", [], [])] == [Group("a", [], [])];
    ApplyTwo(help, Output("a"));
  }

  /** A help option at the end of the command line, printed first, takes "--" for its argument. */
  lemma TrailingHelpIsAnotherOption(env: Env)
    requires env.table == [HELP]
    ensures var ctx := Split(env, ["ffmpeg", "a", "-h"]).0;
      Split(env, PrintedArgv(env, "ffmpeg", ctx)).0 == ctx.(globals := [Opt(HELP, "h", Some("--"))])
  {
    HelpSplits(env);
    HelpPrints(env);
    HelpSplitsOtherwise(env);
  }
}
