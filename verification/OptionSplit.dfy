/** Splitting a command line into global options and per-file groups: split_commandline of fftools/cmdutils.c
    with the groups of ffmpeg_opt.c. */
module OptionSplit {
  import opened Wrappers

  // ------------------------------------------------------------------------------------------------- the tables

  /** An entry of the option table, with the flags that splitting looks at. */
  datatype OptionDef = OptionDef(
    name: string, hasArg: bool, isBool: bool, exit: bool, perFile: bool, spec: bool, offset: bool)
  {
    predicate Global() { !(perFile || spec || offset) }
  }

  /** The option table, and what opt_default says of the libraries' options: whether there is one of that name, and
      whether it takes the value. */
  datatype Env = Env(table: seq<OptionDef>, known: string -> bool, accepts: (string, string) -> bool)

  /** An option's name without its stream specifier. */
  function Stem(name: string): (stem: string)
    ensures stem <= name && ':' !in stem && (stem == name || name[|stem|] == ':')
  {
    if name == "" || name[0] == ':' then "" else [name[0]] + Stem(name[1..])
  }

  function FindFrom(table: seq<OptionDef>, stem: string, i: nat): Option<OptionDef>
    requires i <= |table|
    decreases |table| - i
  {
    if i == |table| then None else if table[i].name == stem then Some(table[i]) else FindFrom(table, stem, i + 1)
  }

  /** The first table entry of that name, stream specifier aside; FoundIsFirst says so. */
  function Find(table: seq<OptionDef>, name: string): Option<OptionDef> {
    FindFrom(table, Stem(name), 0)
  }

  lemma {:induction false} FoundFrom(table: seq<OptionDef>, stem: string, i: nat)
    requires i <= |table|
    ensures match FindFrom(table, stem, i)
      case None => forall j :: i <= j < |table| ==> table[j].name != stem
      case Some(def) => exists j :: i <= j < |table| && table[j] == def && def.name == stem &&
                                    forall k :: i <= k < j ==> table[k].name != stem
    decreases |table| - i
  {
    if i < |table| && table[i].name != stem {
      FoundFrom(table, stem, i + 1);
    }
  }

  lemma FoundIsFirst(table: seq<OptionDef>, name: string)
    ensures match Find(table, name)
      case None => forall j :: 0 <= j < |table| ==> table[j].name != Stem(name)
      case Some(def) => exists j :: 0 <= j < |table| && table[j] == def && def.name == Stem(name) &&
                                    forall k :: 0 <= k < j ==> table[k].name != Stem(name)
  {
    FoundFrom(table, Stem(name), 0);
  }

  /** find_option's loop. */
  method FindOption(table: seq<OptionDef>, name: string) returns (def: Option<OptionDef>)
    ensures def == Find(table, name)
  {
    var stem := Stem(name);
    var i := 0;
    while i < |table| && table[i].name != stem
      invariant 0 <= i <= |table|
      invariant FindFrom(table, stem, i) == FindFrom(table, stem, 0)
    {
      i := i + 1;
    }
    return if i < |table| then Some(table[i]) else None;
  }

  // ------------------------------------------------------------------------------------------------ the context

  /** An option given; val is None for an exiting option without its optional argument. */
  datatype Opt = Opt(def: OptionDef, key: string, val: Option<string>)

  /** A file with the options that stood before it: those of the table, and those of the libraries. */
  datatype Group = Group(arg: string, opts: seq<Opt>, av: seq<(string, string)>)

  datatype Context = Context(
    globals: seq<Opt>, outputs: seq<Group>, inputs: seq<Group>, cur: seq<Opt>, av: seq<(string, string)>)

  const EMPTY := Context([], [], [], [], [])

  /** One thing read from the command line. */
  datatype Item = Dashes | Output(name: string) | Input(name: string) | Plain(o: Opt) | Av(key: string, val: string)

  function Apply(ctx: Context, item: Item): Context {
    match item
    case Dashes => ctx
    case Output(name) => ctx.(outputs := ctx.outputs + [Group(name, ctx.cur, ctx.av)], cur := [], av := [])
    case Input(name) => ctx.(inputs := ctx.inputs + [Group(name, ctx.cur, ctx.av)], cur := [], av := [])
    case Plain(o) => if o.def.Global() then ctx.(globals := ctx.globals + [o]) else ctx.(cur := ctx.cur + [o])
    case Av(key, val) => ctx.(av := ctx.av + [(key, val)])
  }

  function ApplyLoop(ctx: Context, items: seq<Item>): Context
    decreases |items|
  {
    if items == [] then ctx else ApplyLoop(Apply(ctx, items[0]), items[1..])
  }

  /** All items, one after the other. */
  function ApplyAll(ctx: Context, items: seq<Item>): Context { ApplyLoop(ctx, items) }

  // -------------------------------------------------------------------------------------------------- splitting

  datatype Error = MissingArgument | BadValue | Unrecognized

  datatype Step = Read(item: Item, rest: seq<string>) | Failed(error: Error)

  /** A name that is always a file's: one that does not start with a dash, or a single dash. */
  predicate Bare(arg: string) { arg == "" || arg[0] != '-' || |arg| == 1 }

  /** The key is "no" and a boolean option. */
  function Negated(table: seq<OptionDef>, key: string): Option<OptionDef> {
    if |key| >= 2 && key[..2] == "no" then
      var def := Find(table, key[2..]);
      if def.Some? && def.value.isBool then def else None
    else None
  }

  lemma NegatedIff(table: seq<OptionDef>, key: string, def: OptionDef)
    ensures Negated(table, key) == Some(def) <==>
      def.isBool && exists name :: key == "no" + name && Find(table, name) == Some(def)
  {
    if Negated(table, key) == Some(def) {
      assert key == "no" + key[2..] && Find(table, key[2..]) == Some(def);
    }
    forall name | key == "no" + name && Find(table, name) == Some(def)
      ensures key[..2] == "no" && key[2..] == name
    {
    }
  }

  /** What stands at the front of a non-empty rest of the command line; dashed after "--". */
  function ReadItem(env: Env, rest: seq<string>, dashed: bool): (r: Step)
    requires rest != []
    ensures r.Read? ==> |r.rest| < |rest|
  {
    if rest[0] == "--" then Read(Dashes, rest[1..])
    else if Bare(rest[0]) || dashed then Read(Output(rest[0]), rest[1..])
    else ReadOption(env, rest[0][1..], rest[1..])
  }

  /** An option, given what stands behind it. */
  function ReadOption(env: Env, key: string, rest: seq<string>): (r: Step)
    ensures r.Read? ==> |r.rest| <= |rest|
  {
    if key == "i" then
      if rest == [] then Failed(MissingArgument) else Read(Input(rest[0]), rest[1..])
    else match Find(env.table, key)
      case Some(def) =>
        if def.exit then
          if rest == [] then Read(Plain(Opt(def, key, None)), [])
          else Read(Plain(Opt(def, key, Some(rest[0]))), rest[1..])
        else if def.hasArg then
          if rest == [] then Failed(MissingArgument) else Read(Plain(Opt(def, key, Some(rest[0]))), rest[1..])
        else Read(Plain(Opt(def, key, Some("1"))), rest)
      case None =>
        if rest != [] && env.known(key) then
          if env.accepts(key, rest[0]) then Read(Av(key, rest[0]), rest[1..]) else Failed(BadValue)
        else if Negated(env.table, key).Some? then Read(Plain(Opt(Negated(env.table, key).value, key, Some("0"))), rest)
        else Failed(Unrecognized)
  }

  /** The items read, and the error that ended reading, if any. */
  datatype Parsed = Parsed(items: seq<Item>, error: Option<Error>)

  function ParseLoop(env: Env, rest: seq<string>, dashed: bool): Parsed
    decreases |rest|
  {
    if rest == [] then Parsed([], None)
    else match ReadItem(env, rest, dashed)
      case Failed(error) => Parsed([], Some(error))
      case Read(item, rest') =>
        var others := ParseLoop(env, rest', item.Dashes?);
        Parsed([item] + others.items, others.error)
  }

  /** A rest of the command line. */
  function Parse(env: Env, rest: seq<string>, dashed: bool): Parsed { ParseLoop(env, rest, dashed) }

  /** The command line from optindex on, which may be past its end. */
  function Rest(argv: seq<string>, optindex: nat): seq<string> {
    if optindex <= |argv| then argv[optindex..] else []
  }

  /** The whole command line, the program's name first. */
  function Split(env: Env, argv: seq<string>): (r: (Context, Option<Error>)) {
    var parsed := Parse(env, Rest(argv, 1), false);
    (ApplyAll(EMPTY, parsed.items), parsed.error)
  }

  class OptionParseContext {
    var globals: seq<Opt>
    var outputs: seq<Group>
    var inputs: seq<Group>
    var curOpts: seq<Opt>
    var avOptions: seq<(string, string)>

    function Abstract(): Context
      reads this
    {
      Context(globals, outputs, inputs, curOpts, avOptions)
    }

    /** init_parse_context */
    constructor ()
      ensures Abstract() == EMPTY
    {
      globals, outputs, inputs, curOpts, avOptions := [], [], [], [], [];
    }

    /** finish_group */
    method FinishGroup(isInput: bool, name: string)
      modifies this
      ensures Abstract() == Apply(old(Abstract()), if isInput then Input(name) else Output(name))
    {
      var group := Group(name, curOpts, avOptions);
      if isInput {
        inputs := inputs + [group];
      } else {
        outputs := outputs + [group];
      }
      curOpts, avOptions := [], [];
    }

    /** add_opt */
    method AddOpt(def: OptionDef, key: string, val: Option<string>)
      modifies this
      ensures Abstract() == Apply(old(Abstract()), Plain(Opt(def, key, val)))
    {
      if !(def.perFile || def.spec || def.offset) {
        globals := globals + [Opt(def, key, val)];
      } else {
        curOpts := curOpts + [Opt(def, key, val)];
      }
    }

    /** What follows the name of an option in the loop of split_commandline. */
    method SplitOption(
        env: Env, argv: seq<string>, optindex0: nat, key: string)
      returns (error: Option<Error>, optindex: nat)
      requires optindex0 <= |argv|
      modifies this
      ensures optindex >= optindex0
      ensures match ReadOption(env, key, Rest(argv, optindex0))
        case Failed(e) => error == Some(e) && Abstract() == old(Abstract())
        case Read(item, rest) =>
          error == None && rest == Rest(argv, optindex) && Abstract() == Apply(old(Abstract()), item)
    {
      optindex, error := optindex0, None;
      if key == "i" {
        if optindex == |argv| {
          return Some(MissingArgument), optindex;
        }
        FinishGroup(true, argv[optindex]);
        return None, optindex + 1;
      }
      var def := FindOption(env.table, key);
      if def.Some? {
        var val: Option<string> := Some("1");
        if def.value.exit {
          val := if optindex < |argv| then Some(argv[optindex]) else None;
          optindex := optindex + 1;
        } else if def.value.hasArg {
          if optindex == |argv| {
            return Some(MissingArgument), optindex;
          }
          val := Some(argv[optindex]);
          optindex := optindex + 1;
        }
        AddOpt(def.value, key, val);
        return None, optindex;
      }
      if optindex < |argv| && env.known(key) {
        if !env.accepts(key, argv[optindex]) {
          return Some(BadValue), optindex;
        }
        avOptions := avOptions + [(key, argv[optindex])];
        return None, optindex + 1;
      }
      if |key| >= 2 && key[..2] == "no" {
        def := FindOption(env.table, key[2..]);
        if def.Some? && def.value.isBool {
          AddOpt(def.value, key, Some("0"));
          return None, optindex;
        }
      }
      return Some(Unrecognized), optindex;
    }

    /** One turn of the loop of split_commandline. */
    method SplitNext(env: Env, argv: seq<string>, optindex0: nat, dashdash0: int)
      returns (error: Option<Error>, optindex: nat, dashdash: int)
      requires optindex0 < |argv| && dashdash0 <= optindex0
      modifies this
      ensures optindex > optindex0 && dashdash <= optindex
      ensures match ReadItem(env, Rest(argv, optindex0), dashdash0 == optindex0)
        case Failed(e) => error == Some(e) && Abstract() == old(Abstract())
        case Read(item, rest) =>
          && error == None && rest == Rest(argv, optindex) && (dashdash == optindex <==> item.Dashes?)
          && Abstract() == Apply(old(Abstract()), item)
    {
      var opt := argv[optindex0];
      assert Rest(argv, optindex0)[0] == opt && Rest(argv, optindex0)[1..] == Rest(argv, optindex0 + 1);
      error, optindex, dashdash := None, optindex0 + 1, dashdash0;
      if opt == "--" {
        dashdash := optindex;
        return;
      }
      if Bare(opt) || dashdash + 1 == optindex {
        FinishGroup(false, opt);
        return;
      }
      error, optindex := SplitOption(env, argv, optindex, opt[1..]);
    }

    /** split_commandline */
    method SplitCommandline(env: Env, argv: seq<string>) returns (error: Option<Error>)
      requires Abstract() == EMPTY
      modifies this
      ensures (Abstract(), error) == Split(env, argv)
    {
      var optindex, dashdash := 1, -2;
      ghost var items := [];
      ghost var whole := Parse(env, Rest(argv, 1), false);
      assert Behind([], whole) == whole;
      while optindex < |argv|
        invariant optindex >= 1 && dashdash <= optindex
        invariant Abstract() == ApplyAll(EMPTY, items)
        invariant whole == Behind(items, Parse(env, Rest(argv, optindex), dashdash == optindex))
      {
        ghost var step := ReadItem(env, Rest(argv, optindex), dashdash == optindex);
        ParseUnfolds(env, Rest(argv, optindex), dashdash == optindex);
        error, optindex, dashdash := SplitNext(env, argv, optindex, dashdash);
        if error.Some? {
          assert items + [] == items;
          return;
        }
        ApplyBehind(EMPTY, items, step.item);
        BehindOne(items, step.item, Parse(env, step.rest, step.item.Dashes?));
        items := items + [step.item];
      }
      assert items + [] == items;
      return None;
    }
  }

  /** What was read after other items. */
  function Behind(items: seq<Item>, parsed: Parsed): Parsed { Parsed(items + parsed.items, parsed.error) }

  lemma BehindOne(items: seq<Item>, item: Item, parsed: Parsed)
    ensures Behind(items, Behind([item], parsed)) == Behind(items + [item], parsed)
  {
    assert items + ([item] + parsed.items) == items + [item] + parsed.items;
  }

  lemma ParseUnfolds(env: Env, rest: seq<string>, dashed: bool)
    requires rest != []
    ensures match ReadItem(env, rest, dashed)
      case Failed(error) => Parse(env, rest, dashed) == Parsed([], Some(error))
      case Read(item, rest') => Parse(env, rest, dashed) == Behind([item], Parse(env, rest', item.Dashes?))
  {
  }

  lemma ApplyUnfolds(ctx: Context, items: seq<Item>)
    ensures ApplyAll(ctx, []) == ctx
    ensures items != [] ==> ApplyAll(ctx, items) == ApplyAll(Apply(ctx, items[0]), items[1..])
  {
  }

  lemma {:induction false} ApplyBehind(ctx: Context, items: seq<Item>, item: Item)
    ensures ApplyAll(ctx, items + [item]) == Apply(ApplyAll(ctx, items), item)
    decreases |items|
  {
    ApplyUnfolds(ctx, items + [item]);
    ApplyUnfolds(ctx, items);
    if items == [] {
      assert ([] + [item])[1..] == [];
      ApplyUnfolds(Apply(ctx, item), []);
    } else {
      assert (items + [item])[1..] == items[1..] + [item];
      ApplyBehind(Apply(ctx, items[0]), items[1..], item);
    }
  }
}
