/** The report file's command line: how fftools/cmdutils.c quotes arguments, and a reader that gets them back. */
module ArgumentLog {
  import opened Wrappers

  const NEWLINE: Byte := 10
  const SPACE: Byte := 32
  const QUOTE: Byte := 34
  const DOLLAR: Byte := 36
  const BACKSLASH: Byte := 92
  const BACKTICK: Byte := 96
  const LETTER_X: Byte := 120

  // --------------------------------------------------------------------------------------------------- printing

  /** Bytes that need no quoting: from + to colon, from @ to Z, underscore, and small letters. */
  predicate Safe(p: Byte) { 43 <= p <= 58 || 64 <= p <= 90 || p == 95 || 97 <= p <= 122 }

  predicate Special(p: Byte) { p == BACKSLASH || p == QUOTE || p == DOLLAR || p == BACKTICK }

  predicate Unprintable(p: Byte) { p < 32 || p > 126 }

  function HexDigit(d: int): Byte
    requires 0 <= d < 16
  {
    if d < 10 then (48 + d) as Byte else (87 + d) as Byte
  }

  function Escape(p: Byte): seq<Byte> {
    if Special(p) then [BACKSLASH, p]
    else if Unprintable(p) then [BACKSLASH, LETTER_X, HexDigit(p as int / 16), HexDigit(p as int % 16)]
    else [p]
  }

  function EscapedLoop(a: seq<Byte>): seq<Byte> {
    if a == [] then [] else Escape(a[0]) + EscapedLoop(a[1..])
  }

  /** All bytes of an argument, as they stand inside quotes. */
  function Escaped(a: seq<Byte>): seq<Byte> { EscapedLoop(a) }

  ghost predicate AllSafe(a: seq<Byte>) { forall i :: 0 <= i < |a| ==> Safe(a[i]) }

  /** An argument as the report shows it. */
  ghost function Dumped(a: seq<Byte>): seq<Byte> {
    if AllSafe(a) then a else [QUOTE] + Escaped(a) + [QUOTE]
  }

  ghost function LoggedLoop(argv: seq<seq<Byte>>): seq<Byte> {
    if argv == [] then [] else Dumped(argv[0]) + [if |argv| == 1 then NEWLINE else SPACE] + LoggedLoop(argv[1..])
  }

  /** The command line as the report shows it. */
  ghost function Logged(argv: seq<seq<Byte>>): seq<Byte> { LoggedLoop(argv) }

  class ReportFile {
    var text: seq<Byte>

    constructor ()
      ensures text == []
    {
      text := [];
    }

    method Put(p: Byte)
      modifies this
      ensures text == old(text) + [p]
    {
      text := text + [p];
    }

    method PutAll(a: seq<Byte>)
      modifies this
      ensures text == old(text) + a
    {
      text := text + a;
    }

    /** One byte inside quotes. */
    method PutEscaped(p: Byte)
      modifies this
      ensures text == old(text) + Escape(p)
    {
      if p == BACKSLASH || p == QUOTE || p == DOLLAR || p == BACKTICK {
        PutAll([BACKSLASH, p]);
      } else if p < SPACE || p > 126 {
        PutAll([BACKSLASH, LETTER_X, HexDigit(p as int / 16), HexDigit(p as int % 16)]);
      } else {
        Put(p);
      }
    }

    /** dump_argument */
    method DumpArgument(a: seq<Byte>)
      modifies this
      ensures text == old(text) + Dumped(a)
    {
      var i := 0;
      while i < |a| && Safe(a[i])
        invariant 0 <= i <= |a| && forall j :: 0 <= j < i ==> Safe(a[j])
      {
        i := i + 1;
      }
      if i == |a| {
        PutAll(a);
        return;
      }
      Put(QUOTE);
      i := 0;
      assert a[0..] == a;
      while i < |a|
        invariant 0 <= i <= |a|
        invariant text + Escaped(a[i..]) == old(text) + [QUOTE] + Escaped(a)
      {
        EscapedNext(a, i);
        Rejoin(text, Escape(a[i]), [], Escaped(a[i + 1..]));
        PutEscaped(a[i]);
        i := i + 1;
      }
      Put(QUOTE);
      Rejoin(old(text), [QUOTE], Escaped(a), [QUOTE]);
    }

    /** The loop of parse_loglevel over the command line. */
    method DumpCommandLine(argv: seq<seq<Byte>>)
      modifies this
      ensures text == old(text) + Logged(argv)
    {
      var i := 0;
      assert argv[0..] == argv;
      while i < |argv|
        invariant 0 <= i <= |argv|
        invariant text + Logged(argv[i..]) == old(text) + Logged(argv)
      {
        LoggedNext(argv, i);
        Rejoin(text, Dumped(argv[i]), [if i < |argv| - 1 then SPACE else NEWLINE], Logged(argv[i + 1..]));
        DumpArgument(argv[i]);
        Put(if i < |argv| - 1 then SPACE else NEWLINE);
        i := i + 1;
      }
    }
  }

  lemma Rejoin(x: seq<Byte>, a: seq<Byte>, b: seq<Byte>, c: seq<Byte>)
    ensures x + (a + b + c) == x + a + b + c
    ensures b == [] ==> x + a + b == x + a && a + b + c == a + c
  {
  }

  lemma EscapedNext(a: seq<Byte>, i: nat)
    requires i < |a|
    ensures Escaped(a[i..]) == Escape(a[i]) + Escaped(a[i + 1..])
  {
    assert a[i..][1..] == a[i + 1..];
  }

  lemma LoggedNext(argv: seq<seq<Byte>>, i: nat)
    requires i < |argv|
    ensures Logged(argv[i..]) == Dumped(argv[i]) + [if i < |argv| - 1 then SPACE else NEWLINE] + Logged(argv[i + 1..])
  {
    assert argv[i..][1..] == argv[i + 1..];
  }

  // ---------------------------------------------------------------------------------------------------- reading

  /** The value of a hexadecimal digit. */
  function HexValue(c: Byte): Option<nat> {
    if 48 <= c <= 57 then Some((c - 48) as nat) else if 97 <= c <= 102 then Some((c - 87) as nat) else None
  }

  /** An argument read, and the text behind it. */
  datatype Read = Argument(a: seq<Byte>, rest: seq<Byte>) | Malformed

  function Prepend(p: Byte, r: Read): Read {
    if r.Argument? then Argument([p] + r.a, r.rest) else Malformed
  }

  /** The inside of a quoted argument. */
  function ReadQuoted(s: seq<Byte>): (r: Read)
    ensures r.Argument? ==> |r.rest| < |s|
  {
    if s == [] then Malformed
    else if s[0] == QUOTE then Argument([], s[1..])
    else if s[0] != BACKSLASH then Prepend(s[0], ReadQuoted(s[1..]))
    else if |s| < 2 then Malformed
    else if s[1] != LETTER_X then Prepend(s[1], ReadQuoted(s[2..]))
    else if |s| < 4 || HexValue(s[2]).None? || HexValue(s[3]).None? then Malformed
    else Prepend((16 * HexValue(s[2]).value + HexValue(s[3]).value) as Byte, ReadQuoted(s[4..]))
  }

  function ReadPlain(s: seq<Byte>): (r: Read)
    ensures r.Argument? && |r.rest| <= |s|
  {
    if s == [] || !Safe(s[0]) then Argument([], s) else Prepend(s[0], ReadPlain(s[1..]))
  }

  function ReadArgument(s: seq<Byte>): (r: Read)
    ensures r.Argument? ==> |r.rest| <= |s|
  {
    if s != [] && s[0] == QUOTE then ReadQuoted(s[1..]) else ReadPlain(s)
  }

  /** The arguments of a logged line: separated by single spaces, ended by a newline. */
  function ReadLine(s: seq<Byte>): Option<seq<seq<Byte>>>
    decreases |s|
  {
    var r := ReadArgument(s);
    if r.Malformed? || r.rest == [] then None
    else if r.rest[0] == NEWLINE then if |r.rest| == 1 then Some([r.a]) else None
    else if r.rest[0] != SPACE then None
    else match ReadLine(r.rest[1..])
      case Some(others) => Some([r.a] + others)
      case None => None
  }

  function ReadLog(s: seq<Byte>): Option<seq<seq<Byte>>> {
    if s == [] then Some([]) else ReadLine(s)
  }

  // -------------------------------------------------------------------------------------- what is logged can be read

  lemma HexOfDigit(d: int)
    requires 0 <= d < 16
    ensures HexValue(HexDigit(d)) == Some(d)
  {
  }

  /** A byte escaped is read as that byte. */
  lemma ReadEscape(p: Byte, s: seq<Byte>)
    ensures ReadQuoted(Escape(p) + s) == Prepend(p, ReadQuoted(s))
  {
    if Special(p) {
      assert ([BACKSLASH, p] + s)[2..] == s;
    } else if Unprintable(p) {
      HexOfDigit(p as int / 16);
      HexOfDigit(p as int % 16);
      assert (Escape(p) + s)[4..] == s;
    } else {
      assert ([p] + s)[1..] == s;
    }
  }

  lemma EscapedUnfolds(a: seq<Byte>)
    requires a != []
    ensures Escaped(a) == Escape(a[0]) + Escaped(a[1..])
  {
  }

  lemma {:induction false} ReadEscaped(a: seq<Byte>, s: seq<Byte>)
    ensures ReadQuoted(Escaped(a) + ([QUOTE] + s)) == Argument(a, s)
    decreases |a|
  {
    if a == [] {
      assert [] + ([QUOTE] + s) == [QUOTE] + s && ([QUOTE] + s)[1..] == s;
    } else {
      EscapedUnfolds(a);
      assert Escaped(a) + ([QUOTE] + s) == Escape(a[0]) + (Escaped(a[1..]) + ([QUOTE] + s));
      ReadEscape(a[0], Escaped(a[1..]) + ([QUOTE] + s));
      ReadEscaped(a[1..], s);
      assert [a[0]] + a[1..] == a;
    }
  }

  lemma {:induction false} ReadSafe(a: seq<Byte>, s: seq<Byte>)
    requires AllSafe(a) && (s == [] || !Safe(s[0]))
    ensures ReadPlain(a + s) == Argument(a, s)
    decreases |a|
  {
    if a == [] {
      assert a + s == s;
    } else {
      assert (a + s)[1..] == a[1..] + s && [a[0]] + a[1..] == a;
      ReadSafe(a[1..], s);
    }
  }

  lemma ReadBare(text: seq<Byte>, a: seq<Byte>, s: seq<Byte>)
    requires text != [] && text[0] != QUOTE && ReadPlain(text) == Argument(a, s)
    ensures ReadArgument(text) == Argument(a, s)
  {
  }

  lemma ReadInQuotes(text: seq<Byte>, inside: seq<Byte>, a: seq<Byte>, s: seq<Byte>)
    requires text == [QUOTE] + inside && ReadQuoted(inside) == Argument(a, s)
    ensures ReadArgument(text) == Argument(a, s)
  {
    assert text[1..] == inside;
  }

  lemma ReadDumpedBare(text: seq<Byte>, a: seq<Byte>, s: seq<Byte>)
    requires AllSafe(a) && text == a + s && s != [] && (s[0] == SPACE || s[0] == NEWLINE)
    ensures ReadArgument(text) == Argument(a, s)
  {
    ReadSafe(a, s);
    ReadBare(text, a, s);
  }

  lemma ReadDumpedQuoted(text: seq<Byte>, inside: seq<Byte>, a: seq<Byte>, s: seq<Byte>)
    requires inside == Escaped(a) + ([QUOTE] + s) && text == [QUOTE] + inside
    ensures ReadArgument(text) == Argument(a, s)
  {
    ReadEscaped(a, s);
    ReadInQuotes(text, inside, a, s);
  }

  /** An argument is read back from what is shown of it, whatever stands behind it. */
  lemma ReadDumped(a: seq<Byte>, s: seq<Byte>)
    requires s != [] && (s[0] == SPACE || s[0] == NEWLINE)
    ensures ReadArgument(Dumped(a) + s) == Argument(a, s)
  {
    if AllSafe(a) {
      ReadDumpedBare(Dumped(a) + s, a, s);
    } else {
      var inside := Escaped(a) + ([QUOTE] + s);
      assert Dumped(a) + s == [QUOTE] + inside;
      ReadDumpedQuoted(Dumped(a) + s, inside, a, s);
    }
  }

  lemma LoggedUnfolds(argv: seq<seq<Byte>>)
    requires argv != []
    ensures Logged(argv) == Dumped(argv[0]) + ([if |argv| == 1 then NEWLINE else SPACE] + Logged(argv[1..]))
  {
    Rejoin([], Dumped(argv[0]), [if |argv| == 1 then NEWLINE else SPACE], Logged(argv[1..]));
  }

  lemma {:induction false} ReadLogged(argv: seq<seq<Byte>>)
    requires argv != []
    ensures ReadLine(Logged(argv)) == Some(argv) && Logged(argv) != []
    decreases |argv|
  {
    LoggedUnfolds(argv);
    var rest := [if |argv| == 1 then NEWLINE else SPACE] + Logged(argv[1..]);
    ReadDumped(argv[0], rest);
    if |argv| == 1 {
      assert argv == [argv[0]];
    } else {
      assert rest[1..] == Logged(argv[1..]);
      ReadLogged(argv[1..]);
      assert argv == [argv[0]] + argv[1..];
    }
  }

  /** The logged command line gives back exactly the arguments: empty ones, quotes, backslashes and all other bytes. */
  lemma LogIsFaithful(argv: seq<seq<Byte>>)
    ensures ReadLog(Logged(argv)) == Some(argv)
  {
    if argv != [] {
      ReadLogged(argv);
    }
  }

  /** Different command lines are logged differently. */
  lemma LogsDiffer(argv: seq<seq<Byte>>, other: seq<seq<Byte>>)
    requires Logged(argv) == Logged(other)
    ensures argv == other
  {
    LogIsFaithful(argv);
    LogIsFaithful(other);
  }

  ghost predicate Printable(s: seq<Byte>) { forall i :: 0 <= i < |s| ==> 32 <= s[i] <= 126 }

  lemma {:induction false} EscapedIsPrintable(a: seq<Byte>)
    ensures Printable(Escaped(a))
    decreases |a|
  {
    if a != [] {
      EscapedUnfolds(a);
      EscapedIsPrintable(a[1..]);
    }
  }

  lemma DumpedIsPrintable(a: seq<Byte>)
    ensures Printable(Dumped(a))
  {
    if !AllSafe(a) {
      EscapedIsPrintable(a);
    }
  }

  ghost predicate OneLine(log: seq<Byte>) {
    log != [] && log[|log| - 1] == NEWLINE && forall i :: 0 <= i < |log| - 1 ==> 32 <= log[i] <= 126
  }

  lemma OneLineEnds(a: seq<Byte>)
    requires Printable(a)
    ensures OneLine(a + ([NEWLINE] + []))
  {
  }

  lemma OneLineGoesOn(a: seq<Byte>, log: seq<Byte>)
    requires Printable(a) && OneLine(log)
    ensures OneLine(a + ([SPACE] + log))
  {
  }

  /** The report gets one line of printable ASCII. */
  lemma {:induction false} LogIsOneLine(argv: seq<seq<Byte>>)
    requires argv != []
    ensures OneLine(Logged(argv))
    decreases |argv|
  {
    LoggedUnfolds(argv);
    DumpedIsPrintable(argv[0]);
    if |argv| == 1 {
      OneLineEnds(Dumped(argv[0]));
    } else {
      LogIsOneLine(argv[1..]);
      OneLineGoesOn(Dumped(argv[0]), Logged(argv[1..]));
    }
  }

  /** Text in which a quote, a dollar or a backtick only stands behind a backslash that escapes it. */
  ghost predicate Guarded(s: seq<Byte>) {
    if s == [] then true
    else if s[0] == BACKSLASH then |s| >= 2 && Guarded(s[2..])
    else s[0] !in {QUOTE, DOLLAR, BACKTICK} && Guarded(s[1..])
  }

  lemma {:induction false} GuardedJoins(a: seq<Byte>, b: seq<Byte>)
    requires Guarded(a) && Guarded(b)
    ensures Guarded(a + b)
    decreases |a|
  {
    if a == [] {
      assert a + b == b;
    } else if a[0] == BACKSLASH {
      assert (a + b)[2..] == a[2..] + b;
      GuardedJoins(a[2..], b);
    } else {
      assert (a + b)[1..] == a[1..] + b;
      GuardedJoins(a[1..], b);
    }
  }

  lemma PlainIsGuarded(p: Byte, s: seq<Byte>)
    requires p !in {BACKSLASH, QUOTE, DOLLAR, BACKTICK} && Guarded(s)
    ensures Guarded([p] + s)
  {
    assert ([p] + s)[1..] == s;
  }

  lemma EscapeIsGuarded(p: Byte)
    ensures Guarded(Escape(p))
  {
    if Special(p) {
      assert Escape(p)[2..] == [];
    } else if Unprintable(p) {
      var high, low := HexDigit(p as int / 16), HexDigit(p as int % 16);
      PlainIsGuarded(low, []);
      PlainIsGuarded(high, [low]);
      assert [low] + [] == [low] && Escape(p)[2..] == [high] + [low];
    } else {
      PlainIsGuarded(p, []);
      assert [p] + [] == [p];
    }
  }

  /** Inside the quotes nothing is left that a shell would expand, or take for the end of the quotes. */
  lemma {:induction false} EscapedIsGuarded(a: seq<Byte>)
    ensures Guarded(Escaped(a))
    decreases |a|
  {
    if a != [] {
      EscapedUnfolds(a);
      EscapeIsGuarded(a[0]);
      EscapedIsGuarded(a[1..]);
      GuardedJoins(Escape(a[0]), Escaped(a[1..]));
    }
  }

  /** Printable bytes stay as they are, but for the backslash before those that a shell knows inside quotes. */
  lemma PrintableEscape(p: Byte)
    requires SPACE <= p <= 126
    ensures Escape(p) == if p in {BACKSLASH, QUOTE, DOLLAR, BACKTICK} then [BACKSLASH, p] else [p]
  {
  }

  /** Shown without quotes are arguments of letters, digits and + , - . / : @ _ alone. */
  lemma SafeIff(p: Byte)
    ensures var c := p as int as char;
      Safe(p) <==>
        || 'a' <= c <= 'z' || 'A' <= c <= 'Z' || '0' <= c <= '9'
        || c in {'+', ',', '-', '.', '/', ':', '@', '_'}
  {
    var c := p as int as char;
    if Safe(p) && p < 48 {
      assert c in {'+', ',', '-', '.', '/'};
    }
  }

  /** So an unquoted argument has no blank, no quoting character and nothing else that a shell reads specially. */
  lemma SafeBytes(p: Byte)
    requires Safe(p)
    ensures p !in {SPACE, QUOTE, DOLLAR, BACKSLASH, BACKTICK} && (p as int as char) !in "!#&'()*;<>?[]^{|}~"
  {
    SafeIff(p);
  }
}
