/**
 Loading an append-only file that may end anywhere: commands are read with line
 and block reads, run as they are complete, and queued while a transaction is
 open. Truncated loading is on.
 */
module AofLoader {

  import opened AofFormat
  import opened Sds

  /** One less than the size of the line buffer. */
  const LINE_MAX := 1023

  // ---------------------------------------------------------------------------
  // Running commands
  // ---------------------------------------------------------------------------

  datatype Kind = Multi | Exec | Other | Unknown

  /** The fake client: commands run so far, and those queued since an open MULTI. */
  datatype Session = Session(executed: seq<Argv>, inMulti: bool, queue: seq<Argv>)

  function Run(kind: Argv -> Kind, s: Session, argv: Argv): Session {
    if s.inMulti && kind(argv) != Exec then s.(queue := s.queue + [argv])
    else
      match kind(argv)
      case Multi => Session(s.executed, true, [])
      case Exec => Session(s.executed + s.queue, false, [])
      case _ => s.(executed := s.executed + [argv])
  }

  const START := Session([], false, [])

  function RunAll(kind: Argv -> Kind, s: Session, cmds: seq<Argv>): Session
    decreases |cmds|
  {
    if cmds == [] then s else RunAll(kind, Run(kind, s, cmds[0]), cmds[1..])
  }

  // ---------------------------------------------------------------------------
  // Reading
  // ---------------------------------------------------------------------------

  /** Whether that read ran into the end of the file. */
  predicate RanOut(s: string) {
    var n := LineLength(s, LINE_MAX);
    n == |s| && n < LINE_MAX && (s == "" || s[n - 1] != '\n')
  }

  datatype ArgRead = Arg(value: string, used: nat) | ShortArg | BadArg

  /** A length that came out negative is a huge unsigned one, and the read falls short. */
  function ReadArg(s: string): (r: ArgRead)
    ensures r.Arg? ==> 0 < r.used <= |s|
  {
    var n := LineLength(s, LINE_MAX);
    if n == 0 then ShortArg
    else if s[0] != '$' then BadArg
    else
      var len := Number(s[1..n]);
      if len < 0 || |s| < n + len || |s| < n + len + 2 then ShortArg
      else Arg(s[n..n + len], n + len + 2)
  }

  datatype ArgsRead = Args(argv: seq<string>, used: nat) | ShortArgs | BadArgs

  function ReadArgs(s: string, argc: nat): (r: ArgsRead)
    ensures r.Args? ==> |r.argv| == argc && r.used <= |s|
    decreases argc
  {
    if argc == 0 then Args([], 0)
    else
      match ReadArg(s)
      case ShortArg => ShortArgs
      case BadArg => BadArgs
      case Arg(a, u) =>
        match ReadArgs(s[u..], argc - 1)
        case Args(rest, v) => Args([a] + rest, u + v)
        case other => other
  }

  datatype Status = LoadedOk | Truncated | Failed

  /** How loading ended, what ran, and where the file is cut when it is truncated. */
  datatype Outcome = Outcome(status: Status, session: Session, validUpTo: nat)

  /** Where loading stands: offsets after the last complete command and before the last MULTI. */
  datatype Marks = Marks(offset: nat, validUpTo: nat, beforeMulti: nat)

  /** What the first line of the rest of a file starts. */
  datatype LineRead = End | Note(size: nat) | Start(size: nat, argc: nat) | BadLine(short: bool)

  function ReadLine(s: string): (r: LineRead)
    ensures r.Note? || r.Start? ==> 0 < r.size <= |s|
  {
    var n := LineLength(s, LINE_MAX);
    if n == 0 then End
    else if s[0] == '#' then Note(n)
    else if s[0] != '*' then BadLine(false)
    else if n == 1 || s[1] == '\0' then BadLine(RanOut(s))
    else if Number(s[1..n]) < 1 then BadLine(false)
    else Start(n, Number(s[1..n]))
  }

  /** One round of loading: it is over, or it goes on after the characters used. */
  datatype Round = Over(outcome: Outcome) | More(used: nat, m: Marks, st: Session)

  function LoadRound(kind: Argv -> Kind, s: string, m: Marks, st: Session): (r: Round)
    ensures r.More? ==> 0 < r.used <= |s|
  {
    match ReadLine(s)
    case End =>
      Over(if st.inMulti then Outcome(Truncated, st, m.beforeMulti) else Outcome(LoadedOk, st, m.validUpTo))
    case Note(n) => More(n, m.(offset := m.offset + n), st)
    case BadLine(short) => Over(Outcome(if short then Truncated else Failed, st, m.validUpTo))
    case Start(n, argc) => RunRead(kind, n, ReadArgs(s[n..], argc), m, st)
  }

  /** Looks up and runs the command that was read after a header of n characters. */
  function RunRead(kind: Argv -> Kind, n: nat, args: ArgsRead, m: Marks, st: Session): Round {
    match args
    case ShortArgs => Over(Outcome(Truncated, st, m.validUpTo))
    case BadArgs => Over(Outcome(Failed, st, m.validUpTo))
    case Args(argv, used) =>
      if kind(argv) == Unknown then Over(Outcome(Failed, st, m.validUpTo))
      else More(n + used, After(kind, m, n + used, argv), Run(kind, st, argv))
  }

  function Load(kind: Argv -> Kind, s: string, m: Marks, st: Session): Outcome
    decreases |s|
  {
    match LoadRound(kind, s, m, st)
    case Over(o) => o
    case More(used, m', st') => Load(kind, s[used..], m', st')
  }

  /** The marks after a command of the given size. */
  function After(kind: Argv -> Kind, m: Marks, size: nat, argv: Argv): Marks {
    Marks(m.offset + size, m.offset + size, if kind(argv) == Multi then m.validUpTo else m.beforeMulti)
  }

  // ---------------------------------------------------------------------------
  // Headers
  // ---------------------------------------------------------------------------

  lemma {:induction false} LineOf(line: string, rest: string, limit: nat)
    requires line != "" && line[|line| - 1] == '\n' && |line| <= limit
    requires forall i :: 0 <= i < |line| - 1 ==> line[i] != '\n'
    ensures LineLength(line + rest, limit) == |line|
  {
    if |line| > 1 {
      assert (line + rest)[1..] == line[1..] + rest;
      LineOf(line[1..], rest, limit - 1);
    }
  }

  lemma {:induction false} LineToEnd(s: string, limit: nat)
    requires |s| <= limit
    requires forall i :: 0 <= i < |s| ==> s[i] != '\n'
    ensures LineLength(s, limit) == |s|
  {
    if s != "" {
      LineToEnd(s[1..], limit - 1);
    }
  }

  lemma {:induction false} CommandLine(n: nat, rest: string)
    requires 1 <= n <= MAX_LONG
    ensures ReadLine(Header('*', n) + rest) == Start(|Header('*', n)|, n)
  {
    HeaderLine('*', n, rest);
  }

  lemma {:induction false} HeaderLine(mark: char, n: nat, rest: string)
    requires n <= MAX_LONG && mark != '\n'
    ensures var h := Header(mark, n);
      && LineLength(h + rest, LINE_MAX) == |h| > 1
      && Number((h + rest)[1..|h|]) == n
      && (h + rest)[..|h|] == h && (h + rest)[|h|..] == rest && (h + rest)[0] == mark && (h + rest)[1] != '\0'
  {
    var h := Header(mark, n);
    DecimalFitsLine(n);
    LineOf(h, rest, LINE_MAX);
    assert (h + rest)[1..|h|] == Decimal(n) + CRLF;
    NumberOfDecimal(n, CRLF);
  }

  /** A header cut short, but not to nothing, is read as one line that holds part of the number. */
  lemma HeaderPart(mark: char, d: string, c: nat)
    requires 1 < c < |[mark] + d + CRLF|
    ensures ([mark] + d + CRLF)[..c][1..c] == if c - 1 <= |d| then d[..c - 1] + "" else d[..|d|] + "\r"
  {
    var h := [mark] + d + CRLF;
    assert h[..c][1..c] == h[1..c];
    if c - 1 <= |d| {
      assert h[1..c] == d[..c - 1];
    } else {
      assert h[1..c] == d + "\r" && d[..|d|] == d;
    }
  }

  lemma {:induction false} CutHeader(mark: char, n: nat, c: nat)
    requires n <= MAX_LONG && mark != '\n'
    requires 1 < c < |Header(mark, n)|
    ensures var s := Header(mark, n)[..c];
      && LineLength(s, LINE_MAX) == c
      && s[0] == mark && s[1] != '\0'
      && Number(s[1..c]) >= 0
      && (n > 0 ==> Number(s[1..c]) >= 1)
  {
    var h := Header(mark, n);
    var s := h[..c];
    var d := Decimal(n);
    DecimalFitsLine(n);
    LineToEnd(s, LINE_MAX);
    var k := if c - 1 <= |d| then c - 1 else |d|;
    var tail := if c - 1 <= |d| then "" else "\r";
    HeaderPart(mark, d, c);
    DigitCountOf(d[..k], tail);
    if n > 0 {
      NumberOfCutDecimal(n, k, tail);
    }
  }

  // ---------------------------------------------------------------------------
  // Arguments
  // ---------------------------------------------------------------------------

  lemma {:induction false} WholeArg(a: string, rest: string)
    requires |a| <= MAX_LONG
    ensures ReadArg(Bulk(a) + rest) == Arg(a, |Bulk(a)|)
  {
    var h := Header('$', |a|);
    var s := Bulk(a) + rest;
    assert s == h + (a + CRLF + rest);
    HeaderLine('$', |a|, a + CRLF + rest);
    assert s[|h|..|h| + |a|] == a;
  }

  lemma {:induction false} CutArg(a: string, c: nat)
    requires |a| <= MAX_LONG && c < |Bulk(a)|
    ensures ReadArg(Bulk(a)[..c]) == ShortArg
  {
    var h := Header('$', |a|);
    var s := Bulk(a)[..c];
    if c >= |h| {
      assert s == h + s[|h|..];
      HeaderLine('$', |a|, s[|h|..]);
    } else {
      assert s == h[..c];
      if c > 1 {
        CutHeader('$', |a|, c);
      } else if c == 1 {
        assert s == "$" && s[1..] == "";
        LineToEnd(s, LINE_MAX);
      }
    }
  }

  /** What follows the first argument. */
  lemma {:induction false} BulksSplit(args: seq<string>)
    requires args != []
    ensures Bulks(args) == Bulk(args[0]) + Bulks(args[1..])
  {
  }

  lemma {:induction false} WholeArgs(args: seq<string>, rest: string)
    requires forall i :: 0 <= i < |args| ==> |args[i]| <= MAX_LONG
    ensures ReadArgs(Bulks(args) + rest, |args|) == Args(args, |Bulks(args)|)
    decreases |args|
  {
    if args != [] {
      BulksSplit(args);
      WholeArgs(args[1..], rest);
      WholeArg(args[0], Bulks(args[1..]) + rest);
      ArgThenArgs(Bulk(args[0]), Bulks(args[1..]), rest, args);
    }
  }

  /** One step of reading arguments. */
  lemma ReadArgsOne(s: string, argc: nat, r: ArgRead, more: ArgsRead)
    requires argc > 0 && r == ReadArg(s) && (r.Arg? ==> more == ReadArgs(s[r.used..], argc - 1))
    ensures ReadArgs(s, argc) == AddArg(r, more)
  {
  }

  /** A first argument and what was read behind it. */
  function AddArg(r: ArgRead, more: ArgsRead): ArgsRead {
    match r
    case ShortArg => ShortArgs
    case BadArg => BadArgs
    case Arg(a, u) => if more.Args? then Args([a] + more.argv, u + more.used) else more
  }

  lemma {:induction false} ArgThenArgs(b: string, more: string, rest: string, args: seq<string>)
    requires args != []
    requires ReadArg(b + (more + rest)) == Arg(args[0], |b|)
    requires ReadArgs(more + rest, |args| - 1) == Args(args[1..], |more|)
    ensures ReadArgs((b + more) + rest, |args|) == Args(args, |b + more|)
  {
    hide ReadArg, ReadArgs;
    BehindFirst(b, more, rest);
    ReadArgsOne((b + more) + rest, |args|, Arg(args[0], |b|), Args(args[1..], |more|));
    assert [args[0]] + args[1..] == args;
  }

  lemma BehindFirst(b: string, more: string, rest: string)
    ensures (b + more) + rest == b + (more + rest)
    ensures ((b + more) + rest)[|b|..] == more + rest
  {
  }

  lemma {:induction false} CutArgs(args: seq<string>, c: nat)
    requires forall i :: 0 <= i < |args| ==> |args[i]| <= MAX_LONG
    requires c < |Bulks(args)|
    ensures ReadArgs(Bulks(args)[..c], |args|) == ShortArgs
    decreases |args|
  {
    hide Bulk, ReadArgs, ReadArg;
    BulksSplit(args);
    if c < |Bulk(args[0])| {
      CutArg(args[0], c);
      FirstShort(Bulk(args[0]), Bulks(args[1..]), c, |args|);
    } else {
      CutArgs(args[1..], c - |Bulk(args[0])|);
      WholeThenShort(args[0], Bulks(args[1..]), c, args);
    }
  }

  lemma {:induction false} WholeThenShort(a: string, more: string, c: nat, args: seq<string>)
    requires args != [] && a == args[0] && |a| <= MAX_LONG && |Bulk(a)| <= c < |Bulk(a) + more|
    requires ReadArgs(more[..c - |Bulk(a)|], |args| - 1) == ShortArgs
    ensures ReadArgs((Bulk(a) + more)[..c], |args|) == ShortArgs
  {
    WholeArg(a, more[..c - |Bulk(a)|]);
    ArgThenShort(Bulk(a), more, c, args);
  }

  lemma {:induction false} FirstShort(b: string, more: string, c: nat, argc: nat)
    requires argc > 0 && c < |b| && ReadArg(b[..c]) == ShortArg
    ensures ReadArgs((b + more)[..c], argc) == ShortArgs
  {
    assert (b + more)[..c] == b[..c];
  }

  lemma {:induction false} ArgThenShort(b: string, more: string, c: nat, args: seq<string>)
    requires args != [] && |b| <= c < |b + more|
    requires ReadArg(b + more[..c - |b|]) == Arg(args[0], |b|)
    requires ReadArgs(more[..c - |b|], |args| - 1) == ShortArgs
    ensures ReadArgs((b + more)[..c], |args|) == ShortArgs
  {
    var s := (b + more)[..c];
    assert s == b + more[..c - |b|] && s[|b|..] == more[..c - |b|];
  }

  lemma {:induction false} NoArgsLeft(argc: nat)
    requires argc > 0
    ensures ReadArgs("", argc) == ShortArgs
  {
  }

  // ---------------------------------------------------------------------------
  // Commands
  // ---------------------------------------------------------------------------

  /** A complete command is run, and loading goes on behind it. */
  lemma {:induction false} WholeCommand(kind: Argv -> Kind, argv: Argv, rest: string, m: Marks, st: Session)
    requires WellSized(argv) && kind(argv) != Unknown
    ensures Load(kind, EncodeCommand(argv) + rest, m, st)
         == Load(kind, rest, After(kind, m, |EncodeCommand(argv)|, argv), Run(kind, st, argv))
  {
    var h, b := Header('*', |argv|), Bulks(argv);
    CommandLine(|argv|, b + rest);
    WholeArgs(argv, rest);
    RoundParts(kind, h, b, rest, argv, m, st);
    var e := EncodeCommand(argv);
    LoadBehind(kind, e, rest, m, st, After(kind, m, |e|, argv), Run(kind, st, argv));
  }

  lemma {:induction false} RoundParts(
    kind: Argv -> Kind, h: string, b: string, rest: string, argv: Argv, m: Marks, st: Session)
    requires kind(argv) != Unknown
    requires ReadLine(h + (b + rest)) == Start(|h|, |argv|)
    requires ReadArgs(b + rest, |argv|) == Args(argv, |b|)
    ensures LoadRound(kind, (h + b) + rest, m, st)
         == More(|h + b|, After(kind, m, |h + b|, argv), Run(kind, st, argv))
  {
    Pieces(h, b, rest);
    RoundOne(kind, (h + b) + rest, |h|, |b|, argv, m, st);
  }

  lemma {:induction false} LoadBehind(
    kind: Argv -> Kind, e: string, rest: string, m: Marks, st: Session, m': Marks, st': Session)
    requires LoadRound(kind, e + rest, m, st) == More(|e|, m', st')
    ensures Load(kind, e + rest, m, st) == Load(kind, rest, m', st')
  {
    assert (e + rest)[|e|..] == rest;
  }

  lemma Pieces(h: string, b: string, rest: string)
    ensures var s := (h + b) + rest;
      s == h + (b + rest) && s[|h|..] == b + rest && s[|h| + |b|..] == rest
  {
  }

  lemma {:induction false} RoundOne(kind: Argv -> Kind, s: string, n: nat, used: nat, argv: Argv, m: Marks, st: Session)
    requires kind(argv) != Unknown
    requires ReadLine(s) == Start(n, |argv|)
    requires ReadArgs(s[n..], |argv|) == Args(argv, used)
    ensures LoadRound(kind, s, m, st) == More(n + used, After(kind, m, n + used, argv), Run(kind, st, argv))
  {
  }

  /** A command cut anywhere stops loading as a short read, never as another command or a format error. */
  lemma {:induction false} CutCommand(kind: Argv -> Kind, argv: Argv, c: nat, m: Marks, st: Session)
    requires WellSized(argv) && 0 < c < |EncodeCommand(argv)|
    ensures Load(kind, EncodeCommand(argv)[..c], m, st) == Outcome(Truncated, st, m.validUpTo)
  {
    hide Load, ReadLine, ReadArgs, Header, Bulks;
    var h, b := Header('*', |argv|), Bulks(argv);
    if c >= |h| {
      CutBehind(h, b, c);
      CutInArgs(kind, argv, c - |h|, m, st);
    } else {
      assert (h + b)[..c] == h[..c];
      CutInHeader(kind, argv, c, m, st);
    }
  }

  lemma ShortRound(kind: Argv -> Kind, s: string, n: nat, argc: nat, m: Marks, st: Session)
    requires ReadLine(s) == Start(n, argc) && ReadArgs(s[n..], argc) == ShortArgs
    ensures Load(kind, s, m, st) == Outcome(Truncated, st, m.validUpTo)
  {
    hide ReadLine, ReadArgs;
  }

  lemma {:induction false} CutInArgs(kind: Argv -> Kind, argv: Argv, c: nat, m: Marks, st: Session)
    requires WellSized(argv) && c < |Bulks(argv)|
    ensures Load(kind, Header('*', |argv|) + Bulks(argv)[..c], m, st) == Outcome(Truncated, st, m.validUpTo)
  {
    hide Load, ReadArgs, Header, Bulks;
    var h, part := Header('*', |argv|), Bulks(argv)[..c];
    var s := h + part;
    HeaderLine('*', |argv|, part);
    assert s[|h|..] == part;
    CutArgs(argv, c);
    ShortRound(kind, s, |h|, |argv|, m, st);
  }

  lemma {:induction false} CutInHeader(kind: Argv -> Kind, argv: Argv, c: nat, m: Marks, st: Session)
    requires WellSized(argv) && 0 < c < |Header('*', |argv|)|
    ensures Load(kind, Header('*', |argv|)[..c], m, st) == Outcome(Truncated, st, m.validUpTo)
  {
    hide ReadArgs;
    var s := Header('*', |argv|)[..c];
    if c == 1 {
      assert s == "*";
      LineToEnd(s, LINE_MAX);
    } else {
      CutHeader('*', |argv|, c);
      assert s[c..] == "";
      NoArgsLeft(Number(s[1..c]));
      ShortRound(kind, s, c, Number(s[1..c]), m, st);
    }
  }

  // ---------------------------------------------------------------------------
  // Files cut anywhere
  // ---------------------------------------------------------------------------

  ghost predicate Loadable(kind: Argv -> Kind, cmds: seq<Argv>) {
    forall i :: 0 <= i < |cmds| ==> WellSized(cmds[i]) && kind(cmds[i]) != Unknown
  }

  /** How many commands lie wholly before the cut. */
  function Complete(cmds: seq<Argv>, cut: nat): (k: nat)
    ensures k <= |cmds|
  {
    if cmds == [] || cut < |EncodeCommand(cmds[0])| then 0
    else 1 + Complete(cmds[1..], cut - |EncodeCommand(cmds[0])|)
  }

  lemma {:induction false} EncodeSplit(cmds: seq<Argv>)
    requires cmds != []
    ensures Encode(cmds) == EncodeCommand(cmds[0]) + Encode(cmds[1..])
  {
  }

  lemma {:induction false} PrefixMore(cmds: seq<Argv>, k: nat)
    requires cmds != [] && k < |cmds|
    ensures |Encode(cmds[..k + 1])| == |EncodeCommand(cmds[0])| + |Encode(cmds[1..][..k])|
  {
    EncodeSplit(cmds[..k + 1]);
    assert cmds[..k + 1][1..] == cmds[1..][..k];
  }

  lemma {:induction false} CompleteIs(cmds: seq<Argv>, cut: nat)
    requires cut <= |Encode(cmds)|
    ensures var k := Complete(cmds, cut);
      && |Encode(cmds[..k])| <= cut
      && (k < |cmds| ==> cut < |Encode(cmds[..k + 1])|)
      && (k == |cmds| ==> cut == |Encode(cmds)|)
    decreases |cmds|, 1
  {
    if cmds == [] {
    } else if cut < |EncodeCommand(cmds[0])| {
      PrefixMore(cmds, 0);
      assert cmds[1..][..0] == [] && cmds[..0] == [];
    } else {
      CompleteMore(cmds, cut);
    }
  }

  lemma {:induction false} CompleteMore(cmds: seq<Argv>, cut: nat)
    requires cmds != [] && |EncodeCommand(cmds[0])| <= cut <= |Encode(cmds)|
    ensures var k := Complete(cmds, cut);
      && |Encode(cmds[..k])| <= cut
      && (k < |cmds| ==> cut < |Encode(cmds[..k + 1])|)
      && (k == |cmds| ==> cut == |Encode(cmds)|)
    decreases |cmds|, 0
  {
    hide Encode, EncodeCommand;
    var n := |EncodeCommand(cmds[0])|;
    EncodeSplit(cmds);
    var k := Complete(cmds[1..], cut - n);
    CompleteIs(cmds[1..], cut - n);
    PrefixMore(cmds, k);
    if k + 1 < |cmds| {
      PrefixMore(cmds, k + 1);
    }
  }

  ghost function MarksAfter(kind: Argv -> Kind, m: Marks, cmds: seq<Argv>): Marks
    decreases |cmds|
  {
    if cmds == [] then m
    else MarksAfter(kind, After(kind, m, |EncodeCommand(cmds[0])|, cmds[0]), cmds[1..])
  }

  /** How loading ends once the complete commands have been run. */
  ghost function Ending(atBoundary: bool, m: Marks, st: Session): Outcome {
    if atBoundary && !st.inMulti then Outcome(LoadedOk, st, m.validUpTo)
    else if atBoundary then Outcome(Truncated, st, m.beforeMulti)
    else Outcome(Truncated, st, m.validUpTo)
  }

  lemma {:induction false} LoadPrefix(kind: Argv -> Kind, cmds: seq<Argv>, cut: nat, m: Marks, st: Session)
    requires Loadable(kind, cmds) && cut <= |Encode(cmds)|
    ensures var done := cmds[..Complete(cmds, cut)];
      Load(kind, Encode(cmds)[..cut], m, st)
        == Ending(cut == |Encode(done)|, MarksAfter(kind, m, done), RunAll(kind, st, done))
    decreases |cmds|
  {
    if cmds != [] {
      var e, more := EncodeCommand(cmds[0]), Encode(cmds[1..]);
      EncodeSplit(cmds);
      if cut < |e| {
        if cut > 0 {
          assert (e + more)[..cut] == e[..cut];
          CutCommand(kind, cmds[0], cut, m, st);
        }
      } else {
        LoadFirst(kind, cmds, cut, m, st);
      }
    }
  }

  lemma CutBehind(e: string, more: string, cut: nat)
    requires |e| <= cut <= |e + more|
    ensures (e + more)[..cut] == e + more[..cut - |e|]
  {
  }

  /** The first command runs, and the rest of the file is cut where it was. */
  lemma {:induction false} FirstRuns(kind: Argv -> Kind, cmds: seq<Argv>, cut: nat, m: Marks, st: Session)
    requires Loadable(kind, cmds) && cmds != [] && |EncodeCommand(cmds[0])| <= cut <= |Encode(cmds)|
    ensures var n := |EncodeCommand(cmds[0])|;
      && cut - n <= |Encode(cmds[1..])|
      && Load(kind, Encode(cmds)[..cut], m, st)
        == Load(kind, Encode(cmds[1..])[..cut - n], After(kind, m, n, cmds[0]), Run(kind, st, cmds[0]))
  {
    var e, more := EncodeCommand(cmds[0]), Encode(cmds[1..]);
    EncodeSplit(cmds);
    CutBehind(e, more, cut);
    WholeCommand(kind, cmds[0], more[..cut - |e|], m, st);
  }

  /** How loading should end, seen from behind the first command. */
  lemma {:induction false} FirstCounts(kind: Argv -> Kind, cmds: seq<Argv>, cut: nat, m: Marks, st: Session)
    requires cmds != [] && |EncodeCommand(cmds[0])| <= cut
    ensures var n := |EncodeCommand(cmds[0])|;
      var done, rest := cmds[..Complete(cmds, cut)], cmds[1..][..Complete(cmds[1..], cut - n)];
      && (cut == |Encode(done)| <==> cut - n == |Encode(rest)|)
      && MarksAfter(kind, m, done) == MarksAfter(kind, After(kind, m, n, cmds[0]), rest)
      && RunAll(kind, st, done) == RunAll(kind, Run(kind, st, cmds[0]), rest)
  {
    var k := Complete(cmds[1..], cut - |EncodeCommand(cmds[0])|);
    assert cmds[..k + 1][1..] == cmds[1..][..k];
    EncodeSplit(cmds[..k + 1]);
  }

  lemma {:induction false} LoadFirst(kind: Argv -> Kind, cmds: seq<Argv>, cut: nat, m: Marks, st: Session)
    requires Loadable(kind, cmds) && cmds != [] && |EncodeCommand(cmds[0])| <= cut <= |Encode(cmds)|
    ensures var done := cmds[..Complete(cmds, cut)];
      Load(kind, Encode(cmds)[..cut], m, st)
        == Ending(cut == |Encode(done)|, MarksAfter(kind, m, done), RunAll(kind, st, done))
    decreases |cmds|, 0
  {
    hide Load, Encode, EncodeCommand, MarksAfter, RunAll, Complete, Ending, After, Run;
    var n := |EncodeCommand(cmds[0])|;
    FirstRuns(kind, cmds, cut, m, st);
    LoadPrefix(kind, cmds[1..], cut - n, After(kind, m, n, cmds[0]), Run(kind, st, cmds[0]));
    FirstCounts(kind, cmds, cut, m, st);
  }

  /** The position of the last MULTI, or 0. */
  function LastMulti(kind: Argv -> Kind, cmds: seq<Argv>): (i: nat)
    ensures i <= |cmds|
  {
    if cmds == [] then 0
    else if kind(cmds[|cmds| - 1]) == Multi then |cmds| - 1
    else LastMulti(kind, cmds[..|cmds| - 1])
  }

  const FILE_START := Marks(0, 0, 0)

  lemma {:induction false} MarksMore(kind: Argv -> Kind, m: Marks, a: seq<Argv>, x: Argv)
    ensures MarksAfter(kind, m, a + [x]) == After(kind, MarksAfter(kind, m, a), |EncodeCommand(x)|, x)
    decreases |a|
  {
    if a == [] {
      assert a + [x] == [x] && [x][1..] == [];
    } else {
      assert (a + [x])[1..] == a[1..] + [x];
      MarksMore(kind, After(kind, m, |EncodeCommand(a[0])|, a[0]), a[1..], x);
    }
  }

  lemma {:induction false} MarksAre(kind: Argv -> Kind, cmds: seq<Argv>)
    ensures MarksAfter(kind, FILE_START, cmds)
         == Marks(|Encode(cmds)|, |Encode(cmds)|, |Encode(cmds[..LastMulti(kind, cmds)])|)
  {
    hide EncodeCommand;
    if cmds != [] {
      var n := |cmds| - 1;
      var init, last := cmds[..n], cmds[n];
      MarksAre(kind, init);
      MarksMore(kind, FILE_START, init, last);
      assert init + [last] == cmds && cmds[..n + 1] == cmds;
      FlatMore(EncodeCommand, cmds, n);
      assert kind(last) != Multi ==> cmds[..LastMulti(kind, cmds)] == init[..LastMulti(kind, init)];
    }
  }

  /**
   Loading a file cut anywhere runs exactly the commands wholly before the cut. It is
   never taken for a format error, and it is a clean load exactly when the cut falls
   between commands and no transaction is open.
   */
  lemma {:induction false} LoadCut(kind: Argv -> Kind, cmds: seq<Argv>, cut: nat)
    requires Loadable(kind, cmds) && cut <= |Encode(cmds)|
    ensures var done := cmds[..Complete(cmds, cut)];
      var o := Load(kind, Encode(cmds)[..cut], FILE_START, START);
      && o.session == RunAll(kind, START, done)
      && o.status != Failed
      && (o.status == LoadedOk <==> cut == |Encode(done)| && !o.session.inMulti)
      && o.validUpTo == if cut == |Encode(done)| && o.session.inMulti
                        then |Encode(done[..LastMulti(kind, done)])| else |Encode(done)|
  {
    LoadPrefix(kind, cmds, cut, FILE_START, START);
    MarksAre(kind, cmds[..Complete(cmds, cut)]);
  }

  // ---------------------------------------------------------------------------
  // Transactions
  // ---------------------------------------------------------------------------

  lemma {:induction false} RunAllConcat(kind: Argv -> Kind, s: Session, a: seq<Argv>, b: seq<Argv>)
    ensures RunAll(kind, s, a + b) == RunAll(kind, RunAll(kind, s, a), b)
    decreases |a|
  {
    if a == [] {
      assert a + b == b;
    } else {
      assert (a + b)[1..] == a[1..] + b;
      RunAllConcat(kind, Run(kind, s, a[0]), a[1..], b);
    }
  }

  lemma {:induction false} Queued(kind: Argv -> Kind, s: Session, q: seq<Argv>)
    requires s.inMulti && forall i :: 0 <= i < |q| ==> kind(q[i]) != Exec
    ensures RunAll(kind, s, q) == s.(queue := s.queue + q)
    decreases |q|
  {
    if q == [] {
      assert s.queue + q == s.queue;
    } else {
      Queued(kind, Run(kind, s, q[0]), q[1..]);
      assert s.queue + [q[0]] + q[1..] == s.queue + q;
    }
  }

  /** Outside of transactions commands run one after the other. */
  lemma {:induction false} PlainRuns(kind: Argv -> Kind, s: Session, cmds: seq<Argv>)
    requires !s.inMulti && forall i :: 0 <= i < |cmds| ==> kind(cmds[i]) == Other
    ensures RunAll(kind, s, cmds) == Session(s.executed + cmds, false, s.queue)
    decreases |cmds|
  {
    if cmds == [] {
      assert s.executed + cmds == s.executed;
    } else {
      PlainRuns(kind, Run(kind, s, cmds[0]), cmds[1..]);
      assert s.executed + [cmds[0]] + cmds[1..] == s.executed + cmds;
    }
  }

  /** A transaction that was not closed contributes nothing; a closed one contributes all it queued, in order. */
  lemma {:induction false} Transaction(kind: Argv -> Kind, s: Session, multi: Argv, q: seq<Argv>, exec: Argv)
    requires !s.inMulti && kind(multi) == Multi && kind(exec) == Exec
    requires forall i :: 0 <= i < |q| ==> kind(q[i]) != Exec
    ensures RunAll(kind, s, [multi] + q).executed == s.executed
    ensures RunAll(kind, s, [multi] + q + [exec]) == Session(s.executed + q, false, [])
  {
    assert ([multi] + q)[1..] == q;
    Queued(kind, Run(kind, s, multi), q);
    RunAllConcat(kind, s, [multi] + q, [exec]);
    assert [exec][1..] == [];
  }

  /** No MULTI while a transaction is open. */
  predicate Unnested(kind: Argv -> Kind, s: Session, cmds: seq<Argv>)
    decreases |cmds|
  {
    cmds != [] ==> (kind(cmds[0]) == Multi ==> !s.inMulti) && Unnested(kind, Run(kind, s, cmds[0]), cmds[1..])
  }

  lemma {:induction false} UnnestedConcat(kind: Argv -> Kind, s: Session, a: seq<Argv>, b: seq<Argv>)
    ensures Unnested(kind, s, a + b) <==> Unnested(kind, s, a) && Unnested(kind, RunAll(kind, s, a), b)
    decreases |a|
  {
    if a == [] {
      assert a + b == b;
    } else {
      assert (a + b)[1..] == a[1..] + b;
      UnnestedConcat(kind, Run(kind, s, a[0]), a[1..], b);
    }
  }

  lemma {:induction false} NoMulti(kind: Argv -> Kind, s: Session, cmds: seq<Argv>)
    requires forall i :: 0 <= i < |cmds| ==> kind(cmds[i]) != Multi
    ensures Unnested(kind, s, cmds)
    decreases |cmds|
  {
    if cmds != [] {
      NoMulti(kind, Run(kind, s, cmds[0]), cmds[1..]);
    }
  }

  lemma {:induction false} RunLast(kind: Argv -> Kind, s: Session, a: seq<Argv>, x: Argv)
    ensures RunAll(kind, s, a + [x]) == Run(kind, RunAll(kind, s, a), x)
    ensures Unnested(kind, s, a + [x]) ==> Unnested(kind, s, a) && (kind(x) == Multi ==> !RunAll(kind, s, a).inMulti)
  {
    RunAllConcat(kind, s, a, [x]);
    UnnestedConcat(kind, s, a, [x]);
    assert [x][1..] == [];
  }

  /** An open transaction began with the last MULTI, and since then nothing ran. */
  lemma {:induction false} OpenSince(kind: Argv -> Kind, cmds: seq<Argv>)
    requires Unnested(kind, START, cmds) && RunAll(kind, START, cmds).inMulti
    ensures var before := RunAll(kind, START, cmds[..LastMulti(kind, cmds)]);
      !before.inMulti && before.executed == RunAll(kind, START, cmds).executed
  {
    var n := |cmds| - 1;
    var front, last := cmds[..n], cmds[n];
    assert front + [last] == cmds;
    RunLast(kind, START, front, last);
    if kind(last) != Multi {
      OpenSince(kind, front);
      assert cmds[..LastMulti(kind, cmds)] == front[..LastMulti(kind, front)];
    }
  }

  // ---------------------------------------------------------------------------
  // The loading loops
  // ---------------------------------------------------------------------------

  ghost function Prepend(acc: seq<string>, used: nat, r: ArgsRead): ArgsRead {
    match r
    case Args(argv, u) => Args(acc + argv, used + u)
    case _ => r
  }

  /** One more argument read: what has been read so far still makes up the whole. */
  lemma {:induction false} PrependOne(acc: seq<string>, used: nat, a: string, u: nat, more: ArgsRead)
    ensures Prepend(acc, used, AddArg(Arg(a, u), more)) == Prepend(acc + [a], used + u, more)
  {
    if more.Args? {
      assert acc + ([a] + more.argv) == acc + [a] + more.argv;
    }
  }

  lemma PrependAll(acc: seq<string>, used: nat, s: string)
    ensures Prepend([], 0, ReadArgs(s, 0)) == ReadArgs(s, 0)
    ensures Prepend(acc, used, ReadArgs(s, 0)) == Args(acc, used)
  {
    assert acc + [] == acc;
  }

  lemma PrependNone(r: ArgsRead)
    ensures Prepend([], 0, r) == r
  {
    if r.Args? {
      assert [] + r.argv == r.argv;
    }
  }

  /** Reads the next argument of s; a short or bad one settles the whole. */
  method ReadNext(s: string, used: nat, argv: seq<string>, left: nat) returns (done: bool, r: ArgsRead,
      argv': seq<string>, n: nat)
    requires left > 0
    ensures n <= |s|
    ensures var whole := Prepend(argv, used, ReadArgs(s, left));
      if done then r == whole else whole == Prepend(argv', used + n, ReadArgs(s[n..], left - 1))
  {
    done, r, argv', n := true, ShortArgs, argv, 0;
    var arg := ReadArg(s);
    ghost var more := if arg.Arg? then ReadArgs(s[arg.used..], left - 1) else BadArgs;
    ReadArgsOne(s, left, arg, more);
    match arg
    case ShortArg =>
    case BadArg => r := BadArgs;
    case Arg(a, u) =>
      PrependOne(argv, used, a, u, more);
      done, argv', n := false, argv + [a], u;
  }

  method ReadArguments(s0: string, argc: nat) returns (r: ArgsRead)
    ensures r == ReadArgs(s0, argc)
  {
    var s, used, argv: seq<string>, done, n := s0, 0, [], false, 0;
    PrependNone(ReadArgs(s0, argc));
    for j := 0 to argc
      invariant ReadArgs(s0, argc) == Prepend(argv, used, ReadArgs(s, argc - j))
    {
      done, r, argv, n := ReadNext(s, used, argv, argc - j);
      if done {
        return;
      }
      s, used := s[n..], used + n;
    }
    PrependAll(argv, used, s);
    r := Args(argv, used);
  }

  /** Reads and runs the next command of what is left of the file. */
  method ReadRound(kind: Argv -> Kind, s: string, m: Marks, st: Session) returns (r: Round)
    ensures r == LoadRound(kind, s, m, st)
  {
    match ReadLine(s)
    case End =>
      r := Over(if st.inMulti then Outcome(Truncated, st, m.beforeMulti) else Outcome(LoadedOk, st, m.validUpTo));
    case Note(n) =>
      r := More(n, m.(offset := m.offset + n), st);
    case BadLine(short) =>
      r := Over(Outcome(if short then Truncated else Failed, st, m.validUpTo));
    case Start(n, argc) =>
      var args := ReadArguments(s[n..], argc);
      r := RunRead(kind, n, args, m, st);
  }

  lemma LoadOnce(kind: Argv -> Kind, s: string, m: Marks, st: Session)
    ensures var r := LoadRound(kind, s, m, st);
      Load(kind, s, m, st) == if r.Over? then r.outcome else Load(kind, s[r.used..], r.m, r.st)
  {
  }

  method LoadFile(kind: Argv -> Kind, f: string) returns (o: Outcome)
    ensures o == Load(kind, f, FILE_START, START)
  {
    var s, m, st := f, FILE_START, START;
    while true
      invariant Load(kind, f, FILE_START, START) == Load(kind, s, m, st)
      decreases |s|
    {
      var r := ReadRound(kind, s, m, st);
      LoadOnce(kind, s, m, st);
      if r.Over? {
        return r.outcome;
      }
      s, m, st := s[r.used..], r.m, r.st;
    }
  }
}
