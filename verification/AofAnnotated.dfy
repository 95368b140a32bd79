/**
 Append-only files with annotation lines between the commands, and files that
 go wrong: what loading makes of them.
 */
module AofAnnotated {

  import opened AofFormat
  import opened AofLoader
  import opened Sds

  // ---------------------------------------------------------------------------
  // Annotations
  // ---------------------------------------------------------------------------

  /** A line that starts with a number sign, ends in its only newline and is shorter than the buffer of 1024. */
  predicate IsNote(line: string) {
    && 1 < |line| < 1024
    && line[0] == '#' && line[|line| - 1] == '\n'
    && forall i :: 0 <= i < |line| - 1 ==> line[i] != '\n'
  }

  /** Where loading stands behind some characters that are not a command. */
  function Skipped(m: Marks, n: nat): Marks { Marks(m.offset + n, m.validUpTo, m.beforeMulti) }

  /** How loading ends where the file ends: with the last complete command, or before an open transaction. */
  function AtEnd(m: Marks, st: Session): Outcome {
    if st.inMulti then Outcome(Truncated, st, m.beforeMulti) else Outcome(LoadedOk, st, m.validUpTo)
  }

  lemma {:induction false} EmptyLoads(kind: Argv -> Kind, m: Marks, st: Session)
    ensures Load(kind, "", m, st) == AtEnd(m, st)
  {
    hide ReadArgs, ReadArg;
  }

  lemma {:induction false} NoteRound(kind: Argv -> Kind, s: string, n: nat, m: Marks, st: Session)
    requires 0 < n <= |s| && s[0] == '#' && LineLength(s, LINE_MAX) == n
    ensures Load(kind, s, m, st) == Load(kind, s[n..], Skipped(m, n), st)
  {
    hide ReadArgs, ReadArg, Load, LineLength, Number;
    LoadOnce(kind, s, m, st);
  }

  /** An annotation is skipped; it counts for the offset, but is not a command that the file could be cut behind. */
  lemma {:induction false} WholeNote(kind: Argv -> Kind, line: string, rest: string, m: Marks, st: Session)
    requires IsNote(line)
    ensures Load(kind, line + rest, m, st) == Load(kind, rest, Skipped(m, |line|), st)
  {
    hide Load;
    LineOf(line, rest, LINE_MAX);
    NoteRound(kind, line + rest, |line|, m, st);
    assert (line + rest)[|line|..] == rest;
  }

  /** A file that is cut inside an annotation is whole. */
  lemma {:induction false} CutNote(kind: Argv -> Kind, line: string, c: nat, m: Marks, st: Session)
    requires IsNote(line) && 0 < c < |line|
    ensures Load(kind, line[..c], m, st) == AtEnd(m, st)
  {
    hide Load;
    LineToEnd(line[..c], LINE_MAX);
    NoteRound(kind, line[..c], c, m, st);
    assert line[..c][c..] == "";
    EmptyLoads(kind, Skipped(m, c), st);
  }

  lemma {:induction false} LineLimit(s: string, limit: nat)
    requires |s| >= limit && forall i :: 0 <= i < limit ==> s[i] != '\n'
    ensures LineLength(s, limit) == limit
  {
    if limit > 0 {
      LineLimit(s[1..], limit - 1);
    }
  }

  /** Of a line that is too long for the buffer only the start is taken for an annotation. */
  lemma {:induction false} LongNote(kind: Argv -> Kind, s: string, m: Marks, st: Session)
    requires |s| >= 1023 && s[0] == '#' && forall i :: 0 <= i < 1023 ==> s[i] != '\n'
    ensures Load(kind, s, m, st) == Load(kind, s[1023..], Skipped(m, 1023), st)
  {
    hide Load;
    LineLimit(s, LINE_MAX);
    NoteRound(kind, s, LINE_MAX, m, st);
  }

  // ---------------------------------------------------------------------------
  // The offset an annotation adds
  // ---------------------------------------------------------------------------

  /** An offset behind a command moves with the annotation before it; the start of the file does not. */
  function Moved(offset: nat, d: nat): nat { if offset == 0 then 0 else offset + d }

  function MovedMarks(m: Marks, d: nat): Marks { Marks(m.offset + d, Moved(m.validUpTo, d), Moved(m.beforeMulti, d)) }

  lemma {:induction false} MovedRound(kind: Argv -> Kind, s: string, m: Marks, st: Session, d: nat)
    ensures var r, r' := LoadRound(kind, s, m, st), LoadRound(kind, s, MovedMarks(m, d), st);
      if r.Over? then r' == Over(r.outcome.(validUpTo := Moved(r.outcome.validUpTo, d)))
      else r' == More(r.used, MovedMarks(r.m, d), r.st)
  {
    hide ReadArgs, ReadLine, Run;
  }

  lemma {:induction false} MovedLoad(kind: Argv -> Kind, s: string, m: Marks, st: Session, d: nat)
    ensures var o := Load(kind, s, m, st);
      Load(kind, s, MovedMarks(m, d), st) == o.(validUpTo := Moved(o.validUpTo, d))
    decreases |s|
  {
    hide LoadRound;
    MovedRound(kind, s, m, st, d);
    LoadOnce(kind, s, m, st);
    LoadOnce(kind, s, MovedMarks(m, d), st);
    var r := LoadRound(kind, s, m, st);
    if r.More? {
      MovedLoad(kind, s[r.used..], r.m, r.st, d);
    }
  }

  /** Whatever follows, a file with an annotation in front loads as without it, and is cut behind the same command. */
  lemma {:induction false} NoteInFront(kind: Argv -> Kind, line: string, rest: string)
    requires IsNote(line)
    ensures var o := Load(kind, rest, FILE_START, START);
      Load(kind, line + rest, FILE_START, START)
        == Outcome(o.status, o.session, if o.validUpTo == 0 then 0 else |line| + o.validUpTo)
  {
    hide Load;
    WholeNote(kind, line, rest, FILE_START, START);
    MovedLoad(kind, rest, FILE_START, START, |line|);
  }

  // ---------------------------------------------------------------------------
  // Commands and annotations
  // ---------------------------------------------------------------------------

  datatype Item = Command(argv: Argv) | Annotation(line: string)

  function Text(item: Item): string { if item.Command? then EncodeCommand(item.argv) else item.line }

  function TextOf(items: seq<Item>): string { Flat(Text, items) }

  function CommandsOf(items: seq<Item>): seq<Argv>
    decreases |items|
  {
    if items == [] then []
    else (if items[0].Command? then [items[0].argv] else []) + CommandsOf(items[1..])
  }

  ghost predicate GoodItem(kind: Argv -> Kind, item: Item) {
    if item.Command? then WellSized(item.argv) && kind(item.argv) != Unknown else IsNote(item.line)
  }

  ghost predicate Good(kind: Argv -> Kind, items: seq<Item>) {
    forall i :: 0 <= i < |items| ==> GoodItem(kind, items[i])
  }

  /** The end of the last command. */
  function CommandsEnd(items: seq<Item>): nat {
    if items == [] then 0
    else if items[|items| - 1].Command? then |TextOf(items)|
    else CommandsEnd(items[..|items| - 1])
  }

  /** The position of the last MULTI, or 0. */
  function LastMultiAt(kind: Argv -> Kind, items: seq<Item>): (i: nat)
    ensures i <= |items|
  {
    if items == [] then 0
    else
      var n := |items| - 1;
      if items[n].Command? && kind(items[n].argv) == Multi then n else LastMultiAt(kind, items[..n])
  }

  ghost function MarksBehind(kind: Argv -> Kind, items: seq<Item>): Marks {
    Marks(|TextOf(items)|, CommandsEnd(items), CommandsEnd(items[..LastMultiAt(kind, items)]))
  }

  ghost function SessionBehind(kind: Argv -> Kind, items: seq<Item>): Session {
    RunAll(kind, START, CommandsOf(items))
  }

  lemma {:induction false} OneItem(kind: Argv -> Kind, item: Item, rest: string, m: Marks, st: Session)
    requires GoodItem(kind, item)
    ensures Load(kind, Text(item) + rest, m, st)
      == if item.Command?
         then Load(kind, rest, After(kind, m, |Text(item)|, item.argv), Run(kind, st, item.argv))
         else Load(kind, rest, Skipped(m, |Text(item)|), st)
  {
    hide Load, Run, EncodeCommand;
    if item.Command? {
      WholeCommand(kind, item.argv, rest, m, st);
    } else {
      WholeNote(kind, item.line, rest, m, st);
    }
  }

  lemma {:induction false} CommandsMore(items: seq<Item>, item: Item)
    ensures CommandsOf(items + [item]) == CommandsOf(items) + if item.Command? then [item.argv] else []
    decreases |items|
  {
    var last := if item.Command? then [item.argv] else [];
    if items == [] {
      assert items + [item] == [item] && [item][1..] == [];
    } else {
      assert (items + [item])[1..] == items[1..] + [item];
      CommandsMore(items[1..], item);
      var first := if items[0].Command? then [items[0].argv] else [];
      assert first + (CommandsOf(items[1..]) + last) == first + CommandsOf(items[1..]) + last;
    }
  }

  lemma {:induction false} BehindMore(kind: Argv -> Kind, items: seq<Item>, item: Item)
    ensures TextOf(items + [item]) == TextOf(items) + Text(item)
    ensures item.Command? ==>
      && MarksBehind(kind, items + [item])
        == After(kind, MarksBehind(kind, items), |Text(item)|, item.argv)
      && SessionBehind(kind, items + [item]) == Run(kind, SessionBehind(kind, items), item.argv)
    ensures item.Annotation? ==>
      && MarksBehind(kind, items + [item]) == Skipped(MarksBehind(kind, items), |Text(item)|)
      && SessionBehind(kind, items + [item]) == SessionBehind(kind, items)
  {
    hide Text, Run, RunAll;
    var more := items + [item];
    assert more[..|items|] == items && more[..|more|] == more;
    FlatMore(Text, more, |items|);
    CommandsMore(items, item);
    if item.Command? {
      RunLast(kind, START, CommandsOf(items), item.argv);
    } else {
      assert CommandsOf(items) + [] == CommandsOf(items);
    }
    var i := LastMultiAt(kind, items);
    assert more[..i] == items[..i];
  }

  lemma NoItems(kind: Argv -> Kind)
    ensures TextOf([]) == "" && MarksBehind(kind, []) == FILE_START && SessionBehind(kind, []) == START
  {
  }

  /** Behind whole commands and annotations, loading goes on with exactly the commands run. */
  lemma {:induction false} LoadItems(kind: Argv -> Kind, items: seq<Item>, rest: string)
    requires Good(kind, items)
    ensures Load(kind, TextOf(items) + rest, FILE_START, START)
      == Load(kind, rest, MarksBehind(kind, items), SessionBehind(kind, items))
  {
    hide Load, Text, TextOf, After, Skipped, Run, GoodItem, MarksBehind, SessionBehind;
    if items == [] {
      NoItems(kind);
      assert "" + rest == rest;
    } else {
      var n := |items| - 1;
      var init, item := items[..n], items[n];
      assert init + [item] == items;
      BehindMore(kind, init, item);
      assert TextOf(init) + Text(item) + rest == TextOf(init) + (Text(item) + rest);
      LoadItems(kind, init, Text(item) + rest);
      OneItem(kind, item, rest, MarksBehind(kind, init), SessionBehind(kind, init));
    }
  }

  /** How many items lie wholly before the cut. */
  function Whole(items: seq<Item>, cut: nat): (k: nat)
    ensures k <= |items|
  {
    if items == [] then 0
    else if |TextOf(items)| <= cut then |items|
    else Whole(items[..|items| - 1], cut)
  }

  /** The cut lies behind whole items, at the start of the next one or inside it. */
  ghost predicate CutAt(items: seq<Item>, cut: nat, k: nat) {
    && k <= |items|
    && |TextOf(items[..k])| <= cut <= |TextOf(items)|
    && (k == |items| ==> TextOf(items)[..cut] == TextOf(items[..k]))
    && (k < |items| ==>
      && cut < |TextOf(items[..k])| + |Text(items[k])|
      && TextOf(items)[..cut] == TextOf(items[..k]) + Text(items[k])[..cut - |TextOf(items[..k])|])
  }

  lemma {:induction false} CutInFront(items: seq<Item>, cut: nat, k: nat)
    requires items != [] && CutAt(items[..|items| - 1], cut, k) && cut < |TextOf(items[..|items| - 1])|
    requires |TextOf(items[..|items| - 1])| <= |TextOf(items)|
    requires TextOf(items)[..|TextOf(items[..|items| - 1])|] == TextOf(items[..|items| - 1])
    ensures CutAt(items, cut, k)
  {
    hide TextOf, Text;
    var init := items[..|items| - 1];
    assert init[..k] == items[..k];
    assert TextOf(items)[..|TextOf(init)|][..cut] == TextOf(items)[..cut];
  }

  lemma {:induction false} WholeIs(items: seq<Item>, cut: nat)
    requires cut <= |TextOf(items)|
    ensures CutAt(items, cut, Whole(items, cut))
  {
    hide Text, CutAt;
    if items == [] || |TextOf(items)| <= cut {
      CutNowhere(items, cut);
    } else {
      var n := |items| - 1;
      FlatMore(Text, items, n);
      assert items[..n + 1] == items;
      if cut < |TextOf(items[..n])| {
        WholeIs(items[..n], cut);
        CutInFront(items, cut, Whole(items[..n], cut));
      } else {
        CutInLast(items, cut);
        assert items[..n] != [] ==> Whole(items[..n], cut) == n;
      }
    }
  }

  lemma CutNowhere(items: seq<Item>, cut: nat)
    requires cut == |TextOf(items)|
    ensures CutAt(items, cut, |items|)
  {
    hide TextOf;
    assert items[..|items|] == items;
  }

  lemma CutInLast(items: seq<Item>, cut: nat)
    requires items != [] && TextOf(items) == TextOf(items[..|items| - 1]) + Text(items[|items| - 1])
    requires |TextOf(items[..|items| - 1])| <= cut < |TextOf(items)|
    ensures CutAt(items, cut, |items| - 1)
  {
    hide TextOf, Text;
  }

  lemma {:induction false} CutItem(kind: Argv -> Kind, item: Item, c: nat, m: Marks, st: Session)
    requires GoodItem(kind, item) && c < |Text(item)|
    ensures Load(kind, Text(item)[..c], m, st)
      == if c == 0 || item.Annotation? then AtEnd(m, st) else Outcome(Truncated, st, m.validUpTo)
  {
    hide Load, EncodeCommand;
    if c == 0 {
      EmptyLoads(kind, m, st);
      assert Text(item)[..c] == "";
    } else if item.Command? {
      CutCommand(kind, item.argv, c, m, st);
    } else {
      CutNote(kind, item.line, c, m, st);
    }
  }

  /** The cut leaves part of a command. */
  predicate InCommand(items: seq<Item>, cut: nat) {
    var k := Whole(items, cut);
    k < |items| && items[k].Command? && cut > |TextOf(items[..k])|
  }

  /**
   Loading a file of commands and annotations that is cut anywhere runs exactly
   the commands wholly before the cut. It is a clean load exactly if the cut is
   not inside a command and no transaction is open; a cut inside an annotation
   does no harm. The file is cut behind its last whole command, or behind the
   last command before an open transaction, in both cases without the
   annotations that follow it.
   */
  lemma {:induction false} AnnotatedCut(kind: Argv -> Kind, items: seq<Item>, cut: nat)
    requires Good(kind, items) && cut <= |TextOf(items)|
    ensures var done := items[..Whole(items, cut)];
      var o := Load(kind, TextOf(items)[..cut], FILE_START, START);
      && o.session == RunAll(kind, START, CommandsOf(done))
      && o.status != Failed
      && (o.status == LoadedOk <==> !InCommand(items, cut) && !o.session.inMulti)
      && o.validUpTo == if !InCommand(items, cut) && o.session.inMulti
                        then CommandsEnd(done[..LastMultiAt(kind, done)]) else CommandsEnd(done)
  {
    hide Load, Text, TextOf, CommandsEnd, CommandsOf, RunAll, LastMultiAt, Whole;
    var k := Whole(items, cut);
    var done := items[..k];
    WholeIs(items, cut);
    if k == |items| {
      LoadItems(kind, done, "");
      assert TextOf(done) + "" == TextOf(done);
      EmptyLoads(kind, MarksBehind(kind, done), SessionBehind(kind, done));
    } else {
      var c := cut - |TextOf(done)|;
      LoadItems(kind, done, Text(items[k])[..c]);
      CutItem(kind, items[k], c, MarksBehind(kind, done), SessionBehind(kind, done));
    }
  }

  // ---------------------------------------------------------------------------
  // Files that go wrong
  // ---------------------------------------------------------------------------

  /** A line that starts neither an annotation nor a command, a count below one, or an argument without its mark. */
  ghost predicate Malformed(s: string) {
    || (s != "" && s[0] != '#' && s[0] != '*')
    || (exists line, rest :: s == "*" + line + rest && BadCount(line))
    || (exists argc: nat, rest: string :: s == Header('*', argc) + rest && BadMark(argc, rest))
  }

  predicate BadCount(line: string) {
    && 1 < |line| < 1023 && line[0] != '\0' && line[|line| - 1] == '\n'
    && (forall i :: 0 <= i < |line| - 1 ==> line[i] != '\n')
    && Number(line) < 1
  }

  predicate BadMark(argc: nat, rest: string) { 1 <= argc <= MAX_INT && rest != "" && rest[0] != '$' }

  lemma {:induction false} BadCountFails(kind: Argv -> Kind, line: string, rest: string, m: Marks, st: Session)
    requires BadCount(line)
    ensures Load(kind, "*" + line + rest, m, st) == Outcome(Failed, st, m.validUpTo)
  {
    hide ReadArgs;
    var s, first := "*" + line + rest, "*" + line;
    LineOf(first, rest, LINE_MAX);
    assert s == first + rest && s[1..|first|] == line;
    LoadOnce(kind, s, m, st);
  }

  lemma {:induction false} BadMarkFails(kind: Argv -> Kind, argc: nat, rest: string, m: Marks, st: Session)
    requires BadMark(argc, rest)
    ensures Load(kind, Header('*', argc) + rest, m, st) == Outcome(Failed, st, m.validUpTo)
  {
    hide Header;
    var h := Header('*', argc);
    CommandLine(argc, rest);
    assert (h + rest)[|h|..] == rest;
    LoadOnce(kind, h + rest, m, st);
  }

  /** Malformed input ends loading as a failure: what ran before it has run, and nothing else does. */
  lemma {:induction false} MalformedFails(kind: Argv -> Kind, items: seq<Item>, s: string)
    requires Good(kind, items) && Malformed(s)
    ensures Load(kind, TextOf(items) + s, FILE_START, START)
      == Outcome(Failed, RunAll(kind, START, CommandsOf(items)), CommandsEnd(items))
  {
    hide RunAll, CommandsOf, CommandsEnd, TextOf, ReadArgs, Header, BadCount, BadMark;
    var m, st := MarksBehind(kind, items), SessionBehind(kind, items);
    LoadItems(kind, items, s);
    if line, rest :| s == "*" + line + rest && BadCount(line) {
      BadCountFails(kind, line, rest, m, st);
    } else if argc: nat, rest: string :| s == Header('*', argc) + rest && BadMark(argc, rest) {
      BadMarkFails(kind, argc, rest, m, st);
    } else {
      LoadOnce(kind, s, m, st);
    }
  }

  /** A NUL in place of the count: a line that is cut there is a short read, a whole line is a format error. */
  lemma {:induction false} NulCount(kind: Argv -> Kind, line: string, rest: string, m: Marks, st: Session)
    requires 1 < |line| < 1023 && line[0] == '*' && line[1] == '\0' && '\n' !in line
    ensures Load(kind, line, m, st) == Outcome(Truncated, st, m.validUpTo)
    ensures Load(kind, line + "\n" + rest, m, st) == Outcome(Failed, st, m.validUpTo)
  {
    hide ReadArgs;
    LineToEnd(line, LINE_MAX);
    LoadOnce(kind, line, m, st);
    var whole := line + "\n";
    LineOf(whole, rest, LINE_MAX);
    var s := whole + rest;
    assert s[0] == '*' && s[1] == '\0' && s[|whole| - 1] == '\n';
    LoadOnce(kind, s, m, st);
  }

  /** So does a command that is not known. */
  lemma {:induction false} UnknownFails(kind: Argv -> Kind, items: seq<Item>, argv: Argv, rest: string)
    requires Good(kind, items) && WellSized(argv) && kind(argv) == Unknown
    ensures Load(kind, TextOf(items) + (EncodeCommand(argv) + rest), FILE_START, START)
      == Outcome(Failed, RunAll(kind, START, CommandsOf(items)), CommandsEnd(items))
  {
    hide RunAll, CommandsOf, CommandsEnd, TextOf, ReadArgs, Header, Bulks, LastMultiAt;
    var m, st := MarksBehind(kind, items), SessionBehind(kind, items);
    LoadItems(kind, items, EncodeCommand(argv) + rest);
    var h, b := Header('*', |argv|), Bulks(argv);
    CommandLine(|argv|, b + rest);
    WholeArgs(argv, rest);
    Pieces(h, b, rest);
    LoadOnce(kind, EncodeCommand(argv) + rest, m, st);
  }
}
