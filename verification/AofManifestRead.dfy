/**
 What the reader of the manifest file accepts, whatever the text: which lines,
 which fields on them and which entries in which order, and what it makes of
 them.
 */
module AofManifestRead {

  import opened AofFormat
  import opened AofManifest
  import opened AofManifestText
  import opened Sds
  import opened SdsArgs
  import opened Wrappers

  // ---------------------------------------------------------------------------
  // Entries
  // ---------------------------------------------------------------------------

  /** No type but BASE, HISTORY and INCR, one BASE at most, and INCR numbers that grow from one on. */
  ghost predicate InOrder(es: seq<Entry>) {
    && (forall i :: 0 <= i < |es| ==> es[i].kind == 'b' || es[i].kind == 'h' || es[i].kind == 'i')
    && (forall i :: 0 <= i < |es| && es[i].kind == 'i' ==> es[i].number > 0)
    && (forall i, j :: 0 <= i < j < |es| && es[i].kind == 'b' ==> es[j].kind != 'b')
    && (forall i, j :: 0 <= i < j < |es| && es[i].kind == 'i' && es[j].kind == 'i' ==> es[i].number < es[j].number)
  }

  function OfKind(es: seq<Entry>, kind: char): seq<Entry> {
    if es == [] then []
    else
      var n := |es| - 1;
      OfKind(es[..n], kind) + if es[n].kind == kind then [es[n]] else []
  }

  function LastNumber(es: seq<Entry>): int { if es == [] then 0 else es[|es| - 1].number }

  /** The entries by their types, in the order of the file. */
  function Sorted(es: seq<Entry>): Read {
    var b := OfKind(es, 'b');
    Read(if b == [] then None else Some(b[0]), OfKind(es, 'h'), OfKind(es, 'i'),
      if b == [] then 0 else b[0].number, LastNumber(OfKind(es, 'i')))
  }

  lemma {:induction false} AddAllLast(r: Read, es: seq<Entry>, e: Entry)
    ensures AddAll(r, es + [e])
      == if AddAll(r, es).None? then None else AddEntry(AddAll(r, es).value, e)
    decreases |es|
  {
    hide AddEntry;
    if es == [] {
      assert es + [e] == [e] && [e][1..] == [];
    } else {
      assert (es + [e])[1..] == es[1..] + [e];
      if AddEntry(r, es[0]).Some? {
        AddAllLast(AddEntry(r, es[0]).value, es[1..], e);
      }
    }
  }

  lemma {:induction false} OfKindHas(es: seq<Entry>, kind: char, i: nat)
    requires i < |es| && es[i].kind == kind
    ensures es[i] in OfKind(es, kind)
  {
    if i < |es| - 1 {
      OfKindHas(es[..|es| - 1], kind, i);
    }
  }

  lemma {:induction false} OfKindFrom(es: seq<Entry>, kind: char, j: nat) returns (i: nat)
    requires j < |OfKind(es, kind)|
    ensures i < |es| && es[i] == OfKind(es, kind)[j] && es[i].kind == kind
    ensures j == |OfKind(es, kind)| - 1 ==> forall k :: i < k < |es| ==> es[k].kind != kind
  {
    var n := |es| - 1;
    if j < |OfKind(es[..n], kind)| {
      i := OfKindFrom(es[..n], kind, j);
    } else {
      i := n;
    }
  }

  /** The highest INCR number so far is the last one. */
  lemma {:induction false} LastIsHighest(es: seq<Entry>, x: int)
    requires InOrder(es)
    ensures x > LastNumber(OfKind(es, 'i')) <==>
      x > 0 && forall i :: 0 <= i < |es| && es[i].kind == 'i' ==> es[i].number < x
  {
    var l := OfKind(es, 'i');
    if l != [] {
      var i := OfKindFrom(es, 'i', |l| - 1);
      assert forall k :: 0 <= k < |es| && es[k].kind == 'i' ==> es[k].number <= es[i].number;
    } else {
      NoneOfKind(es, 'i');
    }
  }

  lemma {:induction false} NoneOfKind(es: seq<Entry>, kind: char)
    ensures OfKind(es, kind) == [] ==> forall i :: 0 <= i < |es| ==> es[i].kind != kind
  {
    if es != [] {
      NoneOfKind(es[..|es| - 1], kind);
    }
  }

  lemma {:induction false} BaseThere(es: seq<Entry>)
    ensures OfKind(es, 'b') != [] <==> exists i :: 0 <= i < |es| && es[i].kind == 'b'
  {
    if OfKind(es, 'b') != [] {
      var i := OfKindFrom(es, 'b', 0);
    }
    if i :| 0 <= i < |es| && es[i].kind == 'b' {
      OfKindHas(es, 'b', i);
    }
  }

  ghost predicate Joins(es: seq<Entry>, e: Entry) {
    && (e.kind == 'b' || e.kind == 'h' || e.kind == 'i')
    && (e.kind == 'b' ==> forall i :: 0 <= i < |es| ==> es[i].kind != 'b')
    && (e.kind == 'i' ==> e.number > 0 && forall i :: 0 <= i < |es| && es[i].kind == 'i' ==> es[i].number < e.number)
  }

  lemma InOrderMore(es: seq<Entry>, e: Entry)
    ensures InOrder(es + [e]) <==> InOrder(es) && Joins(es, e)
  {
    var more, n := es + [e], |es|;
    assert more[n] == e && forall i :: 0 <= i < n ==> more[i] == es[i];
    if InOrder(more) {
      assert forall i, j :: 0 <= i < j < n ==> more[i] == es[i] && more[j] == es[j];
    }
  }

  lemma {:induction false} SortedMore(es: seq<Entry>, e: Entry)
    requires InOrder(es)
    ensures AddEntry(Sorted(es), e) == if Joins(es, e) then Some(Sorted(es + [e])) else None
  {
    hide OfKind, InOrder;
    OfKindMore(es, e, 'b');
    OfKindMore(es, e, 'h');
    OfKindMore(es, e, 'i');
    LastIsHighest(es, e.number);
    BaseThere(es);
  }

  lemma OfKindMore(es: seq<Entry>, e: Entry, kind: char)
    ensures OfKind(es + [e], kind) == if e.kind == kind then OfKind(es, kind) + [e] else OfKind(es, kind)
  {
    assert (es + [e])[..|es|] == es;
    assert OfKind(es, kind) + [] == OfKind(es, kind);
  }

  /** Entries are taken in exactly if they are in order, and then each goes to the list of its type. */
  lemma {:induction false} TakenIff(es: seq<Entry>)
    ensures AddAll(NOTHING_READ, es) == if InOrder(es) then Some(Sorted(es)) else None
  {
    hide InOrder, Joins, AddEntry, Sorted;
    if es == [] {
      NothingTaken();
    } else {
      var n := |es| - 1;
      TakenIff(es[..n]);
      assert es[..n] + [es[n]] == es;
      AddAllLast(NOTHING_READ, es[..n], es[n]);
      InOrderMore(es[..n], es[n]);
      if InOrder(es[..n]) {
        SortedMore(es[..n], es[n]);
      }
    }
  }

  lemma NothingTaken()
    ensures InOrder([]) && Sorted([]) == NOTHING_READ
  {
  }

  // ---------------------------------------------------------------------------
  // Lines
  // ---------------------------------------------------------------------------

  /** A text in pieces that end with a newline, or after 1024 characters, or with the text. */
  function Lines(s: string): seq<string>
    decreases |s|
  {
    if s == "" then [] else [s[..LineLength(s, MANIFEST_MAX_LINE)]] + Lines(s[LineLength(s, MANIFEST_MAX_LINE)..])
  }

  lemma {:induction false} LineIs(s: string, limit: nat)
    requires s != "" && limit > 0
    ensures var n := LineLength(s, limit);
      && (forall i :: 0 <= i < n - 1 ==> s[i] != '\n')
      && (s[n - 1] == '\n' || n == limit || n == |s|)
  {
    if limit > 1 && |s| > 1 && s[0] != '\n' {
      LineIs(s[1..], limit - 1);
      assert forall i :: 0 < i < |s| ==> s[i] == s[1..][i - 1];
    }
  }

  /** At most 1024 characters, of which only the last can be a newline. */
  predicate IsLine(l: string) { 0 < |l| <= 1024 && forall i :: 0 <= i < |l| - 1 ==> l[i] != '\n' }

  predicate IsFull(l: string) { l != "" && (l[|l| - 1] == '\n' || |l| == 1024) }

  lemma FirstLine(s: string)
    requires s != ""
    ensures var n := LineLength(s, MANIFEST_MAX_LINE);
      0 < n <= |s| && IsLine(s[..n]) && (IsFull(s[..n]) || n == |s|)
  {
    LineIs(s, MANIFEST_MAX_LINE);
  }

  ghost predicate AllLines(ls: seq<string>) {
    forall k :: 0 <= k < |ls| ==> IsLine(ls[k]) && (IsFull(ls[k]) || k == |ls| - 1)
  }

  lemma OneLineMore(l: string, ls: seq<string>)
    requires AllLines(ls) && IsLine(l) && (IsFull(l) || ls == [])
    ensures AllLines([l] + ls)
  {
    hide IsLine, IsFull;
    var more := [l] + ls;
    assert forall k :: 0 < k < |more| ==> more[k] == ls[k - 1];
  }

  /** The pieces make up the text, each is a line, and all but the last are full. */
  lemma {:induction false} LinesAre(s: string)
    ensures Whole(Lines(s)) == s && AllLines(Lines(s))
    decreases |s|
  {
    hide LineLength, IsLine, IsFull, AllLines;
    if s == "" {
      NoLines();
    } else {
      var n := LineLength(s, MANIFEST_MAX_LINE);
      FirstLine(s);
      LinesAre(s[n..]);
      assert Lines(s)[1..] == Lines(s[n..]);
      OneLineMore(s[..n], Lines(s[n..]));
    }
  }

  lemma NoLines()
    ensures AllLines([])
  {
  }

  function Whole(ls: seq<string>): string { if ls == [] then "" else ls[0] + Whole(ls[1..]) }

  /** What the lines say: annotations nothing, others an entry each, if they are complete and can be read. */
  function EntriesIn(ls: seq<string>): Option<seq<Entry>> {
    if ls == [] then Some([])
    else
      var l, es := ls[0], EntriesIn(ls[1..]);
      if l != "" && l[0] == '#' then es
      else if l == "" || l[|l| - 1] != '\n' || ReadEntry(l).None? || es.None? then None
      else Some([ReadEntry(l).value] + es.value)
  }

  lemma {:induction false} LinesTaken(r: Read, s: string)
    ensures ReadLines(r, s)
      == if EntriesIn(Lines(s)).None? then None else AddAll(r, EntriesIn(Lines(s)).value)
    decreases |s|
  {
    hide LineLength, ReadEntry, AddEntry;
    if s != "" {
      var n := LineLength(s, MANIFEST_MAX_LINE);
      FirstLine(s);
      var l, rest := s[..n], Lines(s[n..]);
      assert Lines(s)[0] == l && Lines(s)[1..] == rest;
      var t := AofManifestText.ReadLine(r, l);
      if t.Some? {
        LinesTaken(t.value, s[n..]);
      }
      if EntriesIn(rest).Some? && l[0] != '#' && ReadEntry(l).Some? {
        var e, es := ReadEntry(l).value, EntriesIn(rest).value;
        assert ([e] + es)[1..] == es;
      }
    }
  }

  /**
   A manifest file is accepted exactly if it is not empty, all its lines but
   annotations are complete and can be read as entries, and the entries are in
   order; the result is the entries by their types.
   */
  lemma {:induction false} AcceptedIff(s: string)
    ensures var es := EntriesIn(Lines(s));
      ReadManifest(s) == if s != "" && es.Some? && InOrder(es.value) then Some(Sorted(es.value)) else None
  {
    hide InOrder, Sorted, ReadLines, EntriesIn, Lines, AddAll;
    LinesTaken(NOTHING_READ, s);
    if EntriesIn(Lines(s)).Some? {
      TakenIff(EntriesIn(Lines(s)).value);
    }
  }

  // ---------------------------------------------------------------------------
  // Fields
  // ---------------------------------------------------------------------------

  /** The last value that is given for a key, whatever its case. */
  function LastValue(argv: seq<string>, key: string): Option<string> {
    if |argv| < 2 then None
    else
      var n := |argv| - 2;
      if Lower(argv[n]) == key then Some(argv[n + 1]) else LastValue(argv[..n], key)
  }

  /** Every name that is given is no path. */
  ghost predicate NoPaths(argv: seq<string>) {
    forall i :: 0 <= i < |argv| - 1 && i % 2 == 0 && Lower(argv[i]) == "file" ==>
      '/' !in argv[i + 1] && '\\' !in argv[i + 1]
  }

  function FieldsIn(argv: seq<string>): Fields {
    var name, number, kind := LastValue(argv, "file"), LastValue(argv, "seq"), LastValue(argv, "type");
    Fields(name, if number.Some? then Number(number.value) else 0,
      if kind.Some? && kind.value != "" then kind.value[0] else '\0')
  }

  lemma {:induction false} ReadFieldsLast(f: Fields, argv: seq<string>, key: string, value: string)
    requires |argv| % 2 == 0
    ensures var g := ReadFields(f, argv);
      ReadFields(f, argv + [key, value]) == if g.None? then None else ReadField(g.value, key, value)
    decreases |argv|
  {
    hide ReadField;
    if argv == [] {
      assert argv + [key, value] == [key, value] && [key, value][2..] == [];
    } else {
      assert (argv + [key, value])[2..] == argv[2..] + [key, value];
      var g := ReadField(f, argv[0], argv[1]);
      if g.Some? {
        ReadFieldsLast(g.value, argv[2..], key, value);
      }
    }
  }

  lemma BaseNameIff(s: string)
    ensures IsBaseName(s) <==> '/' !in s && '\\' !in s
  {
  }

  /** Blanks, tabs and line ends around a line are dropped, and nothing else. */
  lemma {:induction false} TrimIs(s: string) returns (a: nat, b: nat)
    ensures a <= b <= |s| && Trim(s) == s[a..b]
    ensures forall i :: 0 <= i < a || b <= i < |s| ==> s[i] in {' ', '\t', '\r', '\n'}
    ensures a < b ==> s[a] !in {' ', '\t', '\r', '\n'} && s[b - 1] !in {' ', '\t', '\r', '\n'}
    decreases |s|
  {
    a, b := 0, |s|;
    if s != "" {
      if IsTrimmed(s[0]) {
        a, b := TrimIs(s[1..]);
        assert s[1..][a..b] == s[a + 1..b + 1];
        assert forall i :: 1 <= i < |s| ==> s[i] == s[1..][i - 1];
        a, b := a + 1, b + 1;
      } else if IsTrimmed(s[|s| - 1]) {
        a, b := TrimIs(s[..|s| - 1]);
        assert s[..|s| - 1][a..b] == s[a..b];
        assert forall i :: 0 <= i < |s| - 1 ==> s[i] == s[..|s| - 1][i];
      }
    }
  }

  lemma NoPathsMore(argv: seq<string>, key: string, value: string)
    requires |argv| % 2 == 0
    ensures NoPaths(argv + [key, value]) <==> NoPaths(argv) && (Lower(key) == "file" ==> IsBaseName(value))
  {
    hide Lower;
    BaseNameIff(value);
    var more, n := argv + [key, value], |argv|;
    assert more[n] == key && more[n + 1] == value;
    forall i | 0 <= i < n - 1 && i % 2 == 0 ensures more[i] == argv[i] && more[i + 1] == argv[i + 1] {
    }
  }

  /** Fields come in any order, unknown ones are left out, later ones win, and a path is refused. */
  lemma {:induction false} FieldsRead(argv: seq<string>)
    requires |argv| % 2 == 0
    ensures ReadFields(NO_FIELDS, argv) == if NoPaths(argv) then Some(FieldsIn(argv)) else None
    decreases |argv|
  {
    hide NoPaths, Lower, IsBaseName, Number;
    if argv == [] {
      NoneGiven();
    } else {
      var n := |argv| - 2;
      var init, key, value := argv[..n], argv[n], argv[n + 1];
      assert init + [key, value] == argv;
      FieldsRead(init);
      ReadFieldsLast(NO_FIELDS, init, key, value);
      NoPathsMore(init, key, value);
    }
  }

  lemma NoneGiven()
    ensures NoPaths([])
  {
  }

  /** A line is an entry exactly if it splits into at least three pairs with a name, a number and a type. */
  lemma {:induction false} EntryIff(line: string)
    ensures var argv := SplitArgs(Trim(line));
      ReadEntry(line) ==
        if argv.Some? && |argv.value| >= 6 && |argv.value| % 2 == 0 && NoPaths(argv.value)
          && FieldsIn(argv.value).name.Some? && FieldsIn(argv.value).number != 0 && FieldsIn(argv.value).kind != '\0'
        then
          var f := FieldsIn(argv.value);
          Some(Entry(f.name.value, f.number, f.kind))
        else None
  {
    hide SplitArgs, Trim, NoPaths, FieldsIn, ReadFields;
    var argv := SplitArgs(Trim(line));
    if argv.Some? && |argv.value| % 2 == 0 {
      FieldsRead(argv.value);
    }
  }

  // ---------------------------------------------------------------------------
  // What a line looks like
  // ---------------------------------------------------------------------------

  lemma {:induction false} LineShape(prefix: string, i: Info)
    requires !i.name.TempFile?
    ensures var ending := if i.name.BaseFile? then ".base.aof" else ".incr.aof";
      var kind := match i.kind case BaseKind => "b" case HistoryKind => "h" case IncrKind => "i";
      InfoLine(prefix, i)
        == "file " + Field(prefix + "." + Decimal(i.name.n) + ending) + " seq " + Decimal(i.number) + " type " + kind
          + "\n"
  {
    hide Field, Decimal;
    var f := Field(NameText(prefix, i.name));
    JoinedSix("file", f, "seq", Decimal(i.number), "type", [KindChar(i.kind)]);
    Pieces(f, Decimal(i.number), [KindChar(i.kind)]);
  }

  lemma Pieces(f: string, n: string, k: string)
    ensures "file" + " " + f + " " + "seq" + " " + n + " " + "type" + " " + k + "\n"
      == "file " + f + " seq " + n + " type " + k + "\n"
  {
    assert "file" + " " == "file ";
    assert "file " + f + " " + "seq" + " " == "file " + f + " seq ";
    assert "file " + f + " seq " + n + " " + "type" + " " == "file " + f + " seq " + n + " type ";
  }
}
