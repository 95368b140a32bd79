/**
 The manifest file: one line per entry, written from the lists and read back
 with strict checks.
 */
module AofManifestText {

  import opened AofFormat
  import opened AofManifest
  import opened Sds
  import opened SdsArgs
  import opened Wrappers

  // ---------------------------------------------------------------------------
  // Writing
  // ---------------------------------------------------------------------------

  /** The name of a file; prefix is the configured name of the append-only file. */
  function NameText(prefix: string, name: Name): string {
    match name
    case BaseFile(n) => prefix + "." + Decimal(n) + ".base.aof"
    case IncrFile(n) => prefix + "." + Decimal(n) + ".incr.aof"
    case TempFile(pid) => "temp-rewriteaof-bg-" + Decimal(pid) + ".aof"
  }

  function KindChar(k: Kind): char {
    match k
    case BaseKind => 'b'
    case HistoryKind => 'h'
    case IncrKind => 'i'
  }

  /** What an entry is on a line: the name is in quotes if one of its characters asks for them. */
  function InfoFields(prefix: string, i: Info): seq<string> {
    ["file", Field(NameText(prefix, i.name)), "seq", Decimal(i.number), "type", [KindChar(i.kind)]]
  }

  /** The line of an entry, without the newline. */
  function LineText(prefix: string, i: Info): string { Joined(InfoFields(prefix, i)) }

  function InfoLine(prefix: string, i: Info): string { LineText(prefix, i) + "\n" }

  lemma NameBytes(prefix: string, name: Name)
    requires AllBytes(prefix)
    ensures AllBytes(NameText(prefix, name))
  {
    if name.TempFile? {
      DecimalBytes(name.pid);
    } else {
      DecimalBytes(name.n);
    }
  }

  lemma DecimalBytes(n: nat)
    ensures AllBytes(Decimal(n))
  {
  }

  function LineOf(prefix: string): Info -> string { (i: Info) => InfoLine(prefix, i) }

  function ManifestText(prefix: string, l: Lists): string { Flat(LineOf(prefix), Entries(l)) }

  lemma {:induction false} JoinedSix(a: string, b: string, c: string, d: string, e: string, f: string)
    ensures Joined([a, b, c, d, e, f]) == a + " " + b + " " + c + " " + d + " " + e + " " + f
    ensures Joined([a, b, c, d, e, f]) == a + (" " + (b + (" " + Joined([c, d, e, f]))))
  {
    JoinedTwo(e, f);
    JoinedOnto(d, [e, f]);
    JoinedOnto(c, [d] + [e, f]);
    assert [d] + [e, f] == [d, e, f] && [c] + [d, e, f] == [c, d, e, f];
    assert [b] + [c, d, e, f] == [b, c, d, e, f] && [a] + [b, c, d, e, f] == [a, b, c, d, e, f];
    JoinedOnto(b, [c, d, e, f]);
    JoinedOnto(a, [b, c, d, e, f]);
    SixTexts(a, b, c, d, e, f);
  }

  lemma JoinedOnto(a: string, ts: seq<string>)
    requires ts != []
    ensures Joined([a] + ts) == a + (" " + Joined(ts))
  {
    assert ([a] + ts)[1..] == ts;
  }

  lemma JoinedTwo(a: string, b: string)
    ensures Joined([a, b]) == a + (" " + b)
  {
    assert [a, b][1..] == [b];
  }

  lemma SixTexts(a: string, b: string, c: string, d: string, e: string, f: string)
    ensures a + (" " + (b + (" " + (c + (" " + (d + (" " + (e + (" " + f)))))))))
      == a + " " + b + " " + c + " " + d + " " + e + " " + f
  {
  }

  /** Adds the line of an entry, with the name in quotes if one of its characters asks for them. */
  method FormatInfo(prefix: string, buf: string, i: Info) returns (r: string)
    ensures r == buf + LineOf(prefix)(i)
  {
    var name := NameText(prefix, i.name);
    var quoted := FindEscape(name);
    var field := name;
    if quoted {
      field := CatRepr("", name);
      assert "" + Repr(name) == Repr(name);
    }
    JoinedSix("file", field, "seq", Decimal(i.number), "type", [KindChar(i.kind)]);
    var line := "file" + " " + field + " " + "seq" + " " + Decimal(i.number) + " " + "type" + " " + [KindChar(i.kind)];
    r := buf + (line + "\n");
  }

  lemma FlatAppend<T>(line: T -> string, buf: string, es: seq<T>, k: nat)
    requires k < |es|
    ensures buf + Flat(line, es[..k]) + line(es[k]) == buf + Flat(line, es[..k + 1])
  {
    FlatMore(line, es, k);
  }

  lemma FlatThree<T>(line: T -> string, a: seq<T>, b: seq<T>, c: seq<T>)
    ensures "" + Flat(line, a) + Flat(line, b) + Flat(line, c) == Flat(line, a + b + c)
  {
    FlatConcat(line, a, b);
    FlatConcat(line, a + b, c);
  }

  method FormatAll(prefix: string, buf: string, es: seq<Info>) returns (r: string)
    ensures r == buf + Flat(LineOf(prefix), es)
  {
    r := buf;
    assert es[..0] == [];
    for k := 0 to |es|
      invariant r == buf + Flat(LineOf(prefix), es[..k])
    {
      FlatAppend(LineOf(prefix), buf, es, k);
      r := FormatInfo(prefix, r, es[k]);
    }
    assert es[..|es|] == es;
  }

  method ManifestAsString(prefix: string, m: Manifest) returns (s: string)
    ensures s == ManifestText(prefix, m.Value())
  {
    s := FormatAll(prefix, "", OneOrNone(m.base));
    s := FormatAll(prefix, s, m.history);
    s := FormatAll(prefix, s, m.incr);
    FlatThree(LineOf(prefix), OneOrNone(m.base), m.history, m.incr);
  }

  // ---------------------------------------------------------------------------
  // Reading
  // ---------------------------------------------------------------------------

  /** An entry as read from a line: name, sequence number, type character. */
  datatype Entry = Entry(name: string, number: int, kind: char)

  datatype Read = Read(base: Option<Entry>, history: seq<Entry>, incr: seq<Entry>, baseSeq: int, incrSeq: int)

  const NOTHING_READ := Read(None, [], [], 0, 0)

  const MANIFEST_MAX_LINE := 1024

  predicate IsBaseName(s: string) { forall i :: 0 <= i < |s| ==> s[i] != '/' && s[i] != '\\' }

  /** The fields set so far: no name, number zero and type NUL stand for fields that are missing. */
  datatype Fields = Fields(name: Option<string>, number: int, kind: char)

  const NO_FIELDS := Fields(None, 0, '\0')

  function ReadField(f: Fields, key: string, value: string): Option<Fields> {
    var k := Lower(key);
    if k == "file" then
      if IsBaseName(value) then Some(f.(name := Some(value))) else None
    else if k == "seq" then Some(f.(number := Number(value)))
    else if k == "type" then Some(f.(kind := if value == "" then '\0' else value[0]))
    else Some(f)
  }

  function ReadFields(f: Fields, argv: seq<string>): Option<Fields>
    requires |argv| % 2 == 0
    decreases |argv|
  {
    if argv == [] then Some(f)
    else
      var g := ReadField(f, argv[0], argv[1]);
      if g.None? then None else ReadFields(g.value, argv[2..])
  }

  predicate IsTrimmed(c: char) { c == ' ' || c == '\t' || c == '\r' || c == '\n' }

  /** A line without the blanks around it. */
  function Trim(s: string): string {
    if s == "" then ""
    else if IsTrimmed(s[0]) then Trim(s[1..])
    else if IsTrimmed(s[|s| - 1]) then Trim(s[..|s| - 1])
    else s
  }

  function ReadEntry(line: string): Option<Entry> {
    var argv := SplitArgs(Trim(line));
    if argv.None? || |argv.value| < 6 || |argv.value| % 2 != 0 then None
    else
      var f := ReadFields(NO_FIELDS, argv.value);
      if f.None? || f.value.name.None? || f.value.number == 0 || f.value.kind == '\0' then None
      else Some(Entry(f.value.name.value, f.value.number, f.value.kind))
  }

  /** Takes an entry in: a second BASE, an INCR out of order and an unknown type are refused. */
  function AddEntry(r: Read, e: Entry): Option<Read> {
    if e.kind == 'b' then
      if r.base.Some? then None else Some(r.(base := Some(e), baseSeq := e.number))
    else if e.kind == 'h' then Some(r.(history := r.history + [e]))
    else if e.kind == 'i' then
      if e.number <= r.incrSeq then None else Some(r.(incr := r.incr + [e], incrSeq := e.number))
    else None
  }

  function ReadLine(r: Read, line: string): Option<Read>
    requires line != ""
  {
    if line[0] == '#' then Some(r)
    else if line[|line| - 1] != '\n' then None
    else
      var e := ReadEntry(line);
      if e.None? then None else AddEntry(r, e.value)
  }

  function ReadLines(r: Read, s: string): Option<Read>
    decreases |s|
  {
    if s == "" then Some(r)
    else
      var n := LineLength(s, MANIFEST_MAX_LINE);
      var t := ReadLine(r, s[..n]);
      if t.None? then None else ReadLines(t.value, s[n..])
  }

  /** Reading a manifest file; an empty one is refused. */
  function ReadManifest(s: string): Option<Read> {
    if s == "" then None else ReadLines(NOTHING_READ, s)
  }

  method ParseFields(argv: seq<string>) returns (f: Option<Fields>)
    requires |argv| % 2 == 0
    ensures f == ReadFields(NO_FIELDS, argv)
  {
    var g := NO_FIELDS;
    var i := 0;
    while i < |argv|
      invariant 0 <= i <= |argv| && i % 2 == 0
      invariant ReadFields(NO_FIELDS, argv) == ReadFields(g, argv[i..])
    {
      var next := ReadField(g, argv[i], argv[i + 1]);
      assert argv[i..][2..] == argv[i + 2..];
      if next.None? {
        return None;
      }
      g := next.value;
      i := i + 2;
    }
    f := Some(g);
  }

  method LoadManifest(text: string) returns (r: Option<Read>)
    ensures r == ReadManifest(text)
  {
    hide SplitArgs, Trim, ReadFields, LineLength;
    var am := NOTHING_READ;
    var maxseq := 0;
    var pos, linenum := 0, 0;
    while pos < |text|
      invariant 0 <= pos <= |text| && (linenum == 0 <==> pos == 0)
      invariant maxseq == am.incrSeq
      invariant ReadLines(NOTHING_READ, text) == ReadLines(am, text[pos..])
    {
      var rest := text[pos..];
      var n := LineLength(rest, MANIFEST_MAX_LINE);
      var line := rest[..n];
      linenum := linenum + 1;
      pos := pos + n;
      assert text[pos..] == rest[n..];
      if line[0] == '#' {
        continue;
      }
      if line[n - 1] != '\n' {
        return None;
      }
      var argv := SplitLine(Trim(line));
      if argv.None? || |argv.value| < 6 || |argv.value| % 2 != 0 {
        return None;
      }
      var f := ParseFields(argv.value);
      if f.None? || f.value.name.None? || f.value.number == 0 || f.value.kind == '\0' {
        return None;
      }
      var e := Entry(f.value.name.value, f.value.number, f.value.kind);
      if e.kind == 'b' {
        if am.base.Some? {
          return None;
        }
        am := am.(base := Some(e), baseSeq := e.number);
      } else if e.kind == 'h' {
        am := am.(history := am.history + [e]);
      } else if e.kind == 'i' {
        if e.number <= maxseq {
          return None;
        }
        am := am.(incr := am.incr + [e], incrSeq := e.number);
        maxseq := e.number;
      } else {
        return None;
      }
    }
    if linenum == 0 {
      return None;
    }
    r := Some(am);
  }

  // ---------------------------------------------------------------------------
  // What is written is read back
  // ---------------------------------------------------------------------------

  function EntryOf(prefix: string, i: Info): Entry {
    Entry(NameText(prefix, i.name), i.number, KindChar(i.kind))
  }

  function EntriesOf(prefix: string, es: seq<Info>): (r: seq<Entry>)
    ensures |r| == |es| && forall k :: 0 <= k < |es| ==> r[k] == EntryOf(prefix, es[k])
  {
    seq(|es|, k requires 0 <= k < |es| => EntryOf(prefix, es[k]))
  }

  function Mapped<T, U>(f: T -> U, xs: seq<T>): (r: seq<U>)
    ensures |r| == |xs| && forall k :: 0 <= k < |xs| ==> r[k] == f(xs[k])
  {
    seq(|xs|, k requires 0 <= k < |xs| => f(xs[k]))
  }

  /** The same lists and sequence numbers, with the names as text. */
  function ReadOf(prefix: string, l: Lists): Read {
    Read(if l.base.Some? then Some(EntryOf(prefix, l.base.value)) else None,
         EntriesOf(prefix, l.history), EntriesOf(prefix, l.incr), l.baseSeq, l.incrSeq)
  }

  /** A configured name: bytes other than NUL that make no path. */
  ghost predicate GoodPrefix(prefix: string) { AllBytes(prefix) && IsBaseName(prefix) && '\0' !in prefix }

  /** A configured name that a line of the manifest carries: with a single quote, but nothing that asks for
      quoting, it does not. */
  predicate ReadsBack(prefix: string) { NeedsRepr(prefix) || '\'' !in prefix }

  /** What follows the configured name in the name of a file. */
  function Suffix(name: Name): string
    requires !name.TempFile?
  {
    "." + Decimal(name.n) + if name.BaseFile? then ".base.aof" else ".incr.aof"
  }

  ghost predicate PlainSuffix(s: string) {
    forall i :: 0 <= i < |s| ==> !NeedsEscape(s[i]) && s[i] != '\'' && s[i] != '/'
  }

  lemma SuffixIsPlain(name: Name)
    requires !name.TempFile?
    ensures PlainSuffix(Suffix(name))
  {
    assert PlainSuffix(".") && PlainSuffix(Decimal(name.n)) && PlainSuffix(".base.aof") && PlainSuffix(".incr.aof");
  }

  lemma {:induction false} EscapedPlain(s: string)
    requires PlainSuffix(s)
    ensures EscapedAll(s) == s
  {
    if s != "" {
      assert !NeedsEscape(s[0]);
      EscapedPlain(s[1..]);
      assert Escaped(s[0]) == [s[0]];
    }
  }

  /** The name of a file asks for quotes exactly if the configured name does. */
  lemma {:induction false} NameParts(prefix: string, name: Name)
    requires !name.TempFile?
    ensures NameText(prefix, name) == prefix + Suffix(name)
    ensures NeedsRepr(NameText(prefix, name)) <==> NeedsRepr(prefix)
    ensures '\'' in NameText(prefix, name) <==> '\'' in prefix
    ensures IsBaseName(prefix) ==> IsBaseName(NameText(prefix, name))
  {
    var s, x := NameText(prefix, name), Suffix(name);
    assert s == prefix + x;
    SuffixIsPlain(name);
    assert forall i :: 0 <= i < |prefix| ==> s[i] == prefix[i];
    assert forall i :: |prefix| <= i < |s| ==> s[i] == x[i - |prefix|];
    if NeedsRepr(prefix) {
      var i :| 0 <= i < |prefix| && NeedsEscape(prefix[i]);
      assert NeedsEscape(s[i]);
    }
    if '\'' in prefix {
      var i :| 0 <= i < |prefix| && prefix[i] == '\'';
      assert s[i] == '\'';
    }
  }

  lemma {:induction false} FieldsRead(name: string, d: string, number: nat, kind: char)
    requires IsBaseName(name) && Number(d) == number
    ensures ReadFields(NO_FIELDS, ["file", name, "seq", d, "type", [kind]]) == Some(Fields(Some(name), number, kind))
  {
    LowerFixed("file");
    LowerFixed("seq");
    LowerFixed("type");
    var f, g, h := Fields(Some(name), 0, '\0'), Fields(Some(name), number, '\0'), Fields(Some(name), number, kind);
    assert ["type", [kind]][2..] == [];
    assert ReadFields(g, ["type", [kind]]) == Some(h);
    assert ["seq", d, "type", [kind]][2..] == ["type", [kind]];
    assert ReadFields(f, ["seq", d, "type", [kind]]) == Some(h);
    assert ["file", name, "seq", d, "type", [kind]][2..] == ["seq", d, "type", [kind]];
  }

  lemma FileFirst(rest: string)
    ensures SplitArgs("file" + (" " + rest)) == Behind(["file"], SplitArgs(rest))
  {
    SplitBare("file", " " + rest);
    assert (" " + rest)[1..] == rest;
  }

  lemma {:induction false} TailSplits(d: string, k: string)
    requires Bare(d) && Bare(k)
    ensures SplitArgs(Joined(["seq", d, "type", k])) == Some(["seq", d, "type", k])
  {
    SplitJoined(["seq", d, "type", k]);
  }

  lemma {:induction false} JoinedHasNo(c: char, ts: seq<string>)
    requires c != ' ' && forall i :: 0 <= i < |ts| ==> c !in ts[i]
    ensures c !in Joined(ts)
  {
    if |ts| > 1 {
      JoinedHasNo(c, ts[1..]);
    }
  }

  lemma FieldsAreBare(i: Info)
    ensures Bare(Decimal(i.number)) && Bare([KindChar(i.kind)])
  {
  }

  lemma BareHasNoQuote(d: string, k: string)
    requires Bare(d) && Bare(k)
    ensures '\'' !in Joined(["seq", d, "type", k])
  {
    JoinedHasNo('\'', ["seq", d, "type", k]);
  }

  /** The arguments of a line, if its name can be read back. */
  lemma {:induction false} ArgsSplit(name: string, d: string, k: string)
    requires AllBytes(name) && name != "" && name[|name| - 1] != '\'' && Bare(d) && Bare(k)
    ensures SplitArgs(Joined(["file", Field(name), "seq", d, "type", k]))
      == if NeedsRepr(name) || '\'' !in name then Some(["file", name, "seq", d, "type", k]) else None
  {
    hide SplitArgs, Joined, Field;
    var f, tail := Field(name), Joined(["seq", d, "type", k]);
    JoinedSix("file", f, "seq", d, "type", k);
    FileFirst(f + (" " + tail));
    BareHasNoQuote(d, k);
    SplitField(name, " " + tail);
    assert (" " + tail)[1..] == tail;
    TailSplits(d, k);
    assert ["file"] + ([name] + ["seq", d, "type", k]) == ["file", name, "seq", d, "type", k];
  }

  lemma {:induction false} LineSplits(prefix: string, i: Info)
    requires GoodPrefix(prefix) && !i.name.TempFile?
    ensures SplitArgs(LineText(prefix, i))
      == if ReadsBack(prefix)
         then Some(["file", NameText(prefix, i.name), "seq", Decimal(i.number), "type", [KindChar(i.kind)]])
         else None
  {
    var name := NameText(prefix, i.name);
    NameBytes(prefix, i.name);
    NameParts(prefix, i.name);
    FieldsAreBare(i);
    assert name[|name| - 1] == 'f';
    ArgsSplit(name, Decimal(i.number), [KindChar(i.kind)]);
  }

  lemma TrimmedLine(prefix: string, i: Info)
    ensures Trim(InfoLine(prefix, i)) == LineText(prefix, i)
  {
    TextEnds(prefix, i);
    TrimNewline(LineText(prefix, i));
  }

  lemma TrimNewline(s: string)
    requires s != "" && !IsTrimmed(s[0]) && !IsTrimmed(s[|s| - 1])
    ensures Trim(s + "\n") == s
  {
    assert (s + "\n")[..|s|] == s;
    assert Trim(s + "\n") == Trim(s);
  }

  lemma TextEnds(prefix: string, i: Info)
    ensures var s := LineText(prefix, i); s != "" && s[0] == 'f' && s[|s| - 1] == KindChar(i.kind)
  {
    JoinedSix("file", Field(NameText(prefix, i.name)), "seq", Decimal(i.number), "type", [KindChar(i.kind)]);
  }

  /** The line of an entry reads back as the entry exactly if the configured name can be read back. */
  lemma {:induction false} EntryRead(prefix: string, i: Info)
    requires GoodPrefix(prefix) && !i.name.TempFile? && i.number > 0
    ensures ReadEntry(InfoLine(prefix, i)) == if ReadsBack(prefix) then Some(EntryOf(prefix, i)) else None
  {
    var name, d := NameText(prefix, i.name), Decimal(i.number);
    TrimmedLine(prefix, i);
    LineSplits(prefix, i);
    NameParts(prefix, i.name);
    assert d + "" == d;
    NumberOfDecimal(i.number, "");
    FieldsRead(name, d, i.number, KindChar(i.kind));
  }

  lemma {:induction false} EscapedSize(s: string)
    ensures |EscapedAll(s)| <= 4 * |s|
  {
    if s != "" {
      EscapedSize(s[1..]);
    }
  }

  lemma {:induction false} EscapedOnOneLine(s: string)
    ensures '\n' !in EscapedAll(s)
  {
    if s != "" {
      EscapedOnOneLine(s[1..]);
      assert '\n' !in Escaped(s[0]);
    }
  }

  lemma {:induction false} FieldOnOneLine(s: string)
    ensures '\n' !in Field(s)
  {
    if NeedsRepr(s) {
      EscapedOnOneLine(s);
    } else {
      assert forall k :: 0 <= k < |s| ==> !NeedsEscape(s[k]);
    }
  }

  lemma {:induction false} TextOnOneLine(prefix: string, i: Info)
    ensures '\n' !in LineText(prefix, i)
  {
    FieldOnOneLine(NameText(prefix, i.name));
    JoinedHasNo('\n', InfoFields(prefix, i));
  }

  lemma {:induction false} LineEnds(line: string, rest: string, limit: nat)
    requires '\n' !in line && |line| < limit
    ensures LineLength(line + "\n" + rest, limit) == |line| + 1
  {
    var s := line + "\n" + rest;
    if line != "" {
      assert s[1..] == line[1..] + "\n" + rest;
      LineEnds(line[1..], rest, limit - 1);
    }
  }

  ghost predicate Numbered(i: Info) {
    0 < i.number <= MAX_LONG && (i.name == BaseFile(i.number) || i.name == IncrFile(i.number))
  }

  lemma {:induction false} LineTooLong(line: string, rest: string, limit: nat)
    requires '\n' !in line && |line| >= limit
    ensures LineLength(line + rest, limit) == limit
  {
    var s := line + rest;
    if limit > 0 {
      assert s[0] == line[0] && s[1..] == line[1..] + rest;
      LineTooLong(line[1..], rest, limit - 1);
    }
  }

  /** An entry that a line carries: the line is not longer than the reader's buffer. */
  ghost predicate Fits(prefix: string, i: Info) { |LineText(prefix, i)| < MANIFEST_MAX_LINE }

  ghost predicate AllFit(prefix: string, es: seq<Info>) { forall k :: 0 <= k < |es| ==> Fits(prefix, es[k]) }

  /** A text that begins with the line reads as the entry, whatever was read and whatever follows. */
  ghost predicate ReadAs(line: string, e: Entry) {
    forall r, rest {:trigger ReadLines(r, line + rest)} ::
      ReadLines(r, line + rest)
      == if AddEntry(r, e).None? then None else ReadLines(AddEntry(r, e).value, rest)
  }

  ghost predicate Refuses(line: string) {
    forall r, rest {:trigger ReadLines(r, line + rest)} :: ReadLines(r, line + rest) == None
  }

  lemma WholeLine(text: string, e: Option<Entry>)
    requires text != "" && text[0] == 'f' && '\n' !in text && |text| < MANIFEST_MAX_LINE
    requires ReadEntry(text + "\n") == e
    ensures if e.Some? then ReadAs(text + "\n", e.value) else Refuses(text + "\n")
  {
    var line := text + "\n";
    forall r, rest
      ensures ReadLines(r, line + rest)
        == if ReadLine(r, line).None? then None else ReadLines(ReadLine(r, line).value, rest)
    {
      LineEnds(text, rest, MANIFEST_MAX_LINE);
      assert (line + rest)[..|line|] == line && (line + rest)[|line|..] == rest;
    }
    assert line[0] == 'f' && line[|line| - 1] == '\n';
    assert forall r :: ReadLine(r, line) == if e.None? then None else AddEntry(r, e.value);
    if e.None? {
      forall r, rest ensures ReadLines(r, line + rest) == None {
        assert ReadLine(r, line).None?;
      }
    }
  }

  lemma LongLine(text: string)
    requires text != "" && text[0] == 'f' && '\n' !in text && |text| >= MANIFEST_MAX_LINE
    ensures Refuses(text + "\n")
  {
    forall r, rest ensures ReadLines(r, text + "\n" + rest) == None {
      var s := text + "\n" + rest;
      assert s == text + ("\n" + rest);
      LineTooLong(text, "\n" + rest, MANIFEST_MAX_LINE);
      assert s[..MANIFEST_MAX_LINE][MANIFEST_MAX_LINE - 1] == text[MANIFEST_MAX_LINE - 1];
      assert s[..MANIFEST_MAX_LINE][0] == text[0];
    }
  }

  lemma {:induction false} LineRead(prefix: string, i: Info)
    requires GoodPrefix(prefix) && Numbered(i)
    ensures if ReadsBack(prefix) && Fits(prefix, i) then ReadAs(InfoLine(prefix, i), EntryOf(prefix, i))
      else Refuses(InfoLine(prefix, i))
  {
    TextOnOneLine(prefix, i);
    TextEnds(prefix, i);
    if Fits(prefix, i) {
      EntryRead(prefix, i);
      WholeLine(LineText(prefix, i), ReadEntry(InfoLine(prefix, i)));
    } else {
      LongLine(LineText(prefix, i));
    }
  }

  function AddAll(r: Read, es: seq<Entry>): Option<Read>
    decreases |es|
  {
    if es == [] then Some(r)
    else
      var t := AddEntry(r, es[0]);
      if t.None? then None else AddAll(t.value, es[1..])
  }

  /** The lines of a text are read one after the other, up to the first that is refused. */
  lemma {:induction false} LinesRead(line: Info -> string, entry: Info -> Entry, r: Read, es: seq<Info>)
    requires forall k :: 0 <= k < |es| ==> ReadAs(line(es[k]), entry(es[k]))
    ensures ReadLines(r, Flat(line, es)) == AddAll(r, Mapped(entry, es))
    decreases |es|
  {
    if es != [] {
      var rest := Flat(line, es[1..]);
      assert ReadAs(line(es[0]), entry(es[0])) && Flat(line, es) == line(es[0]) + rest;
      assert Mapped(entry, es)[1..] == Mapped(entry, es[1..]);
      var t := AddEntry(r, entry(es[0]));
      if t.Some? {
        LinesRead(line, entry, t.value, es[1..]);
      }
    }
  }

  lemma {:induction false} TextRead(prefix: string, r: Read, es: seq<Info>)
    requires GoodPrefix(prefix) && forall k :: 0 <= k < |es| ==> Numbered(es[k])
    requires ReadsBack(prefix) && AllFit(prefix, es)
    ensures ReadLines(r, Flat(LineOf(prefix), es)) == AddAll(r, EntriesOf(prefix, es))
  {
    var line, entry := LineOf(prefix), (i: Info) => EntryOf(prefix, i);
    forall k | 0 <= k < |es| ensures ReadAs(line(es[k]), entry(es[k])) {
      LineRead(prefix, es[k]);
    }
    LinesRead(line, entry, r, es);
    assert Mapped(entry, es) == EntriesOf(prefix, es);
  }

  lemma {:induction false} LinesRefused(line: Info -> string, entry: Info -> Entry, r: Read, es: seq<Info>, j: nat)
    requires j < |es| && Refuses(line(es[j]))
    requires forall k :: 0 <= k < j ==> ReadAs(line(es[k]), entry(es[k]))
    ensures ReadLines(r, Flat(line, es)) == None
    decreases j
  {
    var rest := Flat(line, es[1..]);
    assert Flat(line, es) == line(es[0]) + rest;
    if j > 0 {
      assert ReadAs(line(es[0]), entry(es[0]));
      var t := AddEntry(r, entry(es[0]));
      if t.Some? {
        LinesRefused(line, entry, t.value, es[1..], j - 1);
      }
    }
  }

  /** The first element that does not qualify. */
  ghost function FirstNot<T>(ok: T -> bool, xs: seq<T>): (j: nat)
    requires exists k :: 0 <= k < |xs| && !ok(xs[k])
    ensures j < |xs| && !ok(xs[j]) && forall k :: 0 <= k < j ==> ok(xs[k])
  {
    if !ok(xs[0]) then 0
    else
      assert forall k :: 0 < k < |xs| ==> xs[1..][k - 1] == xs[k];
      1 + FirstNot(ok, xs[1..])
  }

  lemma {:induction false} TextRefused(prefix: string, r: Read, es: seq<Info>)
    requires GoodPrefix(prefix) && es != [] && forall k :: 0 <= k < |es| ==> Numbered(es[k])
    requires !(ReadsBack(prefix) && AllFit(prefix, es))
    ensures ReadLines(r, Flat(LineOf(prefix), es)) == None
  {
    var line, entry := LineOf(prefix), (i: Info) => EntryOf(prefix, i);
    var ok := (i: Info) => ReadsBack(prefix) && Fits(prefix, i);
    assert exists k :: 0 <= k < |es| && !ok(es[k]) by {
      assert ReadsBack(prefix) || !ok(es[0]);
    }
    var j := FirstNot(ok, es);
    LineRead(prefix, es[j]);
    forall k | 0 <= k < j ensures ReadAs(line(es[k]), entry(es[k])) {
      assert ok(es[k]);
      LineRead(prefix, es[k]);
    }
    LinesRefused(line, entry, r, es, j);
  }

  /** The text of some entries is read exactly if the configured name can be read back and every line fits. */
  lemma {:induction false} TextReadIff(prefix: string, es: seq<Info>)
    requires GoodPrefix(prefix) && es != [] && forall k :: 0 <= k < |es| ==> Numbered(es[k])
    ensures ReadManifest(Flat(LineOf(prefix), es))
      == if ReadsBack(prefix) && AllFit(prefix, es) then AddAll(NOTHING_READ, EntriesOf(prefix, es)) else None
  {
    assert Flat(LineOf(prefix), es) != "" by {
      assert LineOf(prefix)(es[0]) != "";
    }
    if ReadsBack(prefix) && AllFit(prefix, es) {
      TextRead(prefix, NOTHING_READ, es);
    } else {
      TextRefused(prefix, NOTHING_READ, es);
    }
  }

  lemma {:induction false} AddAllConcat(r: Read, a: seq<Entry>, b: seq<Entry>, t: Read)
    requires AddAll(r, a) == Some(t)
    ensures AddAll(r, a + b) == AddAll(t, b)
    decreases |a|
  {
    if a == [] {
      assert a + b == b;
    } else {
      assert (a + b)[1..] == a[1..] + b;
      AddAllConcat(AddEntry(r, a[0]).value, a[1..], b, t);
    }
  }

  lemma {:induction false} HistoryAdded(r: Read, es: seq<Entry>)
    requires forall k :: 0 <= k < |es| ==> es[k].kind == 'h'
    ensures AddAll(r, es) == Some(r.(history := r.history + es))
    decreases |es|
  {
    if es == [] {
      assert r.history + es == r.history;
    } else {
      var t := AddEntry(r, es[0]).value;
      HistoryAdded(t, es[1..]);
      assert t.history + es[1..] == r.history + es;
    }
  }

  lemma {:induction false} IncrAdded(r: Read, es: seq<Entry>)
    requires forall k :: 0 <= k < |es| ==> es[k].kind == 'i' && es[k].number > r.incrSeq
    requires forall i, j :: 0 <= i < j < |es| ==> es[i].number < es[j].number
    ensures AddAll(r, es)
      == Some(r.(incr := r.incr + es, incrSeq := if es == [] then r.incrSeq else es[|es| - 1].number))
    decreases |es|
  {
    if es == [] {
      assert r.incr + es == r.incr;
    } else {
      var t := AddEntry(r, es[0]).value;
      IncrAdded(t, es[1..]);
      assert t.incr + es[1..] == r.incr + es;
    }
  }

  /** At most one BASE entry, then HISTORY entries, then increasing INCR entries are all accepted. */
  lemma {:induction false} AddedInOrder(b: seq<Entry>, h: seq<Entry>, i: seq<Entry>)
    requires |b| <= 1 && (b != [] ==> b[0].kind == 'b')
    requires forall k :: 0 <= k < |h| ==> h[k].kind == 'h'
    requires forall k :: 0 <= k < |i| ==> i[k].kind == 'i' && i[k].number > 0
    requires forall j, k :: 0 <= j < k < |i| ==> i[j].number < i[k].number
    ensures AddAll(NOTHING_READ, b + h + i)
      == Some(Read(if b == [] then None else Some(b[0]), h, i, if b == [] then 0 else b[0].number,
                   if i == [] then 0 else i[|i| - 1].number))
  {
    var t := if b == [] then NOTHING_READ else NOTHING_READ.(base := Some(b[0]), baseSeq := b[0].number);
    assert b != [] ==> b[1..] == [];
    assert AddAll(NOTHING_READ, b) == Some(t);
    HistoryAdded(t, h);
    assert [] + h == h && [] + i == i;
    AddAllConcat(NOTHING_READ, b, h, t);
    var u := t.(history := h);
    IncrAdded(u, i);
    AddAllConcat(NOTHING_READ, b + h, i, u);
  }

  lemma {:induction false} EntryKinds(prefix: string, es: seq<Info>, k: Kind)
    requires forall i :: 0 <= i < |es| ==> es[i].kind == k
    ensures forall i :: 0 <= i < |es| ==>
      EntriesOf(prefix, es)[i].kind == KindChar(k) && EntriesOf(prefix, es)[i].number == es[i].number
  {
  }

  lemma {:induction false} EntriesConcat(prefix: string, a: seq<Info>, b: seq<Info>)
    ensures EntriesOf(prefix, a + b) == EntriesOf(prefix, a) + EntriesOf(prefix, b)
  {
  }

  lemma {:induction false} ListsAdded(prefix: string, l: Lists)
    requires Good(l)
    ensures AddAll(NOTHING_READ, EntriesOf(prefix, Entries(l))) == Some(ReadOf(prefix, l))
  {
    var o := OneOrNone(l.base);
    var b, h, i := EntriesOf(prefix, o), EntriesOf(prefix, l.history), EntriesOf(prefix, l.incr);
    EntriesConcat(prefix, o, l.history);
    EntriesConcat(prefix, o + l.history, l.incr);
    EntryKinds(prefix, o, BaseKind);
    assert forall k :: 0 <= k < |l.history| ==> IsOld(l, l.history[k]);
    EntryKinds(prefix, l.history, HistoryKind);
    EntryKinds(prefix, l.incr, IncrKind);
    AddedInOrder(b, h, i);
  }

  ghost predicate SmallNumbers(l: Lists) {
    forall k :: 0 <= k < |Entries(l)| ==> Entries(l)[k].number <= MAX_LONG
  }

  /** A manifest with good lists reads back as the same lists exactly if the configured name can be read back
      and every line fits; otherwise the loader refuses it. */
  lemma {:induction false} ManifestRoundTrip(prefix: string, l: Lists)
    requires GoodPrefix(prefix) && Good(l) && SmallNumbers(l) && Entries(l) != []
    ensures ReadManifest(ManifestText(prefix, l))
      == if ReadsBack(prefix) && AllFit(prefix, Entries(l)) then Some(ReadOf(prefix, l)) else None
  {
    assert forall k :: 0 <= k < |l.history| ==> IsOld(l, l.history[k]);
    assert forall k :: 0 <= k < |Entries(l)| ==> Numbered(Entries(l)[k]);
    TextReadIff(prefix, Entries(l));
    ListsAdded(prefix, l);
  }

  /** A name of up to 225 bytes always fits. */
  lemma {:induction false} ShortNameFits(prefix: string, i: Info)
    requires |prefix| <= 225 && Numbered(i)
    ensures Fits(prefix, i)
  {
    DecimalFitsLine(i.number);
    NameParts(prefix, i.name);
    SuffixIsPlain(i.name);
    EscapedPlain(Suffix(i.name));
    FlatConcat(Escaped, prefix, Suffix(i.name));
    EscapedSize(prefix);
    assert |Field(NameText(prefix, i.name))| <= 4 * |prefix| + |Suffix(i.name)| + 2;
    JoinedSix("file", Field(NameText(prefix, i.name)), "seq", Decimal(i.number), "type", [KindChar(i.kind)]);
  }

  /** The name o'clock is allowed by the configuration, and the server refuses the manifest it wrote with it. */
  lemma OClock()
    ensures GoodPrefix("o'clock") && !ReadsBack("o'clock")
  {
    assert "o'clock"[1] == '\'';
  }

  lemma {:induction false} QuotedNameExample()
    ensures var l := WithNewIncr(WithNewBase(NO_FILES));
      GoodPrefix("o'clock") && Good(l) && ReadManifest(ManifestText("o'clock", l)) == None
  {
    FirstLists();
    OClock();
    ManifestRoundTrip("o'clock", WithNewIncr(WithNewBase(NO_FILES)));
  }

  // ---------------------------------------------------------------------------
  // Reloading after all INCR files were retired
  // ---------------------------------------------------------------------------

  lemma {:induction false} RetiredAdded(prefix: string, l: Lists)
    requires Good(l) && SmallNumbers(l)
    ensures var r := WithRewrittenRetired(l, false);
      && (forall k :: 0 <= k < |Entries(r)| ==> Numbered(Entries(r)[k]))
      && AddAll(NOTHING_READ, EntriesOf(prefix, Entries(r))) == Some(ReadOf(prefix, r.(incrSeq := 0)))
  {
    var r, o := WithRewrittenRetired(l, false), OneOrNone(l.base);
    RetiredNumbered(l);
    assert Entries(r) == o + r.history;
    EntriesConcat(prefix, o, r.history);
    EntryKinds(prefix, o, BaseKind);
    EntryKinds(prefix, r.history, HistoryKind);
    AddedInOrder(EntriesOf(prefix, o), EntriesOf(prefix, r.history), []);
    assert EntriesOf(prefix, o) + EntriesOf(prefix, r.history) + [] == EntriesOf(prefix, Entries(r));
  }

  /** What a reload makes of lists whose INCR files have all been retired: the last number is forgotten. */
  lemma {:induction false} RetiredRead(prefix: string, l: Lists)
    requires GoodPrefix(prefix) && Good(l) && SmallNumbers(l) && Entries(l) != []
    ensures var r := WithRewrittenRetired(l, false);
      ReadManifest(ManifestText(prefix, r))
      == if ReadsBack(prefix) && AllFit(prefix, Entries(r)) then Some(ReadOf(prefix, r.(incrSeq := 0))) else None
  {
    var es := Entries(WithRewrittenRetired(l, false));
    RetiredAdded(prefix, l);
    RetiredSmall(l, false);
    TextReadIff(prefix, es);
  }

  ghost predicate AllSmall(es: seq<Info>) { forall k :: 0 <= k < |es| ==> es[k].number <= MAX_LONG }

  ghost predicate AllNumbered(es: seq<Info>) { forall k :: 0 <= k < |es| ==> Numbered(es[k]) }

  lemma {:induction false} SmallParts(l: Lists)
    ensures SmallNumbers(l) <==> AllSmall(OneOrNone(l.base)) && AllSmall(l.history) && AllSmall(l.incr)
  {
    SmallConcat(OneOrNone(l.base), l.history);
    SmallConcat(OneOrNone(l.base) + l.history, l.incr);
    assert SmallNumbers(l) <==> AllSmall(Entries(l));
  }

  lemma SmallConcat(a: seq<Info>, b: seq<Info>)
    ensures AllSmall(a + b) <==> AllSmall(a) && AllSmall(b)
  {
    if AllSmall(a + b) {
      assert forall k :: 0 <= k < |a| ==> a[k] == (a + b)[k];
      assert forall k :: 0 <= k < |b| ==> b[k] == (a + b)[|a| + k];
    }
  }

  lemma {:induction false} RetiredNumbered(l: Lists)
    requires Good(l) && SmallNumbers(l)
    ensures var r := WithRewrittenRetired(l, false);
      && AllNumbered(OneOrNone(l.base)) && AllNumbered(r.history) && r.incr == []
      && forall k :: 0 <= k < |r.history| ==> r.history[k].kind == HistoryKind
  {
    SmallParts(l);
    assert AllNumbered(l.history) by {
      assert forall k :: 0 <= k < |l.history| ==> IsOld(l, l.history[k]);
    }
    assert AllNumbered(l.incr) && AllNumbered(AllRetired(l.incr));
    assert l.incr[..|l.incr|] == l.incr;
    assert forall k :: 0 <= k < |l.history| ==> IsOld(l, l.history[k]);
  }

  /** A reload gives the same lists and numbers exactly if the manifest can be read, and a file is being written,
      which stays, or there was none to retire. */
  lemma {:induction false} RetiredReload(prefix: string, l: Lists, writing: bool)
    requires GoodPrefix(prefix) && Good(l) && SmallNumbers(l) && Entries(l) != []
    ensures var r := WithRewrittenRetired(l, writing);
      ReadManifest(ManifestText(prefix, r)) == Some(ReadOf(prefix, r)) <==>
        ReadsBack(prefix) && AllFit(prefix, Entries(r)) && (writing || l.incr == [])
  {
    var r := WithRewrittenRetired(l, writing);
    RetiredGood(l, writing);
    if writing || l.incr == [] {
      RetiredSmall(l, writing);
      ManifestRoundTrip(prefix, r);
    } else {
      RetiredRead(prefix, l);
      assert r.incrSeq > 0;
    }
  }

  lemma {:induction false} RetiredSmall(l: Lists, writing: bool)
    requires SmallNumbers(l)
    ensures SmallNumbers(WithRewrittenRetired(l, writing)) && |Entries(WithRewrittenRetired(l,
        writing))| == |Entries(l)|
  {
    SmallParts(l);
    SmallParts(WithRewrittenRetired(l, writing));
  }

  lemma {:induction false} FirstLists()
    ensures var l := WithNewIncr(WithNewBase(NO_FILES));
      && l == Lists(Some(NewBaseInfo(1)), [], [NewIncrInfo(1)], 1, 1)
      && Good(l) && Entries(l) == [NewBaseInfo(1), NewIncrInfo(1)]
      && WithRewrittenRetired(l, false) == Lists(Some(NewBaseInfo(1)), [Retired(NewIncrInfo(1))], [], 1, 1)
  {
    var l := WithNewIncr(WithNewBase(NO_FILES));
    assert AllRetired(OneOrNone(None)) + [] == [];
    assert l == Lists(Some(NewBaseInfo(1)), [], [NewIncrInfo(1)], 1, 1);
    assert AllRetired([NewIncrInfo(1)]) + [] == [Retired(NewIncrInfo(1))];
    assert l.incr[..1] == l.incr && l.incr[1..] == [];
  }

  /** One BASE and one INCR file,
      retired while no file is open: after a reload the next INCR file gets a name of the history. */
  lemma {:induction false} RetiredExample(prefix: string)
    requires GoodPrefix(prefix) && ReadsBack(prefix) && |prefix| <= 225
    ensures var r := WithRewrittenRetired(WithNewIncr(WithNewBase(NO_FILES)), false);
      && r.incrSeq == 1 && r.history == [Retired(NewIncrInfo(1))]
      && ReadManifest(ManifestText(prefix, r)) == Some(ReadOf(prefix, r.(incrSeq := 0)))
      && WithNewIncr(r.(incrSeq := 0)).incr == [NewIncrInfo(1)] && r.history[0].name == NewIncrInfo(1).name
  {
    FirstLists();
    ShortNameFits(prefix, NewBaseInfo(1));
    ShortNameFits(prefix, Retired(NewIncrInfo(1)));
    RetiredRead(prefix, WithNewIncr(WithNewBase(NO_FILES)));
  }

  /** Distinct files have distinct names, so the names read back name the same files. */
  lemma {:induction false} NamesApart(prefix: string, a: Name, b: Name)
    requires !a.TempFile? && !b.TempFile?
    requires NameText(prefix, a) == NameText(prefix, b)
    ensures a == b
  {
    hide NameText;
    NumberInName(prefix, a);
    NumberInName(prefix, b);
    LetterInName(prefix, a);
    LetterInName(prefix, b);
  }

  lemma LetterInName(prefix: string, a: Name)
    requires !a.TempFile?
    ensures var k := |prefix| + |Decimal(a.n)| + 2;
      k < |NameText(prefix, a)| && NameText(prefix, a)[k] == if a.BaseFile? then 'b' else 'i'
  {
    var suffix := if a.BaseFile? then ".base.aof" else ".incr.aof";
    var s, k := NameText(prefix, a), |prefix| + |Decimal(a.n)| + 2;
    assert s == prefix + "." + Decimal(a.n) + suffix;
    assert s[k] == suffix[1];
  }

  lemma {:induction false} NumberInName(prefix: string, a: Name)
    requires !a.TempFile?
    ensures |prefix| + 1 <= |NameText(prefix, a)| && Number(NameText(prefix, a)[|prefix| + 1..]) == a.n
  {
    var suffix := if a.BaseFile? then ".base.aof" else ".incr.aof";
    assert NameText(prefix, a)[|prefix| + 1..] == Decimal(a.n) + suffix;
    NumberOfDecimal(a.n, suffix);
  }
}
