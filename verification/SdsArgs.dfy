/**
 Arguments on a line: splitting a line into arguments, of which some may be
 quoted, and printing a string as a quoted argument.
 */
module SdsArgs {

  import opened Sds
  import opened Wrappers

  // ---------------------------------------------------------------------------
  // Splitting
  // ---------------------------------------------------------------------------

  /** Whether the reader is inside quotes, and inside which. */
  datatype Quote = Unquoted | Double | Single

  /** An argument and the text behind it. */
  datatype Cut = Cut(text: string, rest: string)

  /** The next character; a line ends at its first NUL. */
  function Head(s: string): char { if s == "" then '\0' else s[0] }

  predicate EndsToken(c: char) { c == ' ' || c == '\n' || c == '\r' || c == '\t' || c == '\0' }

  predicate IsQuote(c: char) { c == '"' || c == '\'' }

  predicate IsHexDigit(c: char) { '0' <= c <= '9' || 'a' <= c <= 'f' || 'A' <= c <= 'F' }

  function HexValue(c: char): (v: nat)
    requires IsHexDigit(c)
    ensures v < 16
  {
    if c <= '9' then c as int - '0' as int
    else if c <= 'F' then c as int - 'A' as int + 10
    else c as int - 'a' as int + 10
  }

  predicate IsHexEscape(s: string) {
    |s| >= 4 && s[0] == '\\' && s[1] == 'x' && IsHexDigit(s[2]) && IsHexDigit(s[3])
  }

  /** The character behind a backslash in double quotes. */
  function Unescaped(c: char): char {
    if c == 'n' then '\n'
    else if c == 'r' then '\r'
    else if c == 't' then '\t'
    else if c == 'b' then 8 as char
    else if c == 'a' then 7 as char
    else c
  }

  /** What one round of the reader does: refuse the line, end the argument, or go on, each behind n characters. */
  datatype Move = Refused | Ends(n: nat) | Goes(q: Quote, n: nat, out: string)

  /** At a closing quote: only a blank or the end may follow. */
  function Closing(s: string): Move
    requires s != ""
  {
    if Head(s[1..]) != '\0' && !IsBlank(s[1]) then Refused else Ends(1)
  }

  function DoubleMove(s: string): Move {
    if IsHexEscape(s) then Goes(Double, 4, [(HexValue(s[2]) * 16 + HexValue(s[3])) as char])
    else if Head(s) == '\\' && Head(s[1..]) != '\0' then Goes(Double, 2, [Unescaped(s[1])])
    else if Head(s) == '"' then Closing(s)
    else if Head(s) == '\0' then Refused
    else Goes(Double, 1, [s[0]])
  }

  function SingleMove(s: string): Move {
    if Head(s) == '\\' && Head(s[1..]) == '\'' then Goes(Single, 2, "'")
    else if Head(s) == '\'' then Closing(s)
    else if Head(s) == '\0' then Refused
    else Goes(Single, 1, [s[0]])
  }

  function UnquotedMove(s: string): Move {
    if EndsToken(Head(s)) then Ends(if Head(s) == '\0' then 0 else 1)
    else if s[0] == '"' then Goes(Double, 1, "")
    else if s[0] == '\'' then Goes(Single, 1, "")
    else Goes(Unquoted, 1, [s[0]])
  }

  function MoveOf(q: Quote, s: string): (m: Move)
    ensures !m.Refused? ==> m.n <= |s| && forall k :: 0 <= k < m.n ==> s[k] != '\0'
    ensures m.Goes? ==> 0 < m.n && |m.out| <= m.n
    ensures q != Unquoted ==> !m.Refused? ==> m.n > 0 && (m.Goes? ==> m.q == q)
    ensures q == Unquoted && m.Ends? ==> m.n == (if Head(s) == '\0' then 0 else 1)
    ensures q == Unquoted && m.Goes? ==> m.n == 1 && (m.q == Unquoted <==> !IsQuote(s[0]))
    ensures q == Unquoted && m.Goes? ==> m.out == if IsQuote(s[0]) then "" else [s[0]]
    ensures q == Unquoted ==> !m.Refused? && (m.Ends? <==> EndsToken(Head(s)))
  {
    match q
    case Double => DoubleMove(s)
    case Single => SingleMove(s)
    case Unquoted => UnquotedMove(s)
  }

  /** Reading on in an argument of which acc is read. */
  function Token(q: Quote, s: string, acc: string): (r: Option<Cut>)
    ensures r.Some? ==> |r.value.rest| <= |s|
    ensures r.Some? && (q != Unquoted || !EndsToken(Head(s))) ==> |r.value.rest| < |s|
    decreases |s|
  {
    var m := MoveOf(q, s);
    match m
    case Refused => None
    case Ends(n) => Some(Cut(acc, s[n..]))
    case Goes(r, n, out) => Token(r, s[n..], acc + out)
  }

  function Behind(ts: seq<string>, more: Option<seq<string>>): Option<seq<string>> {
    if more.None? then None else Some(ts + more.value)
  }

  /** The arguments of a line, or nothing if a quote is not closed or text follows a closing quote. */
  function SplitArgs(s: string): Option<seq<string>>
    decreases |s|
  {
    if Head(s) == '\0' then Some([])
    else if IsBlank(s[0]) then SplitArgs(s[1..])
    else
      var t := Token(Unquoted, s, "");
      if t.None? then None else Behind([t.value.text], SplitArgs(t.value.rest))
  }

  function QuoteOf(inq: bool, insq: bool): Quote { if inq then Double else if insq then Single else Unquoted }

  lemma UnquotedIs(s: string)
    ensures MoveOf(Unquoted, s)
      == if EndsToken(Head(s)) then Ends(if Head(s) == '\0' then 0 else 1)
         else if s[0] == '"' then Goes(Double, 1, "")
         else if s[0] == '\'' then Goes(Single, 1, "")
         else Goes(Unquoted, 1, [s[0]])
  {
  }

  lemma TokenStep(q: Quote, line: string, p: nat, acc: string)
    requires p <= |line|
    ensures var m := MoveOf(q, line[p..]);
      Token(q, line[p..], acc)
      == if m.Refused? then None
      else if m.Ends? then Some(Cut(acc, line[p + m.n..]))
      else Token(m.q, line[p + m.n..], acc + m.out)
  {
    var m := MoveOf(q, line[p..]);
    if !m.Refused? {
      assert line[p..][m.n..] == line[p + m.n..];
    }
  }

  /** How the character at p and the flags decide the round in quotes: whether the line is refused or the
      argument ends, what is added, and where the round leaves p. */
  method RoundInQuotes(line: string, at: nat, inq: bool) returns (fail: bool, done: bool, p: nat, out: string)
    requires at <= |line|
    ensures fail ==> MoveOf(QuoteOf(inq, true), line[at..]) == Refused
    ensures !fail ==> at <= p < |line| && (done ==> out == "")
    ensures !fail ==>
      MoveOf(QuoteOf(inq, true), line[at..])
      == if done then Ends(p + 1 - at) else Goes(QuoteOf(inq, true), p + 1 - at, out)
  {
    var s := line[at..];
    fail, done, p, out := false, false, at, "";
    if inq && IsHexEscape(s) {
      out := [(HexValue(s[2]) * 16 + HexValue(s[3])) as char];
      p := p + 3;
    } else if inq && Head(s) == '\\' && Head(s[1..]) != '\0' {
      p := p + 1;
      out := [Unescaped(s[1])];
    } else if !inq && Head(s) == '\\' && Head(s[1..]) == '\'' {
      p := p + 1;
      out := "'";
    } else if Head(s) == (if inq then '"' else '\'') {
      fail := Head(s[1..]) != '\0' && !IsBlank(s[1]);
      done := true;
    } else if Head(s) == '\0' {
      fail := true;
    } else {
      out := [s[0]];
    }
  }

  /** The loop over the characters of one argument. */
  method GetToken(line: string, start: nat) returns (ok: bool, current: string, p: nat)
    requires start <= |line|
    ensures start <= p <= |line|
    ensures Token(Unquoted, line[start..], "") == if ok then Some(Cut(current, line[p..])) else None
  {
    hide MoveOf, Token, IsBlank;
    current, p := "", start;
    var inq, insq, done := false, false, false;
    while !done
      invariant start <= p <= |line| && !(inq && insq)
      invariant Token(Unquoted, line[start..], "")
        == if done then Some(Cut(current, line[p..])) else Token(QuoteOf(inq, insq), line[p..], current)
      decreases !done, |line| - p
    {
      var at := p;
      TokenStep(QuoteOf(inq, insq), line, p, current);
      assert current + "" == current;
      if inq || insq {
        var fail, out;
        fail, done, p, out := RoundInQuotes(line, p, inq);
        if fail {
          return false, current, at;
        }
        p := p + 1;
        current := current + out;
      } else {
        var c := Head(line[p..]);
        UnquotedIs(line[p..]);
        if EndsToken(c) {
          done := true;
        } else if c == '"' {
          inq := true;
        } else if c == '\'' {
          insq := true;
        } else {
          current := current + [c];
        }
        if c != '\0' {
          p := p + 1;
        }
      }
    }
    ok := true;
  }

  lemma BehindNone(more: Option<seq<string>>)
    ensures Behind([], more) == more
  {
    if more.Some? {
      assert [] + more.value == more.value;
    }
  }

  lemma BehindMore(ts: seq<string>, t: string, more: Option<seq<string>>)
    ensures Behind(ts, Behind([t], more)) == Behind(ts + [t], more)
  {
    if more.Some? {
      assert ts + ([t] + more.value) == ts + [t] + more.value;
    }
  }

  /** The loop over the arguments of a line. */
  method SplitLine(line: string) returns (r: Option<seq<string>>)
    ensures r == SplitArgs(line)
  {
    hide Token;
    var vector: seq<string> := [];
    var p := 0;
    assert line[0..] == line;
    BehindNone(SplitArgs(line));
    while true
      invariant 0 <= p <= |line|
      invariant SplitArgs(line) == Behind(vector, SplitArgs(line[p..]))
      decreases |line| - p
    {
      while p < |line| && line[p] != '\0' && IsBlank(line[p])
        invariant 0 <= p <= |line|
        invariant SplitArgs(line) == Behind(vector, SplitArgs(line[p..]))
      {
        assert line[p..][1..] == line[p + 1..];
        p := p + 1;
      }
      if Head(line[p..]) == '\0' {
        assert vector + [] == vector;
        return Some(vector);
      }
      var ok, current, end := GetToken(line, p);
      if !ok {
        return None;
      }
      BehindMore(vector, current, SplitArgs(line[end..]));
      vector := vector + [current];
      p := end;
    }
  }

  // ---------------------------------------------------------------------------
  // Which arguments survive without quotes
  // ---------------------------------------------------------------------------

  /** An argument that can stand on a line as it is. */
  ghost predicate Bare(t: string) {
    && t != "" && !IsBlank(t[0])
    && forall k :: 0 <= k < |t| ==> !EndsToken(t[k]) && !IsQuote(t[k])
  }

  ghost predicate AllBare(ts: seq<string>) { forall i :: 0 <= i < |ts| ==> Bare(ts[i]) }

  lemma {:induction false} TokenOf(t: string, rest: string, acc: string)
    requires forall k :: 0 <= k < |t| ==> !EndsToken(t[k]) && !IsQuote(t[k])
    requires EndsToken(Head(rest))
    ensures Token(Unquoted, t + rest, acc) == Some(Cut(acc + t, if Head(rest) == '\0' then rest else rest[1..]))
    decreases |t|
  {
    hide MoveOf;
    var s := t + rest;
    if t == "" {
      assert s == rest && acc + t == acc;
    } else {
      assert s[0] == t[0] && s[1..] == t[1..] + rest;
      TokenOf(t[1..], rest, acc + [t[0]]);
      assert acc + [t[0]] + t[1..] == acc + t;
    }
  }

  /** A line that begins with an argument standing as it is. */
  lemma {:induction false} SplitBare(t: string, rest: string)
    requires Bare(t) && EndsToken(Head(rest))
    ensures SplitArgs(t + rest) == Behind([t], SplitArgs(if Head(rest) == '\0' then rest else rest[1..]))
  {
    assert (t + rest)[0] == t[0];
    TokenOf(t, rest, "");
    assert "" + t == t;
  }

  lemma {:induction false} SplitJoined(ts: seq<string>)
    requires AllBare(ts)
    ensures SplitArgs(Joined(ts)) == Some(ts)
  {
    if ts != [] {
      var rest := if |ts| == 1 then "" else " " + Joined(ts[1..]);
      assert Joined(ts) == ts[0] + rest;
      SplitBare(ts[0], rest);
      SplitJoined(ts[1..]);
      assert |ts| > 1 ==> rest[1..] == Joined(ts[1..]);
      assert [ts[0]] + ts[1..] == ts;
    }
  }

  lemma {:induction false} TokenSuffix(q: Quote, s: string, acc: string)
    requires Token(q, s, acc).Some?
    ensures var n := |s| - |Token(q, s, acc).value.rest|;
      Token(q, s, acc).value.rest == s[n..] && forall k :: 0 <= k < n ==> s[k] != '\0'
    decreases |s|
  {
    hide MoveOf;
    var n, m := |s| - |Token(q, s, acc).value.rest|, MoveOf(q, s);
    if m.Goes? {
      TokenSuffix(m.q, s[m.n..], acc + m.out);
      SuffixOfSuffix(s, m.n, n);
    }
  }

  lemma SuffixOfSuffix(s: string, a: nat, n: nat)
    requires a <= n <= |s|
    ensures s[a..][n - a..] == s[n..] && forall k :: a <= k < |s| ==> s[k] == s[a..][k - a]
  {
  }

  /** Closing a quote costs at least a character. */
  lemma {:induction false} QuotedSize(q: Quote, s: string, acc: string)
    requires q != Unquoted && Token(q, s, acc).Some?
    ensures var c := Token(q, s, acc).value; |c.text| + |c.rest| + 1 <= |acc| + |s|
    decreases |s|
  {
    hide MoveOf;
    var m := MoveOf(q, s);
    if m.Goes? {
      QuotedSize(m.q, s[m.n..], acc + m.out);
    }
  }

  /** Quotes cost at least two characters, and a following argument at least one. */
  lemma {:induction false} TokenSize(s: string, acc: string)
    requires Token(Unquoted, s, acc).Some?
    ensures var c := Token(Unquoted, s, acc).value;
      && |c.text| + |c.rest| + (if Head(c.rest) == '\0' then 0 else 1) <= |acc| + |s|
      && (|c.text| + |c.rest| + 1 >= |acc| + |s| ==>
        forall k :: 0 <= k < |s| - |c.rest| ==> !IsQuote(s[k]))
    decreases |s|
  {
    hide MoveOf;
    var c, m := Token(Unquoted, s, acc).value, MoveOf(Unquoted, s);
    if m.Goes? {
      if m.q == Unquoted {
        TokenSize(s[1..], acc + m.out);
        assert forall k :: 1 <= k < |s| ==> s[k] == s[1..][k - 1];
      } else {
        QuotedSize(m.q, s[1..], acc + m.out);
      }
    }
  }

  lemma {:induction false} JoinedSize(t: string, ts: seq<string>)
    ensures |Joined([t] + ts)| == |t| + if ts == [] then 0 else 1 + |Joined(ts)|
  {
    assert ([t] + ts)[1..] == ts;
  }

  ghost predicate Quoteless(s: string) { forall k :: 0 <= k < |s| ==> !IsQuote(s[k]) && s[k] != '\0' }

  /** The arguments joined again are no longer than the line, and shorter if the line has a quote or a NUL. */
  lemma {:induction false} SplitSize(s: string)
    requires SplitArgs(s).Some?
    ensures var n := |Joined(SplitArgs(s).value)|; n <= |s| && (n == |s| ==> Quoteless(s))
    decreases |s|
  {
    hide Token;
    if Head(s) != '\0' {
      if IsBlank(s[0]) {
        SplitSize(s[1..]);
      } else {
        var c := Token(Unquoted, s, "").value;
        TokenSize(s, "");
        TokenSuffix(Unquoted, s, "");
        SplitSize(c.rest);
        JoinedSize(c.text, SplitArgs(c.rest).value);
        var m := |s| - |c.rest|;
        assert forall k :: m <= k < |s| ==> s[k] == c.rest[k - m];
      }
    }
  }

  lemma {:induction false} BareToken(s: string, acc: string)
    requires Quoteless(s)
    ensures Token(Unquoted, s, acc).Some?
    ensures var c := Token(Unquoted, s, acc).value;
      var n := |c.text| - |acc|;
      && 0 <= n <= |s| && c.text == acc + s[..n] && Quoteless(c.rest)
      && (forall k :: 0 <= k < n ==> !EndsToken(s[k])) && (n == 0 ==> EndsToken(Head(s)))
    decreases |s|
  {
    hide MoveOf;
    if EndsToken(Head(s)) {
      assert acc + s[..0] == acc;
    } else {
      BareToken(s[1..], acc + [s[0]]);
      FirstOfToken(s, acc, |Token(Unquoted, s, acc).value.text| - |acc|);
    }
  }

  lemma FirstOfToken(s: string, acc: string, n: nat)
    requires 0 < n <= |s|
    ensures acc + [s[0]] + s[1..][..n - 1] == acc + s[..n]
    ensures forall k :: 0 < k < n ==> s[k] == s[1..][k - 1]
  {
    assert s[..n] == [s[0]] + s[1..][..n - 1];
  }

  lemma {:induction false} SplitQuoteless(s: string)
    requires Quoteless(s)
    ensures SplitArgs(s).Some? && AllBare(SplitArgs(s).value)
    decreases |s|
  {
    hide Token;
    if Head(s) != '\0' {
      if IsBlank(s[0]) {
        SplitQuoteless(s[1..]);
      } else {
        BareToken(s, "");
        var c := Token(Unquoted, s, "").value;
        SplitQuoteless(c.rest);
        assert "" + s[..|c.text|] == s[..|c.text|];
        assert Bare(c.text);
      }
    }
  }

  /** The arguments split from a joined line are those joined exactly if each can stand as it is. */
  lemma {:induction false} SplitJoinedIff(ts: seq<string>)
    ensures SplitArgs(Joined(ts)) == Some(ts) <==> AllBare(ts)
  {
    if AllBare(ts) {
      SplitJoined(ts);
    }
    if SplitArgs(Joined(ts)) == Some(ts) {
      SplitSize(Joined(ts));
      SplitQuoteless(Joined(ts));
    }
  }

  // ---------------------------------------------------------------------------
  // Quoting
  // ---------------------------------------------------------------------------

  predicate IsPrint(c: char) { ' ' <= c <= '~' }

  predicate IsByte(c: char) { c as int < 256 }

  function HexDigit(n: nat): char
    requires n < 16
  {
    if n < 10 then (n + '0' as int) as char else (n - 10 + 'a' as int) as char
  }

  function HexEscape(n: nat): (e: string)
    ensures |e| == 4
  {
    ['\\', 'x', HexDigit(n / 16 % 16), HexDigit(n % 16)]
  }

  /** One character as it stands between double quotes. */
  function Escaped(c: char): (e: string)
    ensures 1 <= |e| <= 4
  {
    if c == '\\' || c == '"' then ['\\', c]
    else if c == '\n' then "\\n"
    else if c == '\r' then "\\r"
    else if c == '\t' then "\\t"
    else if c == 7 as char then "\\a"
    else if c == 8 as char then "\\b"
    else if IsPrint(c) then [c]
    else HexEscape(c as int)
  }

  ghost predicate AllBytes(s: string) { forall i :: 0 <= i < |s| ==> IsByte(s[i]) }

  function EscapedAll(s: string): string { Flat(Escaped, s) }

  function Repr(s: string): string { "\"" + EscapedAll(s) + "\"" }

  /** Whether a character asks for quoting; a single quote does not. */
  predicate NeedsEscape(c: char) { c == '\\' || c == '"' || !IsPrint(c) || IsBlank(c) }

  predicate NeedsRepr(s: string) { exists i :: 0 <= i < |s| && NeedsEscape(s[i]) }

  /** A string as an argument on a line: quoted if that is asked for. */
  function Field(s: string): string { if NeedsRepr(s) then Repr(s) else s }

  method CatRepr(buf: string, s: string) returns (r: string)
    ensures r == buf + Repr(s)
  {
    r := buf + "\"";
    assert s[..0] == "";
    for k := 0 to |s|
      invariant r == buf + "\"" + EscapedAll(s[..k])
    {
      r := r + Escaped(s[k]);
      FlatMore(Escaped, s, k);
    }
    assert s[..|s|] == s;
    r := r + "\"";
  }

  method FindEscape(s: string) returns (found: bool)
    ensures found == NeedsRepr(s)
  {
    for k := 0 to |s|
      invariant forall i :: 0 <= i < k ==> !NeedsEscape(s[i])
    {
      if NeedsEscape(s[k]) {
        return true;
      }
    }
    return false;
  }

  lemma HexDigitValue(n: nat)
    requires n < 16
    ensures IsHexDigit(HexDigit(n)) && HexValue(HexDigit(n)) == n
  {
  }

  lemma HexMove(n: nat, rest: string)
    requires n < 256
    ensures DoubleMove(HexEscape(n) + rest) == Goes(Double, 4, [n as char])
  {
    var s := HexEscape(n) + rest;
    HexDigitValue(n / 16 % 16);
    HexDigitValue(n % 16);
    assert s[0] == '\\' && s[1] == 'x' && s[2] == HexDigit(n / 16 % 16) && s[3] == HexDigit(n % 16);
    assert n / 16 % 16 * 16 + n % 16 == n;
  }

  lemma PairMove(c: char, rest: string)
    requires c != 'x' && c != '\0'
    ensures DoubleMove(['\\', c] + rest) == Goes(Double, 2, [Unescaped(c)])
  {
    var s := ['\\', c] + rest;
    assert s[0] == '\\' && s[1] == c && s[1..][0] == c;
  }

  lemma PlainMove(c: char, rest: string)
    requires c != '\\' && c != '"' && c != '\0'
    ensures DoubleMove([c] + rest) == Goes(Double, 1, [c])
  {
    assert ([c] + rest)[0] == c;
  }

  /** One escaped character is read in one round. */
  lemma {:induction false} EscapedMove(c: char, rest: string)
    requires IsByte(c)
    ensures MoveOf(Double, Escaped(c) + rest) == Goes(Double, |Escaped(c)|, [c])
  {
    hide DoubleMove, HexEscape;
    var e := Escaped(c);
    if e == [c] {
      PlainMove(c, rest);
    } else if |e| == 2 {
      PairMove(e[1], rest);
    } else {
      HexMove(c as int, rest);
    }
  }

  /** A text that stands for a character, whatever follows. */
  ghost predicate StandsFor(e: string, c: char) {
    forall more, acc {:trigger Token(Double, e + more, acc)} ::
      Token(Double, e + more, acc) == Token(Double, more, acc + [c])
  }

  lemma EscapedStands(c: char)
    requires IsByte(c)
    ensures StandsFor(Escaped(c), c)
  {
    var e := Escaped(c);
    forall more, acc ensures Token(Double, e + more, acc) == Token(Double, more, acc + [c]) {
      EscapedMove(c, more);
      assert (e + more)[|e|..] == more;
    }
  }

  lemma ClosesHere(rest: string, acc: string)
    requires Head(rest) == '\0' || IsBlank(rest[0])
    ensures Token(Double, "\"" + rest, acc) == Some(Cut(acc, rest))
  {
    assert ("\"" + rest)[1..] == rest;
  }

  lemma {:induction false} FlatToken(enc: char -> string, s: string, rest: string, acc: string)
    requires forall i :: 0 <= i < |s| ==> StandsFor(enc(s[i]), s[i])
    ensures Token(Double, Flat(enc, s) + rest, acc) == Token(Double, rest, acc + s)
    decreases |s|
  {
    hide Token;
    if s == "" {
      assert Flat(enc, s) + rest == rest && acc + s == acc;
    } else {
      var e, f := enc(s[0]), Flat(enc, s[1..]);
      assert StandsFor(e, s[0]) && Flat(enc, s) == e + f;
      Regroup(e, f, rest);
      FlatToken(enc, s[1..], rest, acc + [s[0]]);
      assert acc + [s[0]] + s[1..] == acc + s;
    }
  }

  lemma {:induction false} ReprToken(s: string, rest: string, acc: string)
    requires AllBytes(s) && (Head(rest) == '\0' || IsBlank(rest[0]))
    ensures Token(Double, EscapedAll(s) + ("\"" + rest), acc) == Some(Cut(acc + s, rest))
  {
    forall i | 0 <= i < |s| ensures StandsFor(Escaped(s[i]), s[i]) {
      EscapedStands(s[i]);
    }
    FlatToken(Escaped, s, "\"" + rest, acc);
    ClosesHere(rest, acc + s);
  }

  /** Whatever bytes a string has, it is read back from between its quotes. */
  lemma {:induction false} SplitRepr(s: string, rest: string)
    requires AllBytes(s) && (Head(rest) == '\0' || IsBlank(rest[0]))
    ensures SplitArgs(Repr(s) + rest) == Behind([s], SplitArgs(rest))
  {
    hide MoveOf, EscapedAll;
    var t := Repr(s) + rest;
    assert t[0] == '"' && t[1..] == EscapedAll(s) + ("\"" + rest);
    UnquotedIs(t);
    ReprToken(s, rest, "");
    assert "" + "" == "" && "" + s == s;
  }

  lemma {:induction false} NeverClosed(s: string, acc: string)
    requires '\'' !in s
    ensures Token(Single, s, acc) == None
    decreases |s|
  {
    var m := MoveOf(Single, s);
    assert |s| > 1 ==> Head(s[1..]) == s[1];
    if m.Goes? {
      NeverClosed(s[m.n..], acc + m.out);
    }
  }

  /** Inside single quotes, none of which is the last character of t, and no quote behind t. */
  lemma {:induction false} BadlyClosed(t: string, rest: string, acc: string)
    requires t != "" && t[|t| - 1] != '\'' && !NeedsRepr(t) && '\'' !in rest
    ensures Token(Single, t + rest, acc) == None
    decreases |t|
  {
    var s := t + rest;
    assert s[0] == t[0] && !NeedsEscape(t[0]);
    assert s[1..] == t[1..] + rest;
    if t[0] == '\'' {
      assert s[1] == t[1] && !NeedsEscape(t[1]);
    } else if |t| == 1 {
      assert t[1..] == "" && s[1..] == rest;
      NeverClosed(s[1..], acc + [s[0]]);
    } else {
      assert forall i :: 0 <= i < |t[1..]| ==> t[1..][i] == t[i + 1];
      BadlyClosed(t[1..], rest, acc + [s[0]]);
    }
  }

  /** An unquoted argument with a single quote in it spoils the line. */
  lemma {:induction false} SpoiledToken(t: string, rest: string, acc: string)
    requires '\'' in t && t[|t| - 1] != '\'' && !NeedsRepr(t) && '\'' !in rest
    ensures Token(Unquoted, t + rest, acc) == None
    decreases |t|
  {
    var s := t + rest;
    assert s[0] == t[0] && !NeedsEscape(t[0]);
    assert s[1..] == t[1..] + rest;
    assert forall i :: 0 <= i < |t[1..]| ==> t[1..][i] == t[i + 1];
    if t[0] == '\'' {
      BadlyClosed(t[1..], rest, acc + "");
    } else {
      SpoiledToken(t[1..], rest, acc + [s[0]]);
    }
  }

  /** A string printed in front of other text is the first argument of the line, unless it has a single quote
      and nothing that asks for quoting: then the line is refused. */
  lemma {:induction false} SplitField(s: string, rest: string)
    requires AllBytes(s) && s != "" && s[|s| - 1] != '\'' && '\'' !in rest && Head(rest) == ' '
    ensures SplitArgs(Field(s) + rest)
      == if NeedsRepr(s) || '\'' !in s then Behind([s], SplitArgs(rest[1..])) else None
  {
    if NeedsRepr(s) {
      SplitRepr(s, rest);
    } else {
      assert !NeedsEscape(s[0]) && (s + rest)[0] == s[0];
      if '\'' in s {
        SpoiledToken(s, rest, "");
      } else {
        assert forall k :: 0 <= k < |s| ==> !NeedsEscape(s[k]);
        SplitBare(s, rest);
      }
    }
  }

  // ---------------------------------------------------------------------------
  // Escapes, quotes and refusals
  // ---------------------------------------------------------------------------

  lemma Stands(e: string, c: char)
    requires forall more :: MoveOf(Double, e + more) == Goes(Double, |e|, [c])
    ensures StandsFor(e, c)
  {
    hide MoveOf;
    forall more, acc ensures Token(Double, e + more, acc) == Token(Double, more, acc + [c]) {
      assert (e + more)[|e|..] == more;
    }
  }

  lemma PairStands(c: char)
    requires c != 'x' && c != '\0'
    ensures StandsFor(['\\', c], Unescaped(c))
  {
    forall more ensures MoveOf(Double, ['\\', c] + more) == Goes(Double, 2, [Unescaped(c)]) {
      PairMove(c, more);
    }
    Stands(['\\', c], Unescaped(c));
  }

  /** Which characters the escapes stand for; any other character behind a backslash stands for itself. */
  lemma {:induction false} EscapesAre(c: char)
    requires c !in {'\0', 'x', 'n', 'r', 't', 'a', 'b'}
    ensures StandsFor(['\\', 'n'], 10 as char) && Escaped(10 as char) == ['\\', 'n']
    ensures StandsFor(['\\', 'r'], 13 as char) && Escaped(13 as char) == ['\\', 'r']
    ensures StandsFor(['\\', 't'], 9 as char) && Escaped(9 as char) == ['\\', 't']
    ensures StandsFor(['\\', 'a'], 7 as char) && Escaped(7 as char) == ['\\', 'a']
    ensures StandsFor(['\\', 'b'], 8 as char) && Escaped(8 as char) == ['\\', 'b']
    ensures StandsFor(['\\', c], c)
    ensures Escaped(' ') == " " && Escaped('~') == "~" && Escaped(127 as char) == ['\\', 'x', '7', 'f']
  {
    hide StandsFor;
    PairStands('n');
    PairStands('r');
    PairStands('t');
    PairStands('a');
    PairStands('b');
    PairStands(c);
  }

  /** A character that is not printed is written as two hexadecimal digits, and reading takes digits of both cases. */
  lemma {:induction false} HexIs(rest: string)
    ensures Escaped(0xAB as char) == ['\\', 'x', 'a', 'b']
    ensures MoveOf(Double, ['\\', 'x', 'a', 'B'] + rest) == Goes(Double, 4, [0xAB as char])
  {
    var s := ['\\', 'x', 'a', 'B'] + rest;
    assert s[0] == '\\' && s[1] == 'x' && s[2] == 'a' && s[3] == 'B';
  }

  /** A double quote that is not closed, or closed in front of other text, spoils the line. */
  lemma {:induction false} DoubleRefused(s: string, rest: string)
    requires AllBytes(s) && Head(rest) != '\0' && !IsBlank(rest[0])
    ensures SplitArgs("\"" + EscapedAll(s)) == None
    ensures SplitArgs(Repr(s) + rest) == None
  {
    hide Flat, Token;
    forall i | 0 <= i < |s| ensures StandsFor(Escaped(s[i]), s[i]) {
      EscapedStands(s[i]);
    }
    var t, u := "\"" + EscapedAll(s), Repr(s) + rest;
    assert t[0] == '"' && t[1..] == EscapedAll(s) + "";
    assert u[0] == '"' && u[1..] == EscapedAll(s) + ("\"" + rest);
    Opens(t);
    Opens(u);
    FlatToken(Escaped, s, "", "");
    FlatToken(Escaped, s, "\"" + rest, "");
    Spoiled(rest, "" + s);
  }

  lemma Opens(t: string)
    requires t != "" && t[0] == '"'
    ensures Token(Unquoted, t, "") == Token(Double, t[1..], "")
  {
    UnquotedIs(t);
    assert "" + "" == "";
  }

  lemma Spoiled(rest: string, acc: string)
    requires Head(rest) != '\0' && !IsBlank(rest[0])
    ensures Token(Double, "", acc) == None && Token(Double, "\"" + rest, acc) == None
    ensures Token(Single, "'" + rest, acc) == None
  {
    assert ("\"" + rest)[1..] == rest && ("'" + rest)[1..] == rest;
  }

  /** A string between single quotes, in which only the single quote is escaped. */
  function InSingle(c: char): string { if c == '\'' then "\\'" else [c] }

  function SingleQuoted(s: string): string { "'" + Flat(InSingle, s) + "'" }

  lemma SingleClosesHere(rest: string, acc: string)
    requires Head(rest) == '\0' || IsBlank(rest[0])
    ensures Token(Single, "'" + rest, acc) == Some(Cut(acc, rest))
  {
    assert ("'" + rest)[1..] == rest;
  }

  /** One character is read back unless it is a backslash in front of a quote. */
  lemma SingleStep(c: char, more: string, acc: string)
    requires c != '\0' && (c == '\\' ==> Head(more) != '\'')
    ensures Token(Single, InSingle(c) + more, acc) == Token(Single, more, acc + [c])
  {
    var e := InSingle(c);
    var s := e + more;
    assert s[|e|..] == more && s[0] == e[0];
    assert c == '\'' ==> s[1] == '\'' && s[1..][0] == '\'';
    assert c == '\\' ==> s[1..] == more;
  }

  /** What stands behind a character is not a quote, unless it is the closing one. */
  lemma FlatHead(s: string)
    requires s != ""
    ensures Flat(InSingle, s) != "" && Head(Flat(InSingle, s)) != '\''
  {
  }

  lemma {:induction false} SingleToken(s: string, rest: string, acc: string)
    requires (forall i :: 0 <= i < |s| ==> s[i] != '\0') && (s == "" || s[|s| - 1] != '\\')
    requires Head(rest) == '\0' || IsBlank(rest[0])
    ensures Token(Single, Flat(InSingle, s) + ("'" + rest), acc) == Some(Cut(acc + s, rest))
    decreases |s|
  {
    hide Token, MoveOf;
    if s == "" {
      assert Flat(InSingle, s) + ("'" + rest) == "'" + rest && acc + s == acc;
      SingleClosesHere(rest, acc);
    } else {
      var e, f := InSingle(s[0]), Flat(InSingle, s[1..]);
      Regroup(e, f, "'" + rest);
      if |s| > 1 {
        FlatHead(s[1..]);
        assert Head(f + ("'" + rest)) == Head(f);
      }
      SingleStep(s[0], f + ("'" + rest), acc);
      SingleToken(s[1..], rest, acc + [s[0]]);
      assert acc + [s[0]] + s[1..] == acc + s;
    }
  }

  /** What stands between single quotes is read back, if it has no NUL and does not end in a backslash. */
  lemma {:induction false} SplitSingle(s: string, rest: string)
    requires (forall i :: 0 <= i < |s| ==> s[i] != '\0') && (s == "" || s[|s| - 1] != '\\')
    requires Head(rest) == '\0' || IsBlank(rest[0])
    ensures SplitArgs(SingleQuoted(s) + rest) == Behind([s], SplitArgs(rest))
  {
    hide MoveOf, Flat;
    var t := SingleQuoted(s) + rest;
    assert t[0] == '\'' && t[1..] == Flat(InSingle, s) + ("'" + rest);
    UnquotedIs(t);
    SingleToken(s, rest, "");
    assert "" + "" == "" && "" + s == s;
  }
}
