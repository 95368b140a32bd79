/**
 The retained rules as text: tokens separated by single blanks in a
 NUL-terminated buffer, from which superseded rules are cut in place.
 */
module AclText {

  import opened AclRules
  import opened Sds

  const NUL: char := '\0'

  // ---------------------------------------------------------------------------
  // Tokens
  // ---------------------------------------------------------------------------

  ghost predicate IsToken(s: string) {
    s != "" && forall i :: 0 <= i < |s| ==> s[i] != ' ' && s[i] != NUL
  }

  ghost predicate AreTokens(ts: seq<string>) {
    forall i :: 0 <= i < |ts| ==> IsToken(ts[i])
  }

  /** What stands before the tokens of rest when the tokens of done precede them. */
  function Before(done: seq<string>, rest: seq<string>): string {
    if done == [] then "" else if rest == [] then Joined(done) else Joined(done) + " "
  }

  lemma {:induction false} JoinedConcat(done: seq<string>, rest: seq<string>)
    ensures Joined(done + rest) == Before(done, rest) + Joined(rest)
  {
    if done == [] {
      assert done + rest == rest;
    } else if rest == [] {
      assert done + rest == done;
    } else if |done| == 1 {
      assert (done + rest)[1..] == rest;
    } else {
      JoinedConcat(done[1..], rest);
      assert (done + rest)[1..] == done[1..] + rest;
    }
  }

  lemma {:induction false} JoinedNoNul(ts: seq<string>)
    requires AreTokens(ts)
    ensures forall i :: 0 <= i < |Joined(ts)| ==> Joined(ts)[i] != NUL
  {
    if |ts| > 1 {
      JoinedNoNul(ts[1..]);
    }
  }

  /** The tokens that a rule named name does not supersede; the sign in front of a token is not compared. */
  function Kept(ts: seq<string>, name: string): seq<string> {
    if ts == [] then []
    else if ts[0] != "" && Matches(ts[0][1..], name) then Kept(ts[1..], name)
    else [ts[0]] + Kept(ts[1..], name)
  }

  // ---------------------------------------------------------------------------
  // C strings
  // ---------------------------------------------------------------------------

  /** The buffer starts with s and a terminator. */
  ghost predicate Holds(buf: array<char>, s: string)
    reads buf
  {
    |s| < buf.Length && buf[..|s|] == s && buf[|s|] == NUL
  }

  /** The first c at or after from, or the terminator when there is none. */
  method StrChr(buf: array<char>, from: nat, c: char, ghost s: string) returns (found: bool, at: nat)
    requires Holds(buf, s) && from <= |s|
    requires c != NUL
    requires forall i :: 0 <= i < |s| ==> s[i] != NUL
    ensures from <= at <= |s|
    ensures forall i :: from <= i < at ==> s[i] != c
    ensures found <==> at < |s|
    ensures found ==> s[at] == c
  {
    at := from;
    HeldChars(buf, s);
    while buf[at] != NUL && buf[at] != c
      invariant from <= at <= |s|
      invariant forall i :: from <= i < at ==> s[i] != c
      decreases |s| - at
    {
      at := at + 1;
    }
    found := buf[at] == c;
  }

  method StrLen(buf: array<char>, from: nat, ghost s: string) returns (n: nat)
    requires Holds(buf, s) && from <= |s|
    requires forall i :: 0 <= i < |s| ==> s[i] != NUL
    ensures n == |s| - from
  {
    n := 0;
    HeldChars(buf, s);
    while buf[from + n] != NUL
      invariant from + n <= |s|
      decreases |s| - from - n
    {
      n := n + 1;
    }
  }

  method MemMove(buf: array<char>, dst: nat, src: nat, n: nat)
    requires dst <= src && src + n <= buf.Length
    modifies buf
    ensures forall i :: dst <= i < dst + n ==> buf[i] == old(buf[src - dst + i])
    ensures forall i :: 0 <= i < dst ==> buf[i] == old(buf[i])
  {
    for k := 0 to n
      invariant forall i :: dst <= i < dst + k ==> buf[i] == old(buf[src - dst + i])
      invariant forall i :: 0 <= i < dst ==> buf[i] == old(buf[i])
      invariant forall i :: dst + k <= i < buf.Length ==> buf[i] == old(buf[i])
    {
      buf[dst + k] := buf[src + k];
    }
  }

  lemma HeldChars(buf: array<char>, s: string)
    requires Holds(buf, s)
    ensures forall i :: 0 <= i < |s| ==> buf[i] == s[i]
  {
    assert forall i :: 0 <= i < |s| ==> buf[i] == buf[..|s|][i];
  }

  /** Cuts the characters from dst up to src out of the string in the buffer. */
  method Cut(buf: array<char>, dst: nat, src: nat, ghost s: string)
    requires Holds(buf, s) && dst <= src <= |s|
    requires forall i :: 0 <= i < |s| ==> s[i] != NUL
    modifies buf
    ensures Holds(buf, s[..dst] + s[src..])
  {
    var n := StrLen(buf, src, s);
    HeldChars(buf, s);
    MemMove(buf, dst, src, n + 1);
    CutChars(s, dst, src);
    HoldsChars(buf, s[..dst] + s[src..]);
  }

  lemma CutChars(s: string, dst: nat, src: nat)
    requires dst <= src <= |s|
    ensures forall i :: 0 <= i < |s| - (src - dst) ==>
      (s[..dst] + s[src..])[i] == if i < dst then s[i] else s[src - dst + i]
  {
  }

  lemma HoldsChars(buf: array<char>, t: string)
    requires |t| < buf.Length && buf[|t|] == NUL && forall i :: 0 <= i < |t| ==> buf[i] == t[i]
    ensures Holds(buf, t)
  {
    assert buf[..|t|] == t;
  }

  // ---------------------------------------------------------------------------
  // Removing superseded rules
  // ---------------------------------------------------------------------------

  lemma {:induction false} KeptConcat(a: seq<string>, b: seq<string>, name: string)
    ensures Kept(a + b, name) == Kept(a, name) + Kept(b, name)
  {
    if a == [] {
      assert a + b == b;
    } else {
      assert (a + b)[1..] == a[1..] + b;
      KeptConcat(a[1..], b, name);
    }
  }

  /** Where the loop stands: done has been kept, rest is still to be looked at, pos is where rest starts in s. */
  ghost predicate Progress(ts: seq<string>, name: string, done: seq<string>, rest: seq<string>, s: string, pos: nat) {
    && AreTokens(done) && AreTokens(rest)
    && Kept(ts, name) == done + Kept(rest, name)
    && s == Joined(done + rest)
    && pos == |Before(done, rest)|
  }

  lemma {:induction false} InnerToken(done: seq<string>, rest: seq<string>, s: string, pos: nat)
    requires |rest| > 1
    requires s == Joined(done + rest) && pos == |Before(done, rest)|
    ensures pos + |rest[0]| < |s| && s[pos..pos + |rest[0]|] == rest[0] && s[pos + |rest[0]|] == ' '
    ensures s[..pos] + s[pos + |rest[0]| + 1..] == Joined(done + rest[1..])
    ensures pos == |Before(done, rest[1..])|
    ensures pos + |rest[0]| + 1 == |Before(done + [rest[0]], rest[1..])|
  {
    var b, t, j := Before(done, rest), rest[0], Joined(rest[1..]);
    JoinedConcat(done, rest);
    MiddlePiece(b, t, j, s);
    JoinedConcat(done, rest[1..]);
    JoinedConcat(done, [t]);
    assert Before(done + [t], rest[1..]) == b + t + " ";
  }

  lemma MiddlePiece(b: string, t: string, j: string, s: string)
    requires s == b + (t + " " + j)
    ensures |b| + |t| < |s| && s[|b|..|b| + |t|] == t && s[|b| + |t|] == ' '
    ensures s[..|b|] + s[|b| + |t| + 1..] == b + j
  {
    assert s[|b| + |t| + 1..] == j;
  }

  lemma {:induction false} LastToken(done: seq<string>, rest: seq<string>, s: string, pos: nat)
    requires |rest| == 1
    requires s == Joined(done + rest) && pos == |Before(done, rest)|
    ensures |s| == pos + |rest[0]| && s[pos..] == rest[0]
    ensures s == Before(done + rest, [])
    ensures done != [] ==> pos != 0 && s[..pos - 1] == Joined(done)
  {
    JoinedConcat(done, rest);
  }

  /** At the end of the text exactly when no token is left. */
  lemma {:induction false} AtEnd(ts: seq<string>, name: string, done: seq<string>, rest: seq<string>, s: string,
      pos: nat)
    requires Progress(ts, name, done, rest, s, pos)
    ensures pos <= |s|
    ensures pos == |s| <==> rest == []
    ensures forall i :: 0 <= i < |s| ==> s[i] != NUL
  {
    JoinedConcat(done, rest);
    JoinedNoNul(done + rest);
    if rest != [] {
      assert Joined(rest)[0] == rest[0][0];
    }
  }

  lemma {:induction false} Skipped(ts: seq<string>, name: string, done: seq<string>, rest: seq<string>, s: string,
      pos: nat)
    requires Progress(ts, name, done, rest, s, pos) && rest != []
    requires !Matches(rest[0][1..], name)
    ensures Progress(ts, name, done + [rest[0]], rest[1..], s, pos + |rest[0]| + if |rest| > 1 then 1 else 0)
  {
    hide Joined, Before, Matches;
    assert done + [rest[0]] + rest[1..] == done + rest;
    if |rest| > 1 {
      InnerToken(done, rest, s, pos);
    } else {
      LastToken(done, rest, s, pos);
      assert done + rest == done + [rest[0]];
    }
  }

  lemma {:induction false} CutAway(ts: seq<string>, name: string, done: seq<string>, rest: seq<string>, s: string,
      pos: nat)
    requires Progress(ts, name, done, rest, s, pos) && rest != []
    requires Matches(rest[0][1..], name)
    ensures |rest| > 1 ==>
      && pos + |rest[0]| + 1 <= |s|
      && Progress(ts, name, done, rest[1..], s[..pos] + s[pos + |rest[0]| + 1..], pos)
    ensures |rest| == 1 ==>
      && pos + |rest[0]| == |s|
      && Progress(ts, name, done, [], s[..if pos == 0 then 0 else pos - 1], if pos == 0 then 0 else pos - 1)
  {
    if |rest| > 1 {
      InnerToken(done, rest, s, pos);
    } else {
      LastToken(done, rest, s, pos);
      assert rest[1..] == [] && done + [] == done;
    }
  }

  /** Where the token at pos ends: at the first blank behind it, or at the end of the text. */
  lemma {:induction false} TokenStands(done: seq<string>, rest: seq<string>, s: string, pos: nat)
    requires AreTokens(rest) && rest != [] && s == Joined(done + rest) && pos == |Before(done, rest)|
    ensures pos < pos + |rest[0]| <= |s| && s[pos..pos + |rest[0]|] == rest[0]
    ensures forall i :: pos <= i < pos + |rest[0]| ==> s[i] != ' '
    ensures if |rest| > 1 then pos + |rest[0]| < |s| && s[pos + |rest[0]|] == ' ' else pos + |rest[0]| == |s|
  {
    hide Joined, Before;
    if |rest| > 1 {
      InnerToken(done, rest, s, pos);
    } else {
      LastToken(done, rest, s, pos);
    }
    assert IsToken(rest[0]);
    NoBlankInside(s, pos, rest[0]);
  }

  lemma NoBlankInside(s: string, pos: nat, token: string)
    requires IsToken(token) && pos + |token| <= |s| && s[pos..pos + |token|] == token
    ensures forall i :: pos <= i < pos + |token| ==> s[i] != ' '
  {
    forall i | pos <= i < pos + |token| ensures s[i] != ' ' {
      assert s[i] == s[pos..pos + |token|][i - pos];
    }
  }

  method TokenEnd(buf: array<char>, pos: nat, ghost done: seq<string>, ghost rest: seq<string>, ghost s: string)
    returns (found: bool, end: nat)
    requires AreTokens(rest) && rest != []
    requires s == Joined(done + rest) && pos == |Before(done, rest)| && pos < |s|
    requires Holds(buf, s)
    requires forall i :: 0 <= i < |s| ==> s[i] != NUL
    ensures found <==> |rest| > 1
    ensures pos < end == pos + |rest[0]| <= |s| && s[pos..end] == rest[0]
  {
    TokenStands(done, rest, s, pos);
    found, end := StrChr(buf, pos + 1, ' ', s);
  }

  /** Whether the token that stands at pos, up to end, is superseded by name. */
  method IsSuperseded(buf: array<char>, pos: nat, end: nat, name: string, ghost s: string, ghost token: string)
    returns (b: bool)
    requires Holds(buf, s) && pos < end <= |s| && s[pos..end] == token
    ensures b == Matches(token[1..], name)
  {
    assert buf[..|s|] == s;
    assert buf[pos..end] == buf[..|s|][pos..end] == token;
    var existing := buf[pos + 1..end];
    assert existing == buf[pos..end][1..];
    var m := if |existing| < |name| then |existing| else |name|;
    b := existing[..m] == name[..m]
      && (|existing| == |name| || (|existing| > |name| && existing[|name|] == '|'));
  }

  lemma Begun(ts: seq<string>, name: string)
    requires AreTokens(ts)
    ensures Progress(ts, name, [], ts, Joined(ts), 0)
  {
    assert [] + ts == ts && [] + Kept(ts, name) == Kept(ts, name);
  }

  lemma Underway(ts: seq<string>, name: string, done: seq<string>, rest: seq<string>, s: string, pos: nat)
    requires Progress(ts, name, done, rest, s, pos)
    ensures AreTokens(rest) && s == Joined(done + rest) && pos == |Before(done, rest)|
  {
  }

  lemma Finished(ts: seq<string>, name: string, done: seq<string>, s: string, pos: nat)
    requires Progress(ts, name, done, [], s, pos)
    ensures Kept(ts, name) == done && s == Joined(done)
  {
    assert done + [] == done;
  }

  method RemoveRule(buf: array<char>, name: string, ghost ts: seq<string>) returns (len: nat)
    requires AreTokens(ts)
    requires Holds(buf, Joined(ts))
    modifies buf
    ensures Holds(buf, Joined(Kept(ts, name)))
    ensures len == |Joined(Kept(ts, name))|
  {
    hide Progress, Kept, Joined, Before, Matches, AreTokens, IsToken;
    ghost var done: seq<string>, rest, s := [], ts, Joined(ts);
    var pos: nat := 0;
    Begun(ts, name);
    AtEnd(ts, name, done, rest, s, pos);
    while buf[pos] != NUL
      invariant Progress(ts, name, done, rest, s, pos)
      invariant Holds(buf, s) && pos <= |s|
      decreases |rest|
    {
      AtEnd(ts, name, done, rest, s, pos);
      Underway(ts, name, done, rest, s, pos);
      var copyPosition := pos;
      var found, ruleEnd := TokenEnd(buf, pos, done, rest, s);
      if !found && copyPosition != 0 {
        copyPosition := copyPosition - 1;
      }
      var copyEnd := if found then ruleEnd + 1 else ruleEnd;
      var gone := IsSuperseded(buf, pos, ruleEnd, name, s, rest[0]);
      if gone {
        CutAway(ts, name, done, rest, s, pos);
        Cut(buf, copyPosition, copyEnd, s);
        assert !found ==> s[..copyPosition] + s[copyEnd..] == s[..copyPosition] && rest[1..] == [];
        s := s[..copyPosition] + s[copyEnd..];
        pos := copyPosition;
        rest := rest[1..];
      } else {
        Skipped(ts, name, done, rest, s, pos);
        pos := copyEnd;
        done, rest := done + [rest[0]], rest[1..];
      }
      AtEnd(ts, name, done, rest, s, pos);
    }
    AtEnd(ts, name, done, rest, s, pos);
    assert buf[..|s|] == s;
    Finished(ts, name, done, s, pos);
    len := StrLen(buf, 0, s);
  }

  // ---------------------------------------------------------------------------
  // Rules as tokens
  // ---------------------------------------------------------------------------

  predicate Allows(r: Rule) { r.FirstArgRule? || r.allow }

  function Token(r: Rule): string { (if Allows(r) then "+" else "-") + Name(r) }

  function Tokens(rs: seq<Rule>): (ts: seq<string>)
    ensures |ts| == |rs|
  {
    seq(|rs|, i requires 0 <= i < |rs| => Token(rs[i]))
  }

  lemma TokenName(r: Rule)
    ensures Token(r) != "" && Token(r)[1..] == Name(r)
  {
  }

  lemma TokensMore(rs: seq<Rule>, r: Rule)
    ensures Tokens(rs + [r]) == Tokens(rs) + [Token(r)]
  {
  }

  lemma KeptOne(token: string, name: string)
    requires token != ""
    ensures Kept([token], name) == if Matches(token[1..], name) then [] else [token]
  {
    assert [token][1..] == [];
    assert Kept([], name) == [];
  }

  lemma {:induction false} KeptTokens(rs: seq<Rule>, name: string)
    ensures Kept(Tokens(rs), name) == Tokens(Compact(rs, name))
  {
    if rs != [] {
      var init, last := rs[..|rs| - 1], rs[|rs| - 1];
      var one, kept := [Token(last)], Compact(init, name);
      assert init + [last] == rs;
      calc {
        Kept(Tokens(rs), name);
        { TokensMore(init, last); }
        Kept(Tokens(init) + one, name);
        { KeptConcat(Tokens(init), one, name); }
        Kept(Tokens(init), name) + Kept(one, name);
        { KeptTokens(init, name); }
        Tokens(kept) + Kept(one, name);
        { TokenName(last); KeptOne(Token(last), name); }
        Tokens(kept) + if Matches(Name(last), name) then [] else one;
        { TokensMore(kept, last); }
        Tokens(Compact(rs, name));
      }
    }
  }

  /** Every character of a rule name is an ordinary one in lower case. */
  lemma {:induction false} NameChars(t: Table, r: Rule)
    requires GoodNames(t) && Known(t, r)
    ensures Name(r) != ""
    ensures forall i :: 0 <= i < |Name(r)| ==> IsOrdinary(Name(r)[i]) && !('A' <= Name(r)[i] <= 'Z')
  {
    match r
    case CommandRule(_, c) => assert Plain(c);
    case SubcommandRule(_, c, s) => assert Plain(c) && Plain(s);
    case FirstArgRule(c, a) => assert Plain(c) && Clean(a);
    case CategoryRule(_, cat) => assert Clean(cat);
  }

  lemma {:induction false} TokensAreTokens(t: Table, rs: seq<Rule>)
    requires GoodNames(t) && AllKnown(t, rs)
    ensures AreTokens(Tokens(rs))
  {
    forall i | 0 <= i < |rs| ensures IsToken(Tokens(rs)[i]) {
      NameChars(t, rs[i]);
    }
  }
}
