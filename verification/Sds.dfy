/**
 The string helpers that several components share: lower case, lines,
 joining strings with blanks, and printing one element after the other.
 */
module Sds {

  function LowerChar(c: char): char {
    if 'A' <= c <= 'Z' then (c as int + 32) as char else c
  }

  function Lower(s: string): (l: string)
    ensures |l| == |s|
    ensures forall i :: 0 <= i < |s| ==> l[i] == LowerChar(s[i])
  {
    seq(|s|, i requires 0 <= i < |s| => LowerChar(s[i]))
  }

  lemma LowerFixed(s: string)
    requires forall i :: 0 <= i < |s| ==> !('A' <= s[i] <= 'Z')
    ensures Lower(s) == s
  {
  }

  /** How many characters a line read takes from s: through the newline, or to the limit, or to the end. */
  function LineLength(s: string, limit: nat): (n: nat)
    ensures n <= |s| && n <= limit
    ensures s != "" && limit > 0 ==> n > 0
  {
    if s == "" || limit == 0 then 0
    else if s[0] == '\n' then 1
    else 1 + LineLength(s[1..], limit - 1)
  }

  predicate IsBlank(c: char) { c == ' ' || c == '\t' || c == '\n' || c == '\r' || c == 11 as char || c == 12 as char }

  function Joined(ts: seq<string>): string {
    if |ts| == 0 then "" else if |ts| == 1 then ts[0] else ts[0] + " " + Joined(ts[1..])
  }

  /** The texts of the elements, one behind the other. */
  function Flat<T>(enc: T -> string, xs: seq<T>): string {
    if xs == [] then "" else enc(xs[0]) + Flat(enc, xs[1..])
  }

  lemma Regroup(a: string, b: string, c: string)
    ensures a + (b + c) == (a + b) + c
  {
  }

  lemma {:induction false} FlatConcat<T>(enc: T -> string, a: seq<T>, b: seq<T>)
    ensures Flat(enc, a + b) == Flat(enc, a) + Flat(enc, b)
  {
    if a == [] {
      assert a + b == b;
    } else {
      var e, x, y := enc(a[0]), Flat(enc, a[1..]), Flat(enc, b);
      FlatConcat(enc, a[1..], b);
      assert (a + b)[1..] == a[1..] + b;
      Regroup(e, x, y);
    }
  }

  lemma {:induction false} FlatMore<T>(enc: T -> string, xs: seq<T>, j: nat)
    requires j < |xs|
    ensures Flat(enc, xs[..j + 1]) == Flat(enc, xs[..j]) + enc(xs[j])
  {
    assert xs[..j + 1] == xs[..j] + [xs[j]];
    FlatConcat(enc, xs[..j], [xs[j]]);
  }
}
