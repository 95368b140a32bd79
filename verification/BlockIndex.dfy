/**
 The two-way index of clients blocked on keys: which keys a client waits for,
 and for every key the clients waiting for it, oldest first, with a count of
 those that also want to know when the key goes away.
 */
module BlockIndex {

  type Client = nat

  datatype Key = Key(db: nat, name: string)

  type Waiting = map<Key, seq<Client>>

  type Counts = map<Key, nat>

  function ListAt(w: Waiting, k: Key): seq<Client> { if k in w then w[k] else [] }

  function CountAt(n: Counts, k: Key): nat { if k in n then n[k] else 0 }

  ghost predicate NoneTwice<T>(l: seq<T>) { forall i, j :: 0 <= i < j < |l| ==> l[i] != l[j] }

  ghost function Flagged(l: seq<Client>, flags: set<Client>): nat {
    if l == [] then 0 else Flagged(l[..|l| - 1], flags) + (if l[|l| - 1] in flags then 1 else 0)
  }

  function Without(l: seq<Client>, c: Client): seq<Client> {
    if l == [] then [] else if l[0] == c then l[1..] else [l[0]] + Without(l[1..], c)
  }

  lemma {:induction false} WithoutMiddle(a: seq<Client>, c: Client, b: seq<Client>)
    requires c !in a
    ensures Without(a + [c] + b, c) == a + b
  {
    var l := a + [c] + b;
    if a == [] {
      assert l[1..] == b && a + b == b;
    } else {
      assert l[1..] == a[1..] + [c] + b;
      WithoutMiddle(a[1..], c, b);
    }
  }

  /** Where c stands in a list. */
  lemma {:induction false} Around(l: seq<Client>, c: Client) returns (a: seq<Client>, b: seq<Client>)
    requires NoneTwice(l) && c in l
    ensures l == a + [c] + b && c !in a && c !in b && Without(l, c) == a + b
  {
    var i :| 0 <= i < |l| && l[i] == c;
    a, b := l[..i], l[i + 1..];
    WithoutMiddle(a, c, b);
  }

  lemma {:induction false} FlaggedConcat(a: seq<Client>, b: seq<Client>, flags: set<Client>)
    ensures Flagged(a + b, flags) == Flagged(a, flags) + Flagged(b, flags)
  {
    if b == [] {
      assert a + b == a;
    } else {
      assert (a + b)[..|a + b| - 1] == a + b[..|b| - 1];
      FlaggedConcat(a, b[..|b| - 1], flags);
    }
  }

  lemma {:induction false} WithoutIs(l: seq<Client>, c: Client)
    requires NoneTwice(l) && c in l
    ensures NoneTwice(Without(l, c)) && forall x :: x in Without(l, c) <==> x in l && x != c
  {
    var a, b := Around(l, c);
    forall x ensures x in a + b <==> x in l && x != c {
      assert x in l <==> x in a || x == c || x in b;
    }
    forall i, j | 0 <= i < j < |a + b| ensures (a + b)[i] != (a + b)[j] {
      var p, q := if i < |a| then i else i + 1, if j < |a| then j else j + 1;
      assert (a + b)[i] == l[p] && (a + b)[j] == l[q];
    }
  }

  lemma {:induction false} WithoutAbsent(l: seq<Client>, c: Client)
    requires c !in l
    ensures Without(l, c) == l
  {
    if l != [] {
      WithoutAbsent(l[1..], c);
    }
  }

  lemma {:induction false} WithoutFlagged(l: seq<Client>, c: Client, flags: set<Client>)
    requires NoneTwice(l) && c in l
    ensures Flagged(l, flags) == Flagged(Without(l, c), flags) + (if c in flags then 1 else 0)
  {
    var a, b := Around(l, c);
    FlaggedConcat(a + [c], b, flags);
    FlaggedConcat(a, [c], flags);
    FlaggedConcat(a, b, flags);
    assert [c][..0] == [];
  }

  lemma {:induction false} FlaggedSome(l: seq<Client>, flags: set<Client>, i: nat)
    requires i < |l| && l[i] in flags
    ensures Flagged(l, flags) > 0
  {
    if i < |l| - 1 {
      FlaggedSome(l[..|l| - 1], flags, i);
    }
  }

  lemma {:induction false} FlaggedOther(l: seq<Client>, flags: set<Client>, c: Client)
    requires c !in l
    ensures Flagged(l, flags + {c}) == Flagged(l, flags) == Flagged(l, flags - {c})
  {
    if l != [] {
      FlaggedOther(l[..|l| - 1], flags, c);
    }
  }

  // ---------------------------------------------------------------------------
  // What the index says
  // ---------------------------------------------------------------------------

  type Holdings = map<Client, set<Key>>

  ghost predicate Holds(h: Holdings, c: Client, k: Key) { c in h && k in h[c] }

  /** The clients waiting for a key are those that hold it, each once; the count is that of the flagged ones. */
  ghost predicate KeyOk(w: Waiting, n: Counts, h: Holdings, flags: set<Client>, k: Key) {
    && NoneTwice(ListAt(w, k))
    && (forall c :: c in ListAt(w, k) <==> Holds(h, c, k))
    && (k in w ==> w[k] != [])
    && CountAt(n, k) == Flagged(ListAt(w, k), flags)
    && (k in n ==> n[k] > 0)
  }

  ghost predicate IndexOk(w: Waiting, n: Counts, h: Holdings, flags: set<Client>) {
    forall k: Key :: KeyOk(w, n, h, flags, k)
  }

  // ---------------------------------------------------------------------------
  // Entering and leaving a list
  // ---------------------------------------------------------------------------

  function Entered(w: Waiting, k: Key, c: Client): Waiting { w[k := ListAt(w, k) + [c]] }

  function CountedUp(n: Counts, k: Key, flagged: bool): Counts {
    if flagged then n[k := CountAt(n, k) + 1] else n
  }

  function Exited(w: Waiting, k: Key, c: Client): Waiting {
    var l := Without(ListAt(w, k), c);
    if l == [] then w - {k} else w[k := l]
  }

  function CountedDown(w: Waiting, n: Counts, k: Key, c: Client, flagged: bool): Counts {
    if Without(ListAt(w, k), c) == [] then n - {k}
    else if flagged && k in n then (if n[k] <= 1 then n - {k} else n[k := n[k] - 1])
    else n
  }

  lemma {:induction false} OtherKey(
      w: Waiting, n: Counts, h: Holdings, w': Waiting, n': Counts, h': Holdings, flags: set<Client>, k: Key)
    requires KeyOk(w, n, h, flags, k)
    requires (k in w <==> k in w') && ListAt(w', k) == ListAt(w, k)
    requires (k in n <==> k in n') && CountAt(n', k) == CountAt(n, k)
    requires forall c :: Holds(h, c, k) <==> Holds(h', c, k)
    ensures KeyOk(w', n', h', flags, k)
  {
  }

  lemma {:induction false} EnteredKey(w: Waiting, n: Counts, h: Holdings, flags: set<Client>, k: Key, c: Client)
    requires KeyOk(w, n, h, flags, k) && c in h && k !in h[c]
    ensures KeyOk(Entered(w, k, c), CountedUp(n, k, c in flags), h[c := h[c] + {k}], flags, k)
  {
    var l := ListAt(w, k);
    assert c !in l by {
      assert !Holds(h, c, k);
    }
    assert (l + [c])[..|l|] == l;
    var h' := h[c := h[c] + {k}];
    forall x ensures x in l + [c] <==> Holds(h', x, k) {
      assert x in l <==> Holds(h, x, k);
    }
  }

  lemma {:induction false} EnterKeeps(w: Waiting, n: Counts, h: Holdings, flags: set<Client>, k: Key, c: Client)
    requires IndexOk(w, n, h, flags) && c in h && k !in h[c]
    ensures IndexOk(Entered(w, k, c), CountedUp(n, k, c in flags), h[c := h[c] + {k}], flags)
  {
    var w', n', h' := Entered(w, k, c), CountedUp(n, k, c in flags), h[c := h[c] + {k}];
    forall q: Key ensures KeyOk(w', n', h', flags, q) {
      assert KeyOk(w, n, h, flags, q);
      if q == k {
        EnteredKey(w, n, h, flags, k, c);
      } else {
        OtherKey(w, n, h, w', n', h', flags, q);
      }
    }
  }

  lemma {:induction false} ExitedKey(w: Waiting, n: Counts, h: Holdings, flags: set<Client>, k: Key, c: Client)
    requires KeyOk(w, n, h, flags, k) && Holds(h, c, k)
    ensures k in w && c in w[k] && (c in flags ==> k in n)
    ensures KeyOk(Exited(w, k, c), CountedDown(w, n, k, c, c in flags), h[c := h[c] - {k}], flags, k)
  {
    var l := ListAt(w, k);
    var h' := h[c := h[c] - {k}];
    assert c in l;
    WithoutIs(l, c);
    WithoutFlagged(l, c, flags);
    assert ListAt(Exited(w, k, c), k) == Without(l, c);
    forall x ensures x in Without(l, c) <==> Holds(h', x, k) {
      assert x in l <==> Holds(h, x, k);
    }
  }

  lemma {:induction false} ExitKeeps(w: Waiting, n: Counts, h: Holdings, flags: set<Client>, k: Key, c: Client)
    requires IndexOk(w, n, h, flags) && Holds(h, c, k)
    ensures k in w && c in w[k] && (c in flags ==> k in n)
    ensures IndexOk(Exited(w, k, c), CountedDown(w, n, k, c, c in flags), h[c := h[c] - {k}], flags)
  {
    var w', n', h' := Exited(w, k, c), CountedDown(w, n, k, c, c in flags), h[c := h[c] - {k}];
    assert KeyOk(w, n, h, flags, k);
    ExitedKey(w, n, h, flags, k, c);
    forall q: Key ensures KeyOk(w', n', h', flags, q) {
      assert KeyOk(w, n, h, flags, q);
      if q != k {
        OtherKey(w, n, h, w', n', h', flags, q);
      }
    }
  }

  /** A client that holds no key may change its flag. */
  lemma {:induction false} FlagKeeps(w: Waiting, n: Counts, h: Holdings, flags: set<Client>, c: Client)
    requires IndexOk(w, n, h, flags) && (c in h ==> h[c] == {})
    ensures IndexOk(w, n, h, flags + {c}) && IndexOk(w, n, h, flags - {c})
  {
    forall k: Key ensures KeyOk(w, n, h, flags + {c}, k) && KeyOk(w, n, h, flags - {c}, k) {
      assert KeyOk(w, n, h, flags, k);
      assert !Holds(h, c, k);
      FlaggedOther(ListAt(w, k), flags, c);
    }
  }

  // ---------------------------------------------------------------------------
  // The same in plain words
  // ---------------------------------------------------------------------------

  lemma {:induction false} OnceInList(l: seq<Client>, c: Client)
    requires NoneTwice(l)
    ensures multiset(l)[c] == if c in l then 1 else 0
  {
    if c in l {
      var a, b := Around(l, c);
      assert multiset(l) == multiset(a) + multiset{c} + multiset(b);
      assert c !in multiset(a) && c !in multiset(b);
    }
  }

  ghost function FlaggedIn(l: seq<Client>, flags: set<Client>): set<Client> { set c | c in l && c in flags }

  lemma {:induction false} FlaggedIsSize(l: seq<Client>, flags: set<Client>)
    requires NoneTwice(l)
    ensures Flagged(l, flags) == |FlaggedIn(l, flags)|
  {
    if l == [] {
      assert FlaggedIn(l, flags) == {};
    } else {
      var last, rest := l[|l| - 1], l[..|l| - 1];
      FlaggedIsSize(rest, flags);
      var r := FlaggedIn(rest, flags);
      assert last !in rest && last !in r;
      forall c ensures c in FlaggedIn(l, flags) <==> c in r || (c == last && last in flags) {
        assert c in l <==> c in rest || c == last;
      }
      assert FlaggedIn(l, flags) == if last in flags then r + {last} else r;
    }
  }

  /** A client holds a key exactly if it occurs in the list of the key, and then it occurs once. */
  lemma {:induction false} HeldIffListed(w: Waiting, n: Counts, h: Holdings, flags: set<Client>, k: Key, c: Client)
    requires IndexOk(w, n, h, flags)
    ensures multiset(ListAt(w, k))[c] == if Holds(h, c, k) then 1 else 0
  {
    assert KeyOk(w, n, h, flags, k);
    OnceInList(ListAt(w, k), c);
  }

  /** The count of a key is the number of its flagged waiters, and there is none exactly if that is zero. */
  lemma {:induction false} CountIsFlagged(w: Waiting, n: Counts, h: Holdings, flags: set<Client>, k: Key)
    requires IndexOk(w, n, h, flags)
    ensures CountAt(n, k) == |FlaggedIn(ListAt(w, k), flags)|
    ensures k !in n <==> CountAt(n, k) == 0
  {
    assert KeyOk(w, n, h, flags, k);
    FlaggedIsSize(ListAt(w, k), flags);
  }
}
