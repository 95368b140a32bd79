/**
 The manifest of the append-only file: one BASE file, the INCR files written
 since, and the HISTORY files that a finished rewrite has made obsolete.
 */
module AofManifest {

  import opened Wrappers

  datatype Name = BaseFile(n: nat) | IncrFile(n: nat) | TempFile(pid: nat)

  datatype Kind = BaseKind | HistoryKind | IncrKind

  datatype Info = Info(name: Name, number: nat, kind: Kind)

  /** The lists of a manifest and the last sequence numbers given out. */
  datatype Lists = Lists(base: Option<Info>, history: seq<Info>, incr: seq<Info>, baseSeq: nat, incrSeq: nat)

  const NO_FILES := Lists(None, [], [], 0, 0)

  function NewBaseInfo(n: nat): Info { Info(BaseFile(n), n, BaseKind) }

  function NewIncrInfo(n: nat): Info { Info(IncrFile(n), n, IncrKind) }

  function Retired(i: Info): Info { i.(kind := HistoryKind) }

  function AllRetired(es: seq<Info>): (r: seq<Info>)
    ensures |r| == |es| && forall k :: 0 <= k < |es| ==> r[k] == Retired(es[k])
  {
    seq(|es|, k requires 0 <= k < |es| => Retired(es[k]))
  }

  function OneOrNone(base: Option<Info>): seq<Info> { if base.Some? then [base.value] else [] }

  /** All entries in the order in which the manifest file lists them. */
  function Entries(l: Lists): seq<Info> { OneOrNone(l.base) + l.history + l.incr }

  // ---------------------------------------------------------------------------
  // The operations on the lists
  // ---------------------------------------------------------------------------

  function WithNewBase(l: Lists): Lists {
    l.(base := Some(NewBaseInfo(l.baseSeq + 1)), baseSeq := l.baseSeq + 1,
        history := AllRetired(OneOrNone(l.base)) + l.history)
  }

  function WithNewIncr(l: Lists): Lists {
    l.(incr := l.incr + [NewIncrInfo(l.incrSeq + 1)], incrSeq := l.incrSeq + 1)
  }

  function WithLastIncr(l: Lists): (r: Lists)
    ensures r.incr != []
  {
    if l.incr == [] then WithNewIncr(l) else l
  }

  /** How many INCR files a finished rewrite replaces: not the one that is open for writing. */
  function Rewritten(l: Lists, writing: bool): (k: nat)
    ensures k <= |l.incr|
  {
    if writing && l.incr != [] then |l.incr| - 1 else |l.incr|
  }

  function WithRewrittenRetired(l: Lists, writing: bool): Lists {
    var k := Rewritten(l, writing);
    l.(history := AllRetired(l.incr[..k]) + l.history, incr := l.incr[k..])
  }

  /** What a finished rewrite makes of the manifest. */
  function AfterRewrite(l: Lists): Lists { WithRewrittenRetired(WithNewBase(l), true) }

  function WithoutHistory(l: Lists): Lists { l.(history := []) }

  // ---------------------------------------------------------------------------
  // What every operation keeps
  // ---------------------------------------------------------------------------

  ghost predicate Increasing(es: seq<Info>) {
    forall i, j :: 0 <= i < j < |es| ==> es[i].number < es[j].number
  }

  ghost predicate NamesOnce(es: seq<Info>) {
    forall i, j :: 0 <= i < j < |es| ==> es[i].name != es[j].name
  }

  /** A retired file is older than the live files of its sort. */
  ghost predicate IsOld(l: Lists, i: Info) {
    && i.kind == HistoryKind && i.number > 0
    && (|| (i.name == BaseFile(i.number) && i.number < l.baseSeq)
        || (i.name == IncrFile(i.number) && l.incr != [] && i.number < l.incr[0].number))
  }

  ghost predicate Good(l: Lists) {
    && (if l.base.Some? then l.base.value == NewBaseInfo(l.baseSeq) && l.baseSeq > 0 else l.baseSeq == 0)
    && (forall i :: 0 <= i < |l.incr| ==> l.incr[i] == NewIncrInfo(l.incr[i].number) && l.incr[i].number > 0)
    && Increasing(l.incr)
    && l.incrSeq == (if l.incr == [] then 0 else l.incr[|l.incr| - 1].number)
    && (forall i :: 0 <= i < |l.history| ==> IsOld(l, l.history[i]))
    && NamesOnce(l.history)
  }

  function Names(es: seq<Info>): (r: seq<Name>)
    ensures |r| == |es| && forall k :: 0 <= k < |es| ==> r[k] == es[k].name
  {
    seq(|es|, k requires 0 <= k < |es| => es[k].name)
  }

  ghost function Files(l: Lists): multiset<Name> {
    multiset(Names(OneOrNone(l.base))) + multiset(Names(l.history)) + multiset(Names(l.incr))
  }

  lemma NamesConcat(a: seq<Info>, b: seq<Info>)
    ensures multiset(Names(a + b)) == multiset(Names(a)) + multiset(Names(b))
  {
    assert Names(a + b) == Names(a) + Names(b);
  }

  lemma {:induction false} NewBaseGood(l: Lists)
    requires Good(l)
    ensures Good(WithNewBase(l))
    ensures BaseFile(l.baseSeq + 1) !in Files(l)
  {
    var r, o := WithNewBase(l), AllRetired(OneOrNone(l.base));
    assert AllOld(l, l.history);
    HistoryOlder(l, r);
    assert AllOld(r, o);
    assert AllOld(r, o + l.history);
    NewNames(o, l.history);
    NotAmong(l, BaseFile(l.baseSeq + 1));
  }

  ghost predicate AllOld(l: Lists, es: seq<Info>) { forall i :: 0 <= i < |es| ==> IsOld(l, es[i]) }

  lemma HistoryOlder(l: Lists, r: Lists)
    requires AllOld(l, l.history) && r.baseSeq == l.baseSeq + 1 && r.incr == l.incr
    ensures AllOld(r, l.history)
  {
  }

  lemma NewNames(a: seq<Info>, b: seq<Info>)
    requires |a| <= 1 && NamesOnce(b) && forall i, j :: 0 <= i < |a| && 0 <= j < |b| ==> a[i].name != b[j].name
    ensures NamesOnce(a + b)
  {
    assert forall i :: |a| <= i < |a + b| ==> (a + b)[i] == b[i - |a|];
  }

  /** A name that no list has is not among the files. */
  lemma NotAmong(l: Lists, name: Name)
    requires l.base.Some? ==> l.base.value.name != name
    requires forall i :: 0 <= i < |l.history| ==> l.history[i].name != name
    requires forall i :: 0 <= i < |l.incr| ==> l.incr[i].name != name
    ensures name !in Files(l)
  {
    assert name !in Names(OneOrNone(l.base)) && name !in Names(l.history) && name !in Names(l.incr);
  }

  lemma {:induction false} NewBaseFiles(l: Lists)
    ensures Files(WithNewBase(l)) == Files(l) + multiset{BaseFile(l.baseSeq + 1)}
  {
    var retired := AllRetired(OneOrNone(l.base));
    NamesConcat(retired, l.history);
    assert Names(retired) == Names(OneOrNone(l.base));
    assert Names(OneOrNone(WithNewBase(l).base)) == [BaseFile(l.baseSeq + 1)];
  }

  lemma {:induction false} NewIncrGood(l: Lists)
    requires Good(l)
    ensures Good(WithNewIncr(l))
    ensures IncrFile(l.incrSeq + 1) !in Files(l)
  {
    var r := WithNewIncr(l);
    assert AllOld(l, l.history);
    assert AllOld(r, r.history);
    IncrMore(l.incr, l.incrSeq + 1);
    NotAmong(l, IncrFile(l.incrSeq + 1));
  }

  ghost predicate AreIncr(es: seq<Info>) {
    forall i :: 0 <= i < |es| ==> es[i] == NewIncrInfo(es[i].number) && es[i].number > 0
  }

  lemma IncrMore(es: seq<Info>, n: nat)
    requires AreIncr(es) && Increasing(es) && n > 0 && (es != [] ==> es[|es| - 1].number < n)
    ensures AreIncr(es + [NewIncrInfo(n)]) && Increasing(es + [NewIncrInfo(n)])
  {
    var r := es + [NewIncrInfo(n)];
    forall i, j | 0 <= i < j < |r| ensures r[i].number < r[j].number {
      if j == |es| {
        assert es[i].number <= es[|es| - 1].number;
      }
    }
  }

  lemma {:induction false} NewIncrFiles(l: Lists)
    ensures Files(WithNewIncr(l)) == Files(l) + multiset{IncrFile(l.incrSeq + 1)}
  {
    NamesConcat(l.incr, [NewIncrInfo(l.incrSeq + 1)]);
    assert Names([NewIncrInfo(l.incrSeq + 1)]) == [IncrFile(l.incrSeq + 1)];
  }

  /** No name is listed twice. */
  lemma {:induction false} GoodListsOnce(l: Lists)
    requires Good(l)
    ensures NamesOnce(Entries(l))
  {
    assert forall i :: 0 <= i < |l.history| ==> IsOld(l, l.history[i]);
  }

  lemma {:induction false} RetiredFiles(l: Lists, writing: bool)
    ensures Files(WithRewrittenRetired(l, writing)) == Files(l)
  {
    var k := Rewritten(l, writing);
    NamesConcat(AllRetired(l.incr[..k]), l.history);
    NamesConcat(l.incr[..k], l.incr[k..]);
    assert Names(AllRetired(l.incr[..k])) == Names(l.incr[..k]);
    assert l.incr[..k] + l.incr[k..] == l.incr;
  }

  lemma {:induction false} RetiredOld(l: Lists)
    requires Good(l) && l.incr != []
    ensures var r := WithRewrittenRetired(l, true);
      && (forall i :: 0 <= i < |r.history| ==> IsOld(r, r.history[i]))
      && NamesOnce(r.history)
  {
    var r := WithRewrittenRetired(l, true);
    var k := Rewritten(l, true);
    assert r.incr == [l.incr[k]];
    assert forall i :: 0 <= i < |l.history| ==> IsOld(l, l.history[i]);
    assert forall i :: 0 <= i < k ==> r.history[i] == Retired(l.incr[i]) && l.incr[i].number < l.incr[k].number;
    assert forall i :: k <= i < |r.history| ==> r.history[i] == l.history[i - k];
    assert forall i :: k <= i < |r.history| ==> IsOld(r, r.history[i]);
    forall i, j | 0 <= i < j < |r.history| ensures r.history[i].name != r.history[j].name {
      if j >= k && i < k {
        assert IsOld(l, l.history[j - k]);
      }
    }
  }

  /** Retiring keeps the lists good exactly when the file being written is left in place. */
  lemma {:induction false} RetiredGood(l: Lists, writing: bool)
    requires Good(l)
    ensures Good(WithRewrittenRetired(l, writing)) <==> writing || l.incr == []
  {
    if l.incr == [] {
      assert WithRewrittenRetired(l, writing) == l by {
        assert AllRetired(l.incr[..0]) + l.history == l.history;
      }
    } else if writing {
      RetiredOld(l);
    } else {
      var r := WithRewrittenRetired(l, writing);
      assert r.incr == [] && r.incrSeq > 0;
    }
  }

  /** A finished rewrite leaves the new BASE file and the INCR file being written. */
  lemma {:induction false} AfterRewriteGood(l: Lists)
    requires Good(l)
    ensures Good(AfterRewrite(l))
    ensures AfterRewrite(l).base == Some(NewBaseInfo(l.baseSeq + 1))
    ensures l.incr != [] ==> AfterRewrite(l).incr == [l.incr[|l.incr| - 1]]
  {
    NewBaseGood(l);
    RetiredGood(WithNewBase(l), true);
  }

  /** It adds the new BASE file to the manifest, and loses or repeats no other file. */
  lemma {:induction false} AfterRewriteFiles(l: Lists)
    ensures Files(AfterRewrite(l)) == Files(l) + multiset{BaseFile(l.baseSeq + 1)}
  {
    NewBaseFiles(l);
    RetiredFiles(WithNewBase(l), true);
  }

  // ---------------------------------------------------------------------------
  // The manifest in memory
  // ---------------------------------------------------------------------------

  class Manifest {
    var base: Option<Info>
    var history: seq<Info>
    var incr: seq<Info>
    var baseSeq: nat
    var incrSeq: nat
    var dirty: bool

    function Value(): Lists
      reads this
    {
      Lists(base, history, incr, baseSeq, incrSeq)
    }

    constructor (l: Lists)
      ensures Value() == l && !dirty
    {
      base, history, incr, baseSeq, incrSeq := l.base, l.history, l.incr, l.baseSeq, l.incrSeq;
      dirty := false;
    }

    method Dup() returns (m: Manifest)
      ensures fresh(m) && m.Value() == Value() && m.dirty == dirty
    {
      m := new Manifest(Value());
      m.dirty := dirty;
    }

    method NewBaseName() returns (name: Name)
      modifies this
      ensures Value() == WithNewBase(old(Value())) && dirty
      ensures name == BaseFile(baseSeq)
    {
      if base.Some? {
        history := [Retired(base.value)] + history;
      }
      baseSeq := baseSeq + 1;
      base := Some(NewBaseInfo(baseSeq));
      dirty := true;
      name := base.value.name;
    }

    method NewIncrName() returns (name: Name)
      modifies this
      ensures Value() == WithNewIncr(old(Value())) && dirty
      ensures name == IncrFile(incrSeq)
    {
      incrSeq := incrSeq + 1;
      incr := incr + [NewIncrInfo(incrSeq)];
      dirty := true;
      name := IncrFile(incrSeq);
    }

    method LastIncrName() returns (name: Name)
      modifies this
      ensures Value() == WithLastIncr(old(Value()))
      ensures name == incr[|incr| - 1].name
      ensures dirty == (old(dirty) || old(incr) == [])
    {
      if incr == [] {
        name := NewIncrName();
      } else {
        name := incr[|incr| - 1].name;
      }
    }

    /** Walks the INCR list from its end, moving one entry at a time to the head of the history list. */
    method MarkRewritten(writing: bool)
      modifies this
      ensures Value() == WithRewrittenRetired(old(Value()), writing)
      ensures dirty == (old(dirty) || old(incr) != [])
    {
      if incr == [] {
        assert AllRetired(incr[..0]) + history == history;
        return;
      }
      ghost var k := Rewritten(Value(), writing);
      var n := |incr|;
      if writing {
        n := n - 1;
      }
      MovedNone(history, incr, k);
      while n > 0
        invariant 0 <= n <= k <= |old(incr)|
        invariant Moved(history, incr) == MovedFrom(old(history), old(incr), n, k)
        invariant base == old(base) && baseSeq == old(baseSeq) && incrSeq == old(incrSeq) && dirty == old(dirty)
      {
        MovedOne(old(history), old(incr), n, k);
        history := [Retired(incr[n - 1])] + history;
        incr := incr[..n - 1] + incr[n..];
        n := n - 1;
      }
      dirty := true;
    }
  }

  /** The two lists when the entries from n up to k have been moved. */
  datatype Moved = Moved(history: seq<Info>, incr: seq<Info>)

  ghost function MovedFrom(history: seq<Info>, incr: seq<Info>, n: nat, k: nat): Moved
    requires n <= k <= |incr|
  {
    Moved(AllRetired(incr[n..k]) + history, incr[..n] + incr[k..])
  }

  lemma MovedNone(history: seq<Info>, incr: seq<Info>, k: nat)
    requires k <= |incr|
    ensures MovedFrom(history, incr, k, k) == Moved(history, incr)
  {
    assert AllRetired(incr[k..k]) + history == history && incr[..k] + incr[k..] == incr;
  }

  lemma MovedOne(history: seq<Info>, incr: seq<Info>, n: nat, k: nat)
    requires 0 < n <= k <= |incr|
    ensures var f := MovedFrom(history, incr, n, k);
      MovedFrom(history, incr, n - 1, k)
        == Moved([Retired(f.incr[n - 1])] + f.history, f.incr[..n - 1] + f.incr[n..])
  {
    var f := MovedFrom(history, incr, n, k);
    assert AllRetired(incr[n - 1..k]) == [Retired(incr[n - 1])] + AllRetired(incr[n..k]);
    assert f.incr[..n - 1] == incr[..n - 1] && f.incr[n..] == incr[k..];
  }
}
