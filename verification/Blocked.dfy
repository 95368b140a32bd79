/**
 Clients blocked on keys: blocking, unblocking, signalling keys as ready, and
 serving the clients that wait for a ready key.
 */
module Blocked {

  import opened BlockIndex
  import opened BlockWorld
  import opened Wrappers

  ghost predicate StateOk(s: ClientState) {
    && (s.blocked <==> s.btype != NotBlocked)
    && (s.keys != {} ==> IsKeyType(s.btype))
    && (!s.blocked ==> !s.onNokey)
  }

  ghost function HoldingsOf(cs: Clients): Holdings { map c | c in cs :: cs[c].keys }

  ghost function FlagsOf(cs: Clients): set<Client> { set c | c in cs && cs[c].onNokey }

  ghost function BlockedAs(cs: Clients, t: BlockType): set<Client> { set c | c in cs && cs[c].blocked
      && cs[c].btype == t }

  ghost function BlockedRegular(cs: Clients): set<Client> { set c | c in cs && cs[c].blocked && !cs[c].isModule }

  function AsNumber(b: bool): nat { if b then 1 else 0 }

  lemma DifferInOne(a: set<Client>, b: set<Client>, c: Client)
    requires a - {c} == b - {c}
    ensures |a| + AsNumber(c in b) == |b| + AsNumber(c in a)
  {
    assert c in a ==> |a - {c}| == |a| - 1;
    assert c in b ==> |b - {c}| == |b| - 1;
    assert c !in a ==> a - {c} == a;
    assert c !in b ==> b - {c} == b;
  }

  /** How the counters change when one client changes. */
  lemma {:induction false} OneChanged(cs: Clients, c: Client, s: ClientState, t: BlockType)
    requires c in cs
    ensures |BlockedAs(cs[c := s], t)| + AsNumber(cs[c].blocked && cs[c].btype == t) == |BlockedAs(cs,
        t)| + AsNumber(s.blocked && s.btype == t)
  {
    DifferInOne(BlockedAs(cs, t), BlockedAs(cs[c := s], t), c);
  }

  lemma {:induction false} OneChangedRegular(cs: Clients, c: Client, s: ClientState)
    requires c in cs
    ensures |BlockedRegular(cs[c := s])| + AsNumber(cs[c].blocked
        && !cs[c].isModule) == |BlockedRegular(cs)| + AsNumber(s.blocked && !s.isModule)
  {
    DifferInOne(BlockedRegular(cs), BlockedRegular(cs[c := s]), c);
  }

  lemma HoldingsChange(cs: Clients, c: Client, s: ClientState)
    requires c in cs
    ensures HoldingsOf(cs[c := s]) == HoldingsOf(cs)[c := s.keys]
  {
  }

  lemma FlagsChange(cs: Clients, c: Client, s: ClientState)
    requires c in cs
    ensures FlagsOf(cs[c := s]) == if s.onNokey then FlagsOf(cs) + {c} else FlagsOf(cs) - {c}
  {
  }

  ghost predicate ClientsOk(cs: Clients) { forall c :: c in cs ==> StateOk(cs[c]) }

  ghost predicate CountsOk(cs: Clients, byType: map<BlockType, nat>, regular: nat) {
    && (forall t: BlockType :: t in byType && byType[t] == |BlockedAs(cs, t)|)
    && regular == |BlockedRegular(cs)|
  }

  /** A key is in the dictionary exactly if it is queued, once. */
  ghost predicate ReadyOk(dict: set<Key>, queue: seq<Key>) {
    NoneTwice(queue) && forall k :: k in dict <==> k in queue
  }

  ghost predicate QueueOk(cs: Clients, unblocked: seq<Client>) {
    NoneTwice(unblocked) && forall c :: c in unblocked <==> c in cs && cs[c].queued
  }

  class Server {
    var clients: Clients
    var waiting: Waiting
    var nokey: Counts
    var byType: map<BlockType, nat>
    var blockedClients: nat
    var readyDict: set<Key>
    var current: seq<Key>
    var ready: seq<Key>
    var unblocked: seq<Client>

    ghost predicate Valid()
      reads this
    {
      && ClientsOk(clients)
      && IndexOk(waiting, nokey, HoldingsOf(clients), FlagsOf(clients))
      && CountsOk(clients, byType, blockedClients)
      && ReadyOk(readyDict, current + ready)
      && QueueOk(clients, unblocked)
    }

    ghost function Seen(): World
      reads this
    {
      World(clients, waiting, readyDict, current, ready, unblocked)
    }

    constructor ()
      ensures Valid() && Seen() == World(map[], map[], {}, [], [], [])
    {
      clients, waiting, nokey := map[], map[], map[];
      byType := map[
        NotBlocked := 0, OnList := 0, OnWait := 0, OnWaitAof := 0, OnModule := 0,
        OnStream := 0, OnZset := 0, OnPostpone := 0, OnShutdown := 0];
      blockedClients, readyDict, current, ready, unblocked := 0, {}, [], [], [];
      new;
      forall k: Key ensures KeyOk(waiting, nokey, HoldingsOf(clients), FlagsOf(clients), k) {
      }
      forall t: BlockType ensures t in byType && byType[t] == |BlockedAs(clients, t)| {
        assert BlockedAs(clients, t) == {};
        assert t == NotBlocked || t == OnList || t == OnWait || t == OnWaitAof || t == OnModule || t == OnStream
          || t == OnZset || t == OnPostpone || t == OnShutdown;
      }
      assert BlockedRegular(clients) == {};
    }

    method Connect(c: Client, isModule: bool)
      requires Valid() && c !in clients
      modifies this`clients
      ensures Valid() && clients == old(clients)[c := Fresh(isModule)]
    {
      Connected(clients, c, Fresh(isModule), waiting, nokey, unblocked);
      forall t: BlockType ensures BlockedAs(clients[c := Fresh(isModule)], t) == BlockedAs(clients, t) {
      }
      assert BlockedRegular(clients[c := Fresh(isModule)]) == BlockedRegular(clients);
      clients := clients[c := Fresh(isModule)];
    }

    // -------------------------------------------------------------------------
    // Blocking
    // -------------------------------------------------------------------------

    /** Marks a client as blocked and counts it. */
    method BlockClient(c: Client, t: BlockType)
      requires c in clients && !clients[c].blocked && t != NotBlocked && CountsOk(clients, byType, blockedClients)
      modifies this`clients, this`byType, this`blockedClients
      ensures clients == old(clients)[c := old(clients)[c].(blocked := true, btype := t)]
      ensures CountsOk(clients, byType, blockedClients)
    {
      var s := clients[c].(blocked := true, btype := t);
      forall u: BlockType ensures |BlockedAs(clients[c := s], u)| == |BlockedAs(clients, u)| + AsNumber(u == t) {
        OneChanged(clients, c, s, u);
      }
      OneChangedRegular(clients, c, s);
      clients := clients[c := s];
      if !s.isModule {
        blockedClients := blockedClients + 1;
      }
      byType := byType[t := byType[t] + 1];
    }

    /** Enters the client into the lists of the keys, at the end, and into each only once. */
    method EnterLists(c: Client, keys: seq<Key>, onNokey: bool, ghost h: Holdings, ghost flags: set<Client>)
      returns (held: set<Key>)
      requires IndexOk(waiting, nokey, h, flags) && c in h && h[c] == {} && (c in flags <==> onNokey)
      modifies this`waiting, this`nokey
      ensures held == KeySet(keys)
      ensures IndexOk(waiting, nokey, h[c := held], flags)
      ensures ListsEntered(old(waiting), waiting, KeySet(keys), c)
    {
      hide IndexOk;
      held := {};
      assert h[c := {}] == h;
      for j := 0 to |keys|
        invariant forall k :: k in held <==> k in keys[..j]
        invariant IndexOk(waiting, nokey, h[c := held], flags)
        invariant ListsEntered(old(waiting), waiting, held, c)
      {
        var k := keys[j];
        assert keys[..j + 1] == keys[..j] + [k];
        if k !in held {
          EnterKeeps(waiting, nokey, h[c := held], flags, k, c);
          assert h[c := held][c := held + {k}] == h[c := held + {k}];
          held := held + {k};
          waiting := waiting[k := (if k in waiting then waiting[k] else []) + [c]];
          if onNokey {
            nokey := nokey[k := if k in nokey then nokey[k] + 1 else 1];
          }
        }
      }
      assert keys[..|keys|] == keys;
    }

    method BlockForKeys(c: Client, b: Block)
      requires Valid() && c in clients && !clients[c].blocked && IsKeyType(b.btype)
      modifies this`clients, this`waiting, this`nokey, this`byType, this`blockedClients
      ensures Valid() && clients == old(clients)[c := AfterBlock(old(clients)[c], b)]
      ensures ListsEntered(old(waiting), waiting, KeySet(b.keys), c)
    {
      hide IndexOk, CountsOk, ReadyOk, QueueOk, ListsEntered, BlockedAs, BlockedRegular, NoneTwice;
      ghost var h, flags := HoldingsOf(clients), if b.onNokey then FlagsOf(clients) + {c} else FlagsOf(clients) - {c};
      assert StateOk(clients[c]);
      FlagKeeps(waiting, nokey, h, FlagsOf(clients), c);
      ClientChange(clients, c, AfterBlock(clients[c], b), unblocked);
      var held := EnterLists(c, b.keys, b.onNokey, h, flags);
      var s := clients[c].(keys := held, onNokey := b.onNokey, pending := clients[c].pending || b.btype != OnModule);
      SameCounts(clients, c, s, byType, blockedClients);
      UpdateTwice(clients, c, s, AfterBlock(clients[c], b));
      clients := clients[c := s];
      BlockClient(c, b.btype);
    }

    // -------------------------------------------------------------------------
    // Unblocking
    // -------------------------------------------------------------------------

    /** Takes a client out of the list of one key; the list is there, and so is the count if the client is in it. */
    method ReleaseEntry(c: Client, k: Key, ghost h: Holdings, ghost flags: set<Client>)
      requires IndexOk(waiting, nokey, h, flags) && Holds(h, c, k) && c in clients
          && (c in flags <==> clients[c].onNokey)
      modifies this`waiting, this`nokey
      ensures IndexOk(waiting, nokey, h[c := h[c] - {k}], flags)
      ensures ListsLeft(old(waiting), waiting, {k}, c)
    {
      ExitKeeps(waiting, nokey, h, flags, k, c);
      assert KeyOk(waiting, nokey, h, flags, k);
      var l := Without(waiting[k], c);
      if l == [] {
        waiting := waiting - {k};
        nokey := nokey - {k};
      } else {
        waiting := waiting[k := l];
        if clients[c].onNokey {
          var n := nokey[k] - 1;
          nokey := if n == 0 then nokey - {k} else nokey[k := n];
        }
      }
    }

    /** Takes a client out of the lists of all its keys. */
    method LeaveLists(c: Client, ghost h: Holdings, ghost flags: set<Client>)
      requires c in clients && IndexOk(waiting, nokey, h, flags) && c in h && h[c] == clients[c].keys
      requires c in flags <==> clients[c].onNokey
      modifies this`waiting, this`nokey
      ensures IndexOk(waiting, nokey, h[c := {}], flags)
      ensures ListsLeft(old(waiting), waiting, h[c], c)
    {
      var todo := clients[c].keys;
      assert h[c := todo] == h;
      while todo != {}
        invariant todo <= h[c]
        invariant IndexOk(waiting, nokey, h[c := todo], flags)
        invariant ListsLeft(old(waiting), waiting, h[c] - todo, c)
      {
        var k :| k in todo;
        ReleaseEntry(c, k, h[c := todo], flags);
        assert h[c := todo][c := todo - {k}] == h[c := todo - {k}];
        todo := todo - {k};
      }
    }

    /** Puts a client on the queue of unblocked clients, unless it is on it. */
    method QueueForReprocessing(c: Client)
      requires Valid() && c in clients
      modifies this`clients, this`unblocked
      ensures Valid() && clients == old(clients)[c := old(clients)[c].(queued := true)]
      ensures unblocked == if old(clients)[c].queued then old(unblocked) else old(unblocked) + [c]
    {
      hide IndexOk, CountsOk, ReadyOk, QueueOk, ClientsOk;
      if !clients[c].queued {
        var s := clients[c].(queued := true);
        SameCounts(clients, c, s, byType, blockedClients);
        HoldingsChange(clients, c, s);
        FlagsChange(clients, c, s);
        assert HoldingsOf(clients)[c := s.keys] == HoldingsOf(clients);
        assert (if s.onNokey then FlagsOf(clients) + {c} else FlagsOf(clients) - {c}) == FlagsOf(clients);
        Queued(clients, c, s, unblocked);
        clients := clients[c := s];
        unblocked := unblocked + [c];
      } else {
        assert clients[c := clients[c].(queued := true)] == clients;
      }
    }

    /** What kind of wait is given up; clients waiting for other things than keys hold none. */
    method LeaveKeys(c: Client)
      requires Valid() && c in clients && clients[c].blocked
      modifies this`waiting, this`nokey
      ensures IndexOk(waiting, nokey, HoldingsOf(clients)[c := {}], FlagsOf(clients) - {c})
      ensures ListsLeft(old(waiting), waiting, clients[c].keys, c)
    {
      assert StateOk(clients[c]);
      ghost var h, flags := HoldingsOf(clients), FlagsOf(clients);
      if IsKeyType(clients[c].btype) {
        LeaveLists(c, h, flags);
      } else {
        assert h[c := {}] == h;
      }
      FlagKeeps(waiting, nokey, h[c := {}], flags, c);
    }

    /** Takes a blocked client out of all lists and counters. */
    method Unblock(c: Client)
      requires Valid() && c in clients && clients[c].blocked
      modifies this`clients, this`waiting, this`nokey, this`byType, this`blockedClients
      ensures Valid() && clients == old(clients)[c := AfterUnblock(old(clients)[c])]
      ensures ListsLeft(old(waiting), waiting, old(clients)[c].keys, c)
    {
      hide IndexOk, ReadyOk, QueueOk, ListsLeft, HoldingsOf, FlagsOf, BlockedAs;
      var t, s := clients[c].btype, AfterUnblock(clients[c]);
      LeaveKeys(c);
      ClientChange(clients, c, s, unblocked);
      Uncounted(clients, c, s, byType, blockedClients);
      if !s.isModule {
        blockedClients := blockedClients - 1;
      }
      byType := byType[t := byType[t] - 1];
      clients := clients[c := s];
    }

    method UnblockClient(c: Client, queue: bool)
      requires Valid() && c in clients && clients[c].blocked
      modifies this`clients, this`waiting, this`nokey, this`byType, this`blockedClients, this`unblocked
      ensures Valid()
      ensures clients == old(clients)[c := AfterUnblock(old(clients)[c]).(queued := old(clients)[c].queued || queue)]
      ensures unblocked == old(unblocked) + if queue && !old(clients)[c].queued then [c] else []
      ensures ListsLeft(old(waiting), waiting, old(clients)[c].keys, c)
      ensures forall q: Key :: ListAt(waiting, q) == Without(ListAt(old(waiting), q), c)
    {
      hide Valid, ListsLeft, ListAt;
      WaitsWhere(c);
      Unblock(c);
      LeftLists(old(waiting), waiting, old(clients)[c].keys, c);
      if queue {
        QueueForReprocessing(c);
      }
    }

    /** A timeout or an error ends the wait of a client without serving it. */
    method UnblockOnTimeout(c: Client)
      requires Valid() && c in clients && clients[c].blocked
      modifies this`clients, this`waiting, this`nokey, this`byType, this`blockedClients, this`unblocked
      ensures Valid()
      ensures clients == old(clients)[c := AfterUnblock(old(clients)[c]).(queued := true, pending := false)]
      ensures unblocked == old(unblocked) + if !old(clients)[c].queued then [c] else []
      ensures forall q: Key :: ListAt(waiting, q) == Without(ListAt(old(waiting), q), c)
      ensures forall k: Key :: c !in ListAt(waiting, k)
    {
      hide Valid, ListsLeft;
      if clients[c].pending {
        SetPending(c, false);
      }
      UnblockClient(c, true);
      WaitsNowhere(c);
    }

    lemma WaitsNowhere(c: Client)
      requires Valid() && c in clients && clients[c].keys == {}
      ensures forall k: Key :: c !in ListAt(waiting, k)
    {
      forall k: Key ensures c !in ListAt(waiting, k) {
        assert KeyOk(waiting, nokey, HoldingsOf(clients), FlagsOf(clients), k);
      }
    }

    lemma WaitsWhere(c: Client)
      requires Valid() && c in clients
      ensures forall k: Key :: c in ListAt(waiting, k) <==> k in clients[c].keys
    {
      forall k: Key ensures c in ListAt(waiting, k) <==> k in clients[c].keys {
        assert KeyOk(waiting, nokey, HoldingsOf(clients), FlagsOf(clients), k);
      }
    }

    lemma StateIs(c: Client)
      requires Valid() && c in clients
      ensures StateOk(clients[c])
    {
    }

    /** Who is in the list of a key waits for it. */
    lemma WaitsFor(c: Client, k: Key)
      requires Valid() && c in ListAt(waiting, k)
      ensures c in clients && k in clients[c].keys && StateOk(clients[c])
    {
      assert KeyOk(waiting, nokey, HoldingsOf(clients), FlagsOf(clients), k);
    }

    lemma SomeoneWaits(k: Key)
      requires Valid() && k in waiting
      ensures waiting[k] != []
    {
      assert KeyOk(waiting, nokey, HoldingsOf(clients), FlagsOf(clients), k);
    }

    method SetPending(c: Client, pending: bool)
      requires Valid() && c in clients
      modifies this`clients
      ensures Valid() && clients == old(clients)[c := old(clients)[c].(pending := pending)]
    {
      hide IndexOk, CountsOk, ReadyOk, QueueOk;
      var s := clients[c].(pending := pending);
      assert StateOk(clients[c]);
      SameCounts(clients, c, s, byType, blockedClients);
      ClientChange(clients, c, s, unblocked);
      assert HoldingsOf(clients)[c := s.keys] == HoldingsOf(clients);
      assert (if s.onNokey then FlagsOf(clients) + {c} else FlagsOf(clients) - {c}) == FlagsOf(clients);
      clients := clients[c := s];
    }

    // -------------------------------------------------------------------------
    // Signalling
    // -------------------------------------------------------------------------

    /** Whether a signal concerns any blocked client. */
    predicate Concerns(sig: Signal)
      reads this
      requires sig.btype in byType && OnModule in byType
    {
      && IsKeyType(sig.btype)
      && (byType[sig.btype] > 0 || byType[OnModule] > 0)
      && (if sig.deleted then sig.key in nokey else sig.key in waiting)
    }

    lemma TypesCounted()
      requires Valid()
      ensures forall t: BlockType :: t in byType
    {
    }

    /** Queues a key, unless it is queued already. */
    method QueueReady(k: Key)
      requires Valid()
      modifies this`readyDict, this`ready
      ensures Valid()
      ensures readyDict == if k in old(readyDict) then old(readyDict) else old(readyDict) + {k}
      ensures ready == if k in old(readyDict) then old(ready) else old(ready) + [k]
    {
      hide IndexOk, ClientsOk, QueueOk, ReadyOk, CountsOk;
      if k in readyDict {
        return;
      }
      QueuedMore(readyDict, current + ready, k);
      assert current + ready + [k] == current + (ready + [k]);
      readyDict := readyDict + {k};
      ready := ready + [k];
    }

    /** Queues the key of the signal, unless it is queued already or nobody is concerned. */
    method SignalKey(sig: Signal)
      requires Valid()
      modifies this`readyDict, this`ready
      ensures Valid()
      ensures (readyDict, ready) == Announce(clients, sig, (old(readyDict), old(ready)))
    {
      hide Valid, Concerned;
      TypesCounted();
      ConcernsIff(sig);
      if !IsKeyType(sig.btype) {
        return;
      }
      if byType[sig.btype] == 0 && byType[OnModule] == 0 {
        return;
      }
      if sig.deleted {
        if sig.key !in nokey {
          return;
        }
      } else if sig.key !in waiting {
        return;
      }
      QueueReady(sig.key);
    }

    lemma CountedIff(t: BlockType)
      requires Valid()
      ensures t in byType
      ensures byType[t] > 0 <==> exists c :: c in clients && clients[c].blocked && clients[c].btype == t
    {
      if c :| c in clients && clients[c].blocked && clients[c].btype == t {
        assert c in BlockedAs(clients, t);
      }
      if byType[t] > 0 {
        var c :| c in BlockedAs(clients, t);
      }
    }

    lemma WaitedIff(k: Key)
      requires Valid()
      ensures k in waiting <==> exists c :: c in clients && k in clients[c].keys
      ensures k in nokey <==> exists c :: c in clients && k in clients[c].keys && clients[c].onNokey
    {
      var h, flags, l := HoldingsOf(clients), FlagsOf(clients), ListAt(waiting, k);
      assert KeyOk(waiting, nokey, h, flags, k);
      if k in waiting {
        assert Holds(h, l[0], k);
      }
      if c :| c in clients && k in clients[c].keys {
        assert Holds(h, c, k);
      }
      CountIsFlagged(waiting, nokey, h, flags, k);
      if k in nokey {
        var c :| c in FlaggedIn(l, flags);
        assert Holds(h, c, k);
      }
      if c :| c in clients && k in clients[c].keys && clients[c].onNokey {
        assert Holds(h, c, k) && c in FlaggedIn(l, flags);
      }
    }

    /** The quick returns are exact. */
    lemma ConcernsIff(sig: Signal)
      requires Valid()
      ensures sig.btype in byType && OnModule in byType
      ensures Concerns(sig) <==> Concerned(clients, sig)
    {
      hide Valid;
      CountedIff(sig.btype);
      CountedIff(OnModule);
      WaitedIff(sig.key);
    }

    /** The quick returns miss nobody: a waiting client whose type matches gets its key queued. */
    lemma NobodyMissed(c: Client, sig: Signal)
      requires Valid() && IsKeyType(sig.btype) && c in ListAt(waiting, sig.key) && c in clients
      requires clients[c].btype == sig.btype || clients[c].btype == OnModule
      requires sig.deleted ==> clients[c].onNokey
      ensures Concerns(sig)
    {
      assert KeyOk(waiting, nokey, HoldingsOf(clients), FlagsOf(clients), sig.key);
      assert StateOk(clients[c]);
      assert c in BlockedAs(clients, clients[c].btype);
      if sig.deleted {
        var l := ListAt(waiting, sig.key);
        var i :| 0 <= i < |l| && l[i] == c;
        FlaggedSome(l, FlagsOf(clients), i);
      }
    }

    // -------------------------------------------------------------------------
    // Serving
    // -------------------------------------------------------------------------

    method SignalAll(signals: seq<Signal>)
      requires Valid()
      modifies this`readyDict, this`ready
      ensures Valid() && (readyDict, ready) == Announced(clients, signals, old(readyDict), old(ready))
    {
      hide Valid, Concerned, Announce;
      for i := 0 to |signals|
        invariant Valid() && (readyDict, ready) == Announced(clients, signals[..i], old(readyDict), old(ready))
      {
        assert signals[..i + 1][..i] == signals[..i];
        SignalKey(signals[i]);
      }
      assert signals[..|signals|] == signals;
    }

    /** Runs the command of an unblocked client again: it may signal keys, and finishes or blocks again. */
    method Reprocess(c: Client, r: Reaction)
      requires Valid() && c in clients && !clients[c].blocked && (r.again.Some? ==> IsKeyType(r.again.value.btype))
      modifies this
      ensures Valid() && current == old(current)
      ensures clients == old(clients)[c := if r.again.Some? then AfterBlock(old(clients)[c], r.again.value)
        else old(clients)[c].(queued := old(clients)[c].queued || !old(clients)[c].isModule)]
      ensures ListsEntered(old(waiting), waiting, AgainKeys(r), c)
      ensures (readyDict, ready) == Announced(old(clients), r.signals, old(readyDict), old(ready))
      ensures unblocked == old(unblocked)
        + if r.again.None? && !old(clients)[c].isModule && !old(clients)[c].queued then [c] else []
    {
      hide Valid;
      SignalAll(r.signals);
      if r.again.Some? {
        BlockForKeys(c, r.again.value);
      } else {
        if !clients[c].isModule {
          QueueForReprocessing(c);
        }
      }
    }

    /** Takes the client out of the list of one key, and the key out of its own list. */
    method ReleaseKey(c: Client, k: Key)
      requires Valid() && c in clients && k in clients[c].keys
      modifies this`clients, this`waiting, this`nokey
      ensures Valid() && clients == old(clients)[c := old(clients)[c].(keys := old(clients)[c].keys - {k})]
      ensures ListsLeft(old(waiting), waiting, {k}, c)
    {
      hide IndexOk, CountsOk, ReadyOk, QueueOk, ListsLeft;
      assert StateOk(clients[c]);
      var s := clients[c].(keys := clients[c].keys - {k});
      ReleaseEntry(c, k, HoldingsOf(clients), FlagsOf(clients));
      SameCounts(clients, c, s, byType, blockedClients);
      ClientChange(clients, c, s, unblocked);
      assert (if s.onNokey then FlagsOf(clients) + {c} else FlagsOf(clients) - {c}) == FlagsOf(clients);
      clients := clients[c := s];
    }

    /** Takes a client out of the list of the key it is served for, and then out of all others. */
    method LeaveAll(c: Client, k: Key)
      requires Valid() && c in clients && k in clients[c].keys
      modifies this`clients, this`waiting, this`nokey, this`byType, this`blockedClients, this`unblocked
      ensures Valid() && clients == old(clients)[c := AfterUnblock(old(clients)[c])]
      ensures forall q: Key :: ListAt(waiting, q) == Without(ListAt(old(waiting), q), c)
      ensures unblocked == old(unblocked)
    {
      hide Valid, ListsLeft, ListAt;
      StateIs(c);
      WaitsWhere(c);
      ReleaseKey(c, k);
      ghost var v := waiting;
      UnblockClient(c, false);
      LeftAll(old(waiting), v, waiting, k, old(clients)[c].keys, c);
    }

    /** Serves a client because of a key: it leaves all its lists, and its command runs again. */
    method UnblockOnKey(c: Client, k: Key, r: Reaction)
      requires Valid() && c in clients && k in clients[c].keys && clients[c].btype != OnModule
      requires r.again.Some? ==> IsKeyType(r.again.value.btype)
      modifies this
      ensures Valid() && (Suits(old(clients)[c], r.found) ==> Visit(old(Seen()), Seen(), c, r))
    {
      hide Valid, ListsEntered, ListAt, Announced, Suits, Without, IsKeyType;
      LeaveAll(c, k);
      if clients[c].pending {
        SetPending(c, false);
        assert clients == old(clients)[c := Idle(old(clients)[c])];
        ghost var w := waiting;
        Reprocess(c, r);
        AllEntered(w, waiting, AgainKeys(r), c);
        assert Suits(old(clients)[c], r.found) ==> clients == old(clients)[c := Outcome(old(clients)[c], r)];
      }
    }

    /** Whether a client is served when a key with this value type is ready. */
    predicate Serves(c: Client, found: Option<BlockType>)
      reads this
      requires c in clients
    {
      || (found.Some? && clients[c].btype == found.value)
      || (found.Some? && clients[c].btype == OnModule)
      || clients[c].onNokey
    }

    /** Serves one client waiting for the key, if the value there suits it. */
    method ServeOne(c: Client, k: Key, r: Reaction) returns (served: bool)
      requires Valid() && c in ListAt(waiting, k) && (r.again.Some? ==> IsKeyType(r.again.value.btype))
      modifies this
      ensures Valid() && Visit(old(Seen()), Seen(), c, r)
      ensures served == Suits(old(clients)[c], r.found)
    {
      hide Valid;
      WaitsFor(c, k);
      served := Serves(c, r.found);
      if served {
        if clients[c].btype != OnModule {
          UnblockOnKey(c, k, r);
        } else {
          SignalAll(r.signals);
        }
      }
    }

    /** One step of the iterator: it notes the client after c, and then serves c. */
    method ServeNext(k: Key, c: Client, r: Reaction, ghost before: seq<Client>, ghost rest: seq<Client>,
        ghost behind: seq<Client>)
      returns (next: Option<Client>, ghost before': seq<Client>, ghost behind': seq<Client>)
      requires Valid() && (r.again.Some? ==> IsKeyType(r.again.value.btype))
      requires ListAt(waiting, k) == before + ([c] + rest) + behind
      modifies this
      ensures Valid() && Visit(old(Seen()), Seen(), c, r)
      ensures rest != [] ==> next == Some(rest[0])
      ensures ListAt(waiting, k) == before' + rest + behind'
    {
      hide Valid;
      WaitsOnce(k);
      NextInList(before, c, rest, behind);
      next := After(ListAt(waiting, k), c);
      var _ := ServeOne(c, k, r);
      before', behind' := RestInPlace(before, c, rest, behind, ListAt(waiting, k));
    }

    /**
     Goes through the list of a ready key with an iterator that knows the next
     client, and for no more steps than there were clients at first. It visits
     the clients that were waiting, in the order in which they blocked, each
     once, even those that block again while it runs.
     */
    method HandleKey(k: Key, react: nat -> Reaction) returns (visited: seq<Client>, ghost worlds: seq<World>)
      requires Valid() && GoodReactions(react)
      modifies this
      ensures Valid() && current == old(current) && visited == ListAt(old(waiting), k)
      ensures Visits(worlds, visited, react) && worlds[0] == old(Seen()) && worlds[|visited|] == Seen()
      ensures AllServed(old(Seen()), Seen(), visited, react)
    {
      hide Valid, ListAt, Visit, AllServed;
      visited, worlds := [], [Seen()];
      WaitOnce();
      ListIs(waiting, k);
      if k !in waiting {
        VisitsServe(worlds, visited, react);
        return;
      }
      SomeoneWaits(k);
      ghost var rest, before, behind := waiting[k], [], [];
      var next, count: nat := Some(waiting[k][0]), |waiting[k]|;
      assert [] + rest + [] == rest && [] + rest == rest;
      while next.Some? && count > 0
        invariant Valid() && Visits(worlds, visited, react) && worlds[0] == old(Seen()) && worlds[|visited|] == Seen()
        invariant visited + rest == old(ListAt(waiting, k)) && |rest| == count
        invariant ListAt(waiting, k) == before + rest + behind
        invariant rest != [] ==> next == Some(rest[0])
        decreases count
      {
        var c := next.value;
        assert rest == [c] + rest[1..];
        ShiftOne(visited, c, rest[1..]);
        next, before, behind := ServeNext(k, c, react(|visited|), before, rest[1..], behind);
        count := count - 1;
        visited, rest, worlds := visited + [c], rest[1..], worlds + [Seen()];
      }
      assert visited + [] == visited;
      VisitsServe(worlds, visited, react);
    }

    /** No client is waiting twice for a key, so none is visited twice. */
    lemma WaitsOnce(k: Key)
      requires Valid()
      ensures NoneTwice(ListAt(waiting, k))
    {
      assert KeyOk(waiting, nokey, HoldingsOf(clients), FlagsOf(clients), k);
    }

    lemma WaitOnce()
      requires Valid()
      ensures forall q: Key :: NoneTwice(ListAt(waiting, q))
    {
      forall q: Key ensures NoneTwice(ListAt(waiting, q)) {
        WaitsOnce(q);
      }
    }

    /** Sets the keys queued so far aside. */
    method StartRound()
      requires Valid() && current == []
      modifies this`current, this`ready
      ensures Valid() && current == old(ready) && ready == []
    {
      assert [] + ready == ready && ready + [] == ready;
      current, ready := ready, [];
    }

    /** Picks up the next of these keys, which may then be signalled anew. */
    method PickUp() returns (k: Key)
      requires Valid() && current != []
      modifies this`current, this`readyDict
      ensures Valid() && [k] + current == old(current) && readyDict == old(readyDict) - {k}
    {
      k := current[0];
      TakenFirst(readyDict, current, ready);
      current := current[1..];
      readyDict := readyDict - {k};
    }

    /** Handles the keys queued so far, in order; keys signalled meanwhile wait for the next round. */
    method HandleRound(react: nat -> nat -> Reaction) returns (handled: seq<Key>)
      requires Valid() && current == [] && forall i :: GoodReactions(react(i))
      modifies this
      ensures Valid() && current == [] && handled == old(ready)
      ensures RoundHandled(old(Seen()), Seen(), react)
    {
      hide Valid, Visits, AllServed;
      handled := [];
      StartRound();
      ghost var worlds := [Seen()];
      while current != []
        invariant Valid() && handled + current == old(ready) && |worlds| == |handled| + 1
        invariant worlds[0] == old(Seen()).(current := old(ready), ready := []) && worlds[|handled|] == Seen()
        invariant forall i :: 0 <= i < |handled| ==> KeyHandled(worlds[i], worlds[i + 1], react(i))
        decreases |current|
      {
        ghost var w := Seen();
        var k := PickUp();
        ghost var visits;
        var visited;
        visited, visits := HandleKey(k, react(|handled|));
        assert KeyVisits(visits, w, Seen(), visited, react(|handled|));
        handled, worlds := handled + [k], worlds + [Seen()];
      }
      assert KeysHandled(worlds, old(Seen()), react);
    }

    /** Blocks a client on something other than keys. */
    method BlockOther(c: Client, t: BlockType)
      requires Valid() && c in clients && !clients[c].blocked && t != NotBlocked
      modifies this`clients, this`byType, this`blockedClients
      ensures Valid() && clients == old(clients)[c := old(clients)[c].(blocked := true, btype := t)]
    {
      assert StateOk(clients[c]);
      var s := clients[c].(blocked := true, btype := t);
      ClientChange(clients, c, s, unblocked);
      assert HoldingsOf(clients)[c := s.keys] == HoldingsOf(clients) && FlagsOf(clients) - {c} == FlagsOf(clients);
      BlockClient(c, t);
    }

    /** Takes the first client off the queue of unblocked clients. */
    method NextUnblocked() returns (c: Client)
      requires Valid() && unblocked != []
      modifies this`clients, this`unblocked
      ensures Valid() && [c] + unblocked == old(unblocked)
      ensures c in old(clients) && clients == old(clients)[c := old(clients)[c].(queued := false)]
    {
      hide IndexOk, CountsOk, ReadyOk;
      c := unblocked[0];
      assert c in unblocked;
      var s := clients[c].(queued := false);
      assert StateOk(clients[c]);
      SameCounts(clients, c, s, byType, blockedClients);
      HoldingsChange(clients, c, s);
      FlagsChange(clients, c, s);
      assert HoldingsOf(clients)[c := s.keys] == HoldingsOf(clients);
      assert (if s.onNokey then FlagsOf(clients) + {c} else FlagsOf(clients) - {c}) == FlagsOf(clients);
      Unqueued(clients, unblocked);
      clients := clients[c := s];
      unblocked := unblocked[1..];
    }
  }

  function Fresh(isModule: bool): ClientState { ClientState(false, NotBlocked, {}, false, false, false, isModule) }

  lemma {:induction false} Connected(cs: Clients, c: Client, s: ClientState, w: Waiting, n: Counts,
      unblocked: seq<Client>)
    requires c !in cs && ClientsOk(cs) && QueueOk(cs, unblocked) && IndexOk(w, n, HoldingsOf(cs), FlagsOf(cs))
    requires StateOk(s) && s.keys == {} && !s.onNokey && !s.queued
    ensures ClientsOk(cs[c := s]) && QueueOk(cs[c := s], unblocked)
    ensures IndexOk(w, n, HoldingsOf(cs[c := s]), FlagsOf(cs[c := s]))
  {
    var h, h', flags := HoldingsOf(cs), HoldingsOf(cs[c := s]), FlagsOf(cs);
    assert FlagsOf(cs[c := s]) == flags;
    forall k: Key ensures KeyOk(w, n, h', flags, k) {
      assert KeyOk(w, n, h, flags, k);
      OtherKey(w, n, h, w, n, h', flags, k);
    }
  }

  lemma {:induction false} Unqueued(cs: Clients, unblocked: seq<Client>)
    requires ClientsOk(cs) && QueueOk(cs, unblocked) && unblocked != []
    ensures var c := unblocked[0];
      && c in cs
      && ClientsOk(cs[c := cs[c].(queued := false)])
      && QueueOk(cs[c := cs[c].(queued := false)], unblocked[1..])
  {
    var c := unblocked[0];
    assert c in unblocked;
    assert StateOk(cs[c]);
    assert forall i :: 0 <= i < |unblocked[1..]| ==> unblocked[1..][i] == unblocked[i + 1];
    forall d ensures d in unblocked[1..] <==> d in unblocked && d != c {
    }
  }

  // ---------------------------------------------------------------------------
  // Runs
  // ---------------------------------------------------------------------------

  method Step(s: Server, op: Op)
    requires s.Valid() && s.current == [] && (op.DoHandle? ==> forall j :: GoodReactions(op.react(j)))
    modifies s
    ensures s.Valid() && s.current == [] && Happens(old(s.Seen()), op, s.Seen())
  {
    hide RoundHandled, Announce, Server.Valid;
    match op
    case DoConnect(c, isModule) => if c !in s.clients { s.Connect(c, isModule); }
    case DoBlockForKeys(c, b) =>
      if c in s.clients && !s.clients[c].blocked && IsKeyType(b.btype) { s.BlockForKeys(c, b); }
    case DoBlockOther(c, t) =>
      if c in s.clients && !s.clients[c].blocked && t != NotBlocked { s.BlockOther(c, t); }
    case DoTimeout(c) => if c in s.clients && s.clients[c].blocked { s.UnblockOnTimeout(c); }
    case DoUnblock(c, queue) => if c in s.clients && s.clients[c].blocked { s.UnblockClient(c, queue); }
    case DoSignal(sig) => s.SignalKey(sig);
    case DoHandle(react) => var _ := s.HandleRound(react);
    case DoNextUnblocked => if s.unblocked != [] { var _ := s.NextUnblocked(); }
  }

  /** In every run the index, the counts, the counters and the queues agree. */
  method Run(ops: seq<Op>) returns (s: Server, ghost worlds: seq<World>)
    requires forall i :: 0 <= i < |ops| && ops[i].DoHandle? ==> forall j :: GoodReactions(ops[i].react(j))
    ensures s.Valid() && s.current == []
    ensures |worlds| == |ops| + 1 && worlds[0] == World(map[], map[], {}, [], [], []) && worlds[|ops|] == s.Seen()
    ensures forall i :: 0 <= i < |ops| ==> Happens(worlds[i], ops[i], worlds[i + 1])
  {
    hide Happens, Server.Valid, GoodReactions;
    s := new Server();
    worlds := [s.Seen()];
    for i := 0 to |ops|
      invariant fresh(s) && s.Valid() && s.current == []
      invariant |worlds| == i + 1 && worlds[0] == World(map[], map[], {}, [], [], []) && worlds[i] == s.Seen()
      invariant forall j :: 0 <= j < i ==> Happens(worlds[j], ops[j], worlds[j + 1])
    {
      Step(s, ops[i]);
      worlds := worlds + [s.Seen()];
    }
  }

  ghost predicate OthersSame(cs: Clients, cs': Clients, c: Client) {
    cs'.Keys == cs.Keys && forall d :: d in cs && d != c ==> cs'[d] == cs[d]
  }

  function AgainKeys(r: Reaction): set<Key> { if r.again.Some? then KeySet(r.again.value.keys) else {} }

  /** The client after c in a list. */
  function After(l: seq<Client>, c: Client): Option<Client> {
    if l == [] then None else if l[0] != c then After(l[1..], c) else if |l| > 1 then Some(l[1]) else None
  }

  lemma {:induction false} AfterSkips(a: seq<Client>, c: Client, b: seq<Client>)
    requires c !in a
    ensures After(a + [c] + b, c) == if b == [] then None else Some(b[0])
  {
    var l := a + [c] + b;
    if a != [] {
      assert l[1..] == a[1..] + [c] + b;
      AfterSkips(a[1..], c, b);
    }
  }

  lemma {:induction false} NextInList(before: seq<Client>, c: Client, rest: seq<Client>, behind: seq<Client>)
    requires NoneTwice(before + ([c] + rest) + behind)
    ensures var l := before + ([c] + rest) + behind;
      && (rest != [] ==> After(l, c) == Some(rest[0]))
      && Without(l, c) == before + rest + behind
      && l == before + [c] + rest + behind
  {
    var l := before + ([c] + rest) + behind;
    assert l == before + [c] + (rest + behind);
    assert c !in before by {
      forall i | 0 <= i < |before| ensures before[i] != c {
        assert l[i] == before[i] && l[|before|] == c;
      }
    }
    AfterSkips(before, c, rest + behind);
    WithoutMiddle(before, c, rest + behind);
  }

  /** Whatever happens to the client that is served, those behind it keep their order. */
  lemma {:induction false} RestInPlace(before: seq<Client>, c: Client, rest: seq<Client>, behind: seq<Client>,
      l': seq<Client>)
    returns (before': seq<Client>, behind': seq<Client>)
    requires NoneTwice(before + ([c] + rest) + behind)
    requires var l := before + ([c] + rest) + behind;
      l' == l || l' == Without(l, c) || l' == Without(l, c) + [c]
    ensures l' == before' + rest + behind'
  {
    var l := before + ([c] + rest) + behind;
    NextInList(before, c, rest, behind);
    before', behind' := before, behind;
    if l' == l {
      before' := before + [c];
    } else if l' == Without(l, c) + [c] {
      behind' := behind + [c];
      assert before + rest + behind + [c] == before + rest + (behind + [c]);
    }
  }

  lemma {:induction false} TakenFirst(dict: set<Key>, current: seq<Key>, ready: seq<Key>)
    requires ReadyOk(dict, current + ready) && current != []
    ensures ReadyOk(dict - {current[0]}, current[1..] + ready)
  {
    var q := current + ready;
    assert q[0] == current[0] && q[1..] == current[1..] + ready;
    assert forall i :: 0 <= i < |q[1..]| ==> q[1..][i] == q[i + 1];
    forall k ensures k in q[1..] <==> k in q && k != q[0] {
    }
  }

  lemma {:induction false} QueuedMore(dict: set<Key>, queue: seq<Key>, k: Key)
    requires ReadyOk(dict, queue) && k !in dict
    ensures ReadyOk(dict + {k}, queue + [k])
  {
  }

  lemma ShiftOne(a: seq<Client>, c: Client, b: seq<Client>)
    ensures a + ([c] + b) == a + [c] + b
  {
  }

  lemma ListIs(w: Waiting, k: Key)
    ensures ListAt(w, k) == if k in w then w[k] else []
  {
  }

  /** c was added at the end of the lists of these keys, and no other list changed. */
  ghost predicate ListsEntered(w: Waiting, w': Waiting, keys: set<Key>, c: Client) {
    forall k: Key :: ListAt(w', k) == if k in keys then ListAt(w, k) + [c] else ListAt(w, k)
  }

  /** c was taken out of the lists of these keys, and no other list changed. */
  ghost predicate ListsLeft(w: Waiting, w': Waiting, keys: set<Key>, c: Client) {
    forall k: Key :: ListAt(w', k) == if k in keys then Without(ListAt(w, k), c) else ListAt(w, k)
  }

  lemma LeftLists(u: Waiting, w: Waiting, keys: set<Key>, c: Client)
    requires ListsLeft(u, w, keys, c) && forall q: Key :: c in ListAt(u, q) <==> q in keys
    ensures forall q: Key :: ListAt(w, q) == Without(ListAt(u, q), c)
  {
    hide ListAt;
    forall q: Key ensures ListAt(w, q) == Without(ListAt(u, q), c) {
      if q !in keys {
        WithoutAbsent(ListAt(u, q), c);
      }
    }
  }

  /** c was taken out of the list of k, and then out of those of its other keys, so out of all lists. */
  lemma LeftAll(u: Waiting, v: Waiting, w: Waiting, k: Key, keys: set<Key>, c: Client)
    requires ListsLeft(u, v, {k}, c) && ListsLeft(v, w, keys - {k}, c) && k in keys
    requires forall q: Key :: c in ListAt(u, q) <==> q in keys
    ensures forall q: Key :: ListAt(w, q) == Without(ListAt(u, q), c)
  {
    hide ListAt;
    forall q: Key ensures ListAt(w, q) == Without(ListAt(u, q), c) {
      if q !in keys {
        WithoutAbsent(ListAt(u, q), c);
      }
    }
  }

  lemma AllEntered(w: Waiting, w': Waiting, keys: set<Key>, c: Client)
    requires ListsEntered(w, w', keys, c)
    ensures forall q: Key :: ListAt(w', q) == if q in keys then ListAt(w, q) + [c] else ListAt(w, q)
  {
  }

  /** The state of a client once it is blocked on keys. */
  function AfterBlock(s: ClientState, b: Block): ClientState {
    s.(blocked := true, btype := b.btype, keys := KeySet(b.keys), onNokey := b.onNokey, pending := s.pending
        || b.btype != OnModule)
  }

  function AfterUnblock(s: ClientState): ClientState {
    s.(blocked := false, btype := NotBlocked, keys := {}, onNokey := false)
  }

  lemma {:induction false} Uncounted(cs: Clients, c: Client, s: ClientState, byType: map<BlockType, nat>, regular: nat)
    requires c in cs && CountsOk(cs, byType, regular) && cs[c].blocked && !s.blocked && s.isModule == cs[c].isModule
    ensures byType[cs[c].btype] > 0 && (!s.isModule ==> regular > 0)
    ensures CountsOk(cs[c := s], byType[cs[c].btype := byType[cs[c].btype] - 1],
        if s.isModule then regular else regular - 1)
  {
    forall t: BlockType ensures |BlockedAs(cs[c := s], t)| + AsNumber(t == cs[c].btype) == |BlockedAs(cs, t)| {
      OneChanged(cs, c, s, t);
    }
    OneChangedRegular(cs, c, s);
    assert c in BlockedAs(cs, cs[c].btype);
  }

  lemma {:induction false} Queued(cs: Clients, c: Client, s: ClientState, unblocked: seq<Client>)
    requires c in cs && ClientsOk(cs) && QueueOk(cs, unblocked) && !cs[c].queued && s == cs[c].(queued := true)
    ensures ClientsOk(cs[c := s]) && QueueOk(cs[c := s], unblocked + [c])
  {
    assert StateOk(cs[c]);
  }

  lemma UpdateTwice(cs: Clients, c: Client, s: ClientState, t: ClientState)
    ensures cs[c := s][c := t] == cs[c := t]
  {
  }

  /** What changes when one client changes, if its place in the queue of unblocked clients stays. */
  lemma {:induction false} ClientChange(cs: Clients, c: Client, s: ClientState, unblocked: seq<Client>)
    requires c in cs && ClientsOk(cs) && StateOk(s) && QueueOk(cs, unblocked) && s.queued == cs[c].queued
    ensures ClientsOk(cs[c := s]) && QueueOk(cs[c := s], unblocked)
    ensures HoldingsOf(cs[c := s]) == HoldingsOf(cs)[c := s.keys]
    ensures FlagsOf(cs[c := s]) == if s.onNokey then FlagsOf(cs) + {c} else FlagsOf(cs) - {c}
  {
    HoldingsChange(cs, c, s);
    FlagsChange(cs, c, s);
  }

  lemma {:induction false} SameCounts(cs: Clients, c: Client, s: ClientState, byType: map<BlockType, nat>, regular: nat)
    requires c in cs && CountsOk(cs, byType, regular)
    requires s.blocked == cs[c].blocked && s.btype == cs[c].btype && s.isModule == cs[c].isModule
    ensures CountsOk(cs[c := s], byType, regular)
  {
    forall t: BlockType ensures |BlockedAs(cs[c := s], t)| == |BlockedAs(cs, t)| {
      OneChanged(cs, c, s, t);
    }
    OneChangedRegular(cs, c, s);
  }
}
