/**
 What serving the clients that wait for a ready key is for: which clients are
 served, how they end, who stays in the lists and in which order, and which
 keys are queued.
 */
module BlockWorld {

  import opened BlockIndex
  import opened Wrappers

  datatype BlockType =
    | NotBlocked | OnList | OnWait | OnWaitAof | OnModule | OnStream | OnZset | OnPostpone | OnShutdown

  predicate IsKeyType(t: BlockType) { t == OnList || t == OnZset || t == OnStream || t == OnModule }

  datatype ClientState = ClientState(
    blocked: bool, btype: BlockType, keys: set<Key>, onNokey: bool, pending: bool, queued: bool, isModule: bool)

  type Clients = map<Client, ClientState>

  /** A signal that a key may serve clients: the type of its value, and whether it went away. */
  datatype Signal = Signal(key: Key, btype: BlockType, deleted: bool)

  datatype Block = Block(btype: BlockType, keys: seq<Key>, onNokey: bool)

  /** What happens when a client is served: the type found at the key, the signals sent, and whether it blocks again. */
  datatype Reaction = Reaction(found: Option<BlockType>, signals: seq<Signal>, again: Option<Block>)

  /** What can be seen of the server between two steps. */
  datatype World = World(
    clients: Clients, waiting: Waiting, readyDict: set<Key>, current: seq<Key>, ready: seq<Key>,
    unblocked: seq<Client>)

  function KeySet(keys: seq<Key>): set<Key> { set k | k in keys }

  // ---------------------------------------------------------------------------
  // Signals
  // ---------------------------------------------------------------------------

  /** Somebody waits for the key of the signal, and somebody is blocked in a way that the signal may end. */
  ghost predicate Concerned(cs: Clients, sig: Signal) {
    && sig.btype in {OnList, OnZset, OnStream, OnModule}
    && (exists c :: c in cs && cs[c].blocked && (cs[c].btype == sig.btype || cs[c].btype == OnModule))
    && (exists c :: c in cs && sig.key in cs[c].keys && (sig.deleted ==> cs[c].onNokey))
  }

  /** The ready keys after some signals: those that concern somebody, each once, in the order of the signals. */
  ghost function Announced(cs: Clients, signals: seq<Signal>, dict: set<Key>, ready: seq<Key>): (set<Key>, seq<Key>) {
    if signals == [] then (dict, ready)
    else
      var n := |signals| - 1;
      Announce(cs, signals[n], Announced(cs, signals[..n], dict, ready))
  }

  ghost function Announce(cs: Clients, sig: Signal, r: (set<Key>, seq<Key>)): (set<Key>, seq<Key>) {
    if Concerned(cs, sig) && sig.key !in r.0 then (r.0 + {sig.key}, r.1 + [sig.key]) else r
  }

  ghost predicate Called(cs: Clients, signals: seq<Signal>, k: Key) {
    exists i :: 0 <= i < |signals| && signals[i].key == k && Concerned(cs, signals[i])
  }

  lemma {:induction false} CalledMore(cs: Clients, signals: seq<Signal>, k: Key)
    requires signals != []
    ensures var n := |signals| - 1;
      Called(cs, signals, k) <==> Called(cs, signals[..n], k) || (signals[n].key == k && Concerned(cs, signals[n]))
  {
    hide Concerned;
    var init := signals[..|signals| - 1];
    if Called(cs, init, k) {
      var i :| 0 <= i < |init| && init[i].key == k && Concerned(cs, init[i]);
      assert signals[i] == init[i];
    }
    if i :| 0 <= i < |signals| && signals[i].key == k && Concerned(cs, signals[i]) {
      assert i < |init| ==> init[i] == signals[i];
    }
  }

  /** Exactly the keys of the signals that concern somebody are queued behind the others, unless they are queued. */
  lemma {:induction false} AnnouncedAre(cs: Clients, signals: seq<Signal>, dict: set<Key>, ready: seq<Key>)
    returns (more: seq<Key>)
    ensures Announced(cs, signals, dict, ready).1 == ready + more && NoneTwice(more)
    ensures forall k :: k in more <==> k !in dict && Called(cs, signals, k)
    ensures forall k :: k in Announced(cs, signals, dict, ready).0 <==> k in dict || Called(cs, signals, k)
  {
    hide Concerned, Called;
    more := [];
    if signals == [] {
      forall k ensures !Called(cs, signals, k) {
        NotCalled(cs, k);
      }
    } else {
      var n := |signals| - 1;
      more := AnnouncedAre(cs, signals[..n], dict, ready);
      forall k ensures Called(cs, signals, k)
        <==> Called(cs, signals[..n], k) || (signals[n].key == k && Concerned(cs, signals[n])) {
        CalledMore(cs, signals, k);
      }
      var k := signals[n].key;
      if Concerned(cs, signals[n]) && k !in Announced(cs, signals[..n], dict, ready).0 {
        assert ready + more + [k] == ready + (more + [k]);
        more := more + [k];
      }
    }
  }

  lemma NotCalled(cs: Clients, k: Key)
    ensures !Called(cs, [], k)
  {
  }

  /** Keys are queued in the order of the signals. */
  lemma {:induction false} AnnouncedInOrder(cs: Clients, signals: seq<Signal>, n: nat, dict: set<Key>, ready: seq<Key>)
    requires n <= |signals|
    ensures Announced(cs, signals[..n], dict, ready).1 <= Announced(cs, signals, dict, ready).1
  {
    if n == |signals| {
      assert signals[..n] == signals;
    } else {
      var init := signals[..|signals| - 1];
      assert init[..n] == signals[..n];
      AnnouncedInOrder(cs, init, n, dict, ready);
    }
  }

  // ---------------------------------------------------------------------------
  // One visit
  // ---------------------------------------------------------------------------

  /** A value of the awaited type is there, or any value for a module, or the client wants to know in any case. */
  predicate Suits(s: ClientState, found: Option<BlockType>) {
    (found.Some? && (s.btype == found.value || s.btype == OnModule)) || s.onNokey
  }

  /** The client is taken out of its lists. */
  predicate Leaves(s: ClientState, r: Reaction) { Suits(s, r.found) && s.btype != OnModule }

  /** Its command runs again and blocks again. */
  predicate Returns(s: ClientState, r: Reaction) { Leaves(s, r) && s.pending && r.again.Some? }

  predicate ReturnsTo(s: ClientState, r: Reaction, q: Key) { Returns(s, r) && q in r.again.value.keys }

  /** Its command runs again and ends, so that its further input is due, unless that is already known. */
  predicate Finishes(s: ClientState, r: Reaction) {
    Leaves(s, r) && s.pending && r.again.None? && !s.isModule && !s.queued
  }

  /** Neither blocked nor waiting for anything. */
  function Idle(s: ClientState): ClientState {
    ClientState(false, NotBlocked, {}, false, false, s.queued, s.isModule)
  }

  function Outcome(s: ClientState, r: Reaction): ClientState {
    if !Leaves(s, r) then s
    else if Returns(s, r) then
      var b := r.again.value;
      ClientState(true, b.btype, KeySet(b.keys), b.onNokey, b.btype != OnModule, s.queued, s.isModule)
    else if Finishes(s, r) then Idle(s).(queued := true)
    else Idle(s)
  }

  /** The signals that the visit sends, seen by the clients at the time when it sends them. */
  ghost function Heard(w: World, c: Client, r: Reaction): (set<Key>, seq<Key>)
    requires c in w.clients
  {
    var s := w.clients[c];
    if !Suits(s, r.found) then (w.readyDict, w.ready)
    else if s.btype == OnModule then Announced(w.clients, r.signals, w.readyDict, w.ready)
    else if !s.pending then (w.readyDict, w.ready)
    else Announced(w.clients[c := Idle(s)], r.signals, w.readyDict, w.ready)
  }

  ghost predicate Visit(w: World, w': World, c: Client, r: Reaction) {
    && c in w.clients
    && var s := w.clients[c];
      && w'.clients == w.clients[c := Outcome(s, r)]
      && (forall q: Key :: ListAt(w'.waiting, q) == Moved(ListAt(w.waiting, q), s, r, q, c))
      && (w'.readyDict, w'.ready) == Heard(w, c, r)
      && w'.unblocked == w.unblocked + (if Finishes(s, r) then [c] else [])
      && w'.current == w.current
  }

  ghost function Moved(l: seq<Client>, s: ClientState, r: Reaction, q: Key, c: Client): seq<Client> {
    (if Leaves(s, r) then Without(l, c) else l) + (if ReturnsTo(s, r, q) then [c] else [])
  }

  // ---------------------------------------------------------------------------
  // All visits to the clients waiting for a key
  // ---------------------------------------------------------------------------

  ghost predicate Visits(worlds: seq<World>, visited: seq<Client>, react: nat -> Reaction) {
    && |worlds| == |visited| + 1
    && forall i :: 0 <= i < |visited| ==> Visit(worlds[i], worlds[i + 1], visited[i], react(i))
  }

  /** The visited clients that left. */
  ghost function Gone(cs: Clients, visited: seq<Client>, react: nat -> Reaction): set<Client> {
    set i | 0 <= i < |visited| && visited[i] in cs && Leaves(cs[visited[i]], react(i)) :: visited[i]
  }

  /** The visited clients that blocked on q again, in the order of the visits. */
  ghost function Back(cs: Clients, visited: seq<Client>, react: nat -> Reaction, q: Key): seq<Client> {
    if visited == [] then []
    else
      var n := |visited| - 1;
      var c := visited[n];
      Back(cs, visited[..n], react, q) + (if c in cs && ReturnsTo(cs[c], react(n), q) then [c] else [])
  }

  /** The visited clients whose further input is due, in the order of the visits. */
  ghost function Done(cs: Clients, visited: seq<Client>, react: nat -> Reaction): seq<Client> {
    if visited == [] then []
    else
      var n := |visited| - 1;
      var c := visited[n];
      Done(cs, visited[..n], react) + (if c in cs && Finishes(cs[c], react(n)) then [c] else [])
  }

  /** A list without some clients. */
  ghost function Staying(l: seq<Client>, gone: set<Client>): seq<Client> {
    if l == [] then []
    else Staying(l[..|l| - 1], gone) + (if l[|l| - 1] in gone then [] else [l[|l| - 1]])
  }

  /**
   What the visits do, told by the state before them: everybody visited ends as
   its own state and reaction say, and nobody else changes; in every list those
   that did not leave stay in their order, followed by those that blocked on
   the key again, in the order of the visits.
   */
  ghost predicate AllServed(w: World, w': World, visited: seq<Client>, react: nat -> Reaction) {
    && ClientsServed(w.clients, w'.clients, visited, react)
    && (forall q: Key ::
      ListAt(w'.waiting, q)
        == Staying(ListAt(w.waiting, q), Gone(w.clients, visited, react)) + Back(w.clients, visited, react, q))
    && w'.unblocked == w.unblocked + Done(w.clients, visited, react)
    && w'.current == w.current
  }

  ghost predicate ClientsServed(cs: Clients, cs': Clients, visited: seq<Client>, react: nat -> Reaction) {
    && cs'.Keys == cs.Keys
    && (forall c :: c in cs && c !in visited ==> cs'[c] == cs[c])
    && (forall i :: 0 <= i < |visited| ==>
      visited[i] in cs && cs'[visited[i]] == Outcome(cs[visited[i]], react(i)))
  }

  lemma {:induction false} StayingAll(l: seq<Client>)
    ensures Staying(l, {}) == l
  {
    if l != [] {
      StayingAll(l[..|l| - 1]);
    }
  }

  lemma {:induction false} StayingIn(l: seq<Client>, gone: set<Client>, c: Client)
    ensures c in Staying(l, gone) <==> c in l && c !in gone
  {
    if l != [] {
      StayingIn(l[..|l| - 1], gone, c);
      assert l == l[..|l| - 1] + [l[|l| - 1]];
    }
  }

  lemma {:induction false} StayingOther(l: seq<Client>, gone: set<Client>, c: Client)
    requires c !in l
    ensures Staying(l, gone + {c}) == Staying(l, gone)
  {
    if l != [] {
      StayingOther(l[..|l| - 1], gone, c);
    }
  }

  lemma {:induction false} WithoutAppend(l: seq<Client>, m: seq<Client>, c: Client)
    ensures Without(l + m, c) == if c in l then Without(l, c) + m else l + Without(m, c)
  {
    if l == [] {
      assert l + m == m;
    } else {
      assert (l + m)[1..] == l[1..] + m;
      if l[0] != c {
        WithoutAppend(l[1..], m, c);
        InRest(l, c);
        ShiftFront(l, l[1..], m, Without(l[1..], c), Without(m, c));
      }
    }
  }

  lemma InRest(l: seq<Client>, c: Client)
    requires l != [] && l[0] != c
    ensures c in l <==> c in l[1..]
  {
  }

  lemma ShiftFront(l: seq<Client>, tail: seq<Client>, m: seq<Client>, x: seq<Client>, y: seq<Client>)
    requires l != [] && tail == l[1..]
    ensures [l[0]] + (x + m) == [l[0]] + x + m && [l[0]] + (tail + y) == l + y
  {
  }

  /** One more client leaves. */
  lemma {:induction false} OneLeaves(l: seq<Client>, gone: set<Client>, c: Client)
    requires NoneTwice(l)
    ensures Without(Staying(l, gone), c) == Staying(l, gone + {c})
  {
    if l != [] {
      var init, last := l[..|l| - 1], l[|l| - 1];
      OneLeaves(init, gone, c);
      StayingIn(init, gone, c);
      WithoutAppend(Staying(init, gone), if last in gone then [] else [last], c);
      if last == c {
        assert c !in init;
        StayingOther(init, gone, c);
      } else {
        WithoutAbsent([last], c);
        WithoutAbsent([], c);
        if c !in Staying(init, gone) {
          WithoutAbsent(Staying(init, gone), c);
        }
      }
    }
  }

  lemma {:induction false} LeavesFront(l: seq<Client>, gone: set<Client>, back: seq<Client>, c: Client)
    requires NoneTwice(l) && c !in back
    ensures Without(Staying(l, gone) + back, c) == Staying(l, gone + {c}) + back
  {
    hide Staying, Without, NoneTwice;
    OneLeaves(l, gone, c);
    WithoutAppend(Staying(l, gone), back, c);
    WithoutAbsent(back, c);
    if c !in Staying(l, gone) {
      WithoutAbsent(Staying(l, gone), c);
    }
  }

  lemma {:induction false} BackIn(cs: Clients, visited: seq<Client>, react: nat -> Reaction, q: Key, c: Client)
    requires c !in visited
    ensures c !in Back(cs, visited, react, q)
  {
    if visited != [] {
      BackIn(cs, visited[..|visited| - 1], react, q, c);
    }
  }

  lemma {:induction false} GoneMore(cs: Clients, visited: seq<Client>, c: Client, react: nat -> Reaction)
    requires c in cs
    ensures Gone(cs, visited + [c], react)
      == if Leaves(cs[c], react(|visited|)) then Gone(cs, visited, react) + {c} else Gone(cs, visited, react)
  {
    var more := visited + [c];
    assert more[|visited|] == c;
    assert forall i :: 0 <= i < |visited| ==> more[i] == visited[i];
  }

  /** The list of q after one more visit. */
  lemma {:induction false} ListAfter(cs: Clients, visited: seq<Client>, c: Client, react: nat -> Reaction, q: Key,
      l: seq<Client>)
    requires c in cs && c !in visited && NoneTwice(l)
    ensures Moved(Staying(l, Gone(cs, visited, react)) + Back(cs, visited, react, q), cs[c], react(|visited|), q, c)
      == Staying(l, Gone(cs, visited + [c], react)) + Back(cs, visited + [c], react, q)
  {
    hide Staying, Gone, Without, Leaves, ReturnsTo, NoneTwice;
    var r, s := react(|visited|), cs[c];
    var gone, back := Gone(cs, visited, react), Back(cs, visited, react, q);
    GoneMore(cs, visited, c, react);
    assert (visited + [c])[..|visited|] == visited;
    if Leaves(s, r) {
      BackIn(cs, visited, react, q, c);
      LeavesFront(l, gone, back, c);
    }
  }

  lemma {:induction false} NobodyServed(w: World, react: nat -> Reaction)
    ensures AllServed(w, w, [], react)
  {
    assert Gone(w.clients, [], react) == {};
    forall q: Key ensures Staying(ListAt(w.waiting, q), {}) == ListAt(w.waiting, q) {
      StayingAll(ListAt(w.waiting, q));
    }
  }

  lemma {:induction false} VisitsServe(worlds: seq<World>, visited: seq<Client>, react: nat -> Reaction)
    requires Visits(worlds, visited, react) && NoneTwice(visited)
    requires forall q: Key :: NoneTwice(ListAt(worlds[0].waiting, q))
    ensures AllServed(worlds[0], worlds[|visited|], visited, react)
    ensures worlds[|visited|].current == worlds[0].current
  {
    hide ClientsServed, Visit;
    var n := |visited| - 1;
    var w := worlds[0];
    if n < 0 {
      assert visited == [];
      NobodyServed(w, react);
    } else {
      VisitsServe(worlds[..n + 1], visited[..n], react);
      assert Visit(worlds[n], worlds[n + 1], visited[n], react(n));
      OneMoreServed(w, worlds[n], worlds[n + 1], visited[..n], visited[n], react);
      assert visited[..n] + [visited[n]] == visited;
    }
  }

  lemma {:induction false} OneMoreClient(cs: Clients, cs': Clients, visited: seq<Client>, c: Client,
      react: nat -> Reaction)
    requires ClientsServed(cs, cs', visited, react) && c in cs' && c !in visited
    ensures c in cs && cs'[c] == cs[c]
    ensures ClientsServed(cs, cs'[c := Outcome(cs[c], react(|visited|))], visited + [c], react)
  {
    hide Outcome;
  }

  lemma {:induction false} OneMoreServed(u: World, v: World, w: World, visited: seq<Client>, c: Client,
      react: nat -> Reaction)
    requires AllServed(u, v, visited, react) && Visit(v, w, c, react(|visited|)) && c !in visited
    requires forall q: Key :: NoneTwice(ListAt(u.waiting, q))
    ensures AllServed(u, w, visited + [c], react)
  {
    hide Gone, Moved, Heard, Outcome, ListAt, Staying, ClientsServed, Finishes;
    OneMoreClient(u.clients, v.clients, visited, c, react);
    assert (visited + [c])[..|visited|] == visited;
    forall q: Key ensures ListAt(w.waiting, q) == Staying(ListAt(u.waiting, q), Gone(u.clients, visited + [c], react))
        + Back(u.clients, visited + [c], react, q) {
      ListAfter(u.clients, visited, c, react, q, ListAt(u.waiting, q));
    }
  }

  lemma {:induction false} BackIff(cs: Clients, visited: seq<Client>, react: nat -> Reaction, q: Key, i: nat)
    requires NoneTwice(visited) && i < |visited| && visited[i] in cs
    ensures visited[i] in Back(cs, visited, react, q) <==> ReturnsTo(cs[visited[i]], react(i), q)
  {
    hide ReturnsTo;
    var n := |visited| - 1;
    if i == n {
      BackIn(cs, visited[..n], react, q, visited[n]);
    } else {
      BackIff(cs, visited[..n], react, q, i);
    }
  }

  /** Who left is afterwards in the lists of exactly those keys on which it blocked again. */
  lemma {:induction false} ServedWaits(w: World, w': World, visited: seq<Client>, react: nat -> Reaction, i: nat,
      q: Key)
    requires AllServed(w, w', visited, react) && NoneTwice(visited) && i < |visited|
    ensures var s, r := w.clients[visited[i]], react(i);
      && (Leaves(s, r) ==> (visited[i] in ListAt(w'.waiting, q) <==> ReturnsTo(s, r, q)))
      && (Leaves(s, r) ==> (w'.clients[visited[i]].blocked <==> s.pending && r.again.Some?))
      && (!Leaves(s, r) ==> (visited[i] in ListAt(w'.waiting, q) <==> visited[i] in ListAt(w.waiting, q)))
  {
    hide Staying;
    var c := visited[i];
    StayingIn(ListAt(w.waiting, q), Gone(w.clients, visited, react), c);
    BackIff(w.clients, visited, react, q, i);
  }

  // ---------------------------------------------------------------------------
  // Rounds and runs
  // ---------------------------------------------------------------------------

  ghost predicate GoodReactions(react: nat -> Reaction) {
    forall j :: react(j).again.Some? ==> IsKeyType(react(j).again.value.btype)
  }

  /** The first key of the round is picked up, and all that wait for it are visited. */
  ghost predicate KeyHandled(w: World, w': World, react: nat -> Reaction) {
    && w.current != []
    && var k := w.current[0];
      exists worlds: seq<World> :: KeyVisits(worlds, w, w', ListAt(w.waiting, k), react)
  }

  ghost predicate KeyVisits(worlds: seq<World>, w: World, w': World, visited: seq<Client>, react: nat -> Reaction)
    requires w.current != []
  {
    && Visits(worlds, visited, react)
    && worlds[0] == w.(current := w.current[1..], readyDict := w.readyDict - {w.current[0]})
    && worlds[|visited|] == w'
  }

  /** The keys that were ready are handled one after the other; keys that get ready meanwhile wait. */
  ghost predicate RoundHandled(w: World, w': World, react: nat -> nat -> Reaction) {
    exists worlds: seq<World> :: KeysHandled(worlds, w, react) && worlds[|w.ready|] == w'
  }

  ghost predicate KeysHandled(worlds: seq<World>, w: World, react: nat -> nat -> Reaction) {
    && |worlds| == |w.ready| + 1
    && worlds[0] == w.(current := w.ready, ready := [])
    && forall i :: 0 <= i < |w.ready| ==> KeyHandled(worlds[i], worlds[i + 1], react(i))
  }

  datatype Op =
    | DoConnect(c: Client, isModule: bool)
    | DoBlockForKeys(c: Client, b: Block)
    | DoBlockOther(c: Client, t: BlockType)
    | DoTimeout(c: Client)
    | DoUnblock(c: Client, queue: bool)
    | DoSignal(sig: Signal)
    | DoHandle(react: nat -> nat -> Reaction)
    | DoNextUnblocked

  /** c is taken out of all lists, and its further input is due if it is queued. */
  ghost predicate Left(w: World, w': World, c: Client, s: ClientState, queue: bool)
    requires c in w.clients
  {
    && (forall q: Key :: ListAt(w'.waiting, q) == Without(ListAt(w.waiting, q), c))
    && w' == w.(clients := w.clients[c := s], waiting := w'.waiting,
      unblocked := w.unblocked + if queue && !w.clients[c].queued then [c] else [])
  }

  /** What one event does; events that cannot happen do nothing. */
  ghost predicate Happens(w: World, op: Op, w': World) {
    match op
    case DoConnect(c, isModule) =>
      w' == if c in w.clients then w
        else w.(clients := w.clients[c := ClientState(false, NotBlocked, {}, false, false, false, isModule)])
    case DoBlockForKeys(c, b) =>
      if c in w.clients && !w.clients[c].blocked && IsKeyType(b.btype) then
        var s := w.clients[c];
        var blocked := ClientState(true, b.btype, KeySet(b.keys), b.onNokey, s.pending || b.btype != OnModule,
          s.queued, s.isModule);
        && (forall q: Key :: ListAt(w'.waiting, q) == ListAt(w.waiting, q) + if q in b.keys then [c] else [])
        && w' == w.(clients := w.clients[c := blocked], waiting := w'.waiting)
      else w' == w
    case DoBlockOther(c, t) =>
      w' == if c in w.clients && !w.clients[c].blocked && t != NotBlocked
        then w.(clients := w.clients[c := w.clients[c].(blocked := true, btype := t)]) else w
    case DoTimeout(c) =>
      if c in w.clients && w.clients[c].blocked then Left(w, w', c, Idle(w.clients[c]).(queued := true), true)
      else w' == w
    case DoUnblock(c, queue) =>
      if c in w.clients && w.clients[c].blocked then
        var s := w.clients[c];
        Left(w, w', c, Idle(s).(queued := s.queued || queue, pending := s.pending), queue)
      else w' == w
    case DoSignal(sig) =>
      var (d, q) := Announce(w.clients, sig, (w.readyDict, w.ready));
      w' == w.(readyDict := d, ready := q)
    case DoHandle(react) => RoundHandled(w, w', react)
    case DoNextUnblocked =>
      if w.unblocked == [] then w' == w
      else
        var c := w.unblocked[0];
        && c in w.clients
        && w' == w.(clients := w.clients[c := w.clients[c].(queued := false)], unblocked := w.unblocked[1..])
  }
}
