/** The pooled packet objects of a connection: who holds each of them. Handlers are atomic. */
module Ownership {
  import opened Bytes
  import T = TcpTrack
  import R = TcpRuns
  import F = TcpEffects

  /** An object, and the packet that it carries while it is queued. */
  datatype Held = Held(id: nat, pkt: T.Segment)

  /** Objects are numbered as they are made. They lie in the pool, wait for the socks writer or for the tun
      writer, or nobody refers to them any more. */
  datatype Objects = Objects(made: nat, pool: seq<nat>, toSocks: seq<Held>, toTun: seq<Held>, lost: seq<nat>)

  datatype World = World(t: T.Track, o: Objects)

  /** A step of the connection, the tun writer writing one packet, or `newPacket` finding a quit channel closed.
      `pick` and `reply` choose what the pool hands out; past its end it makes a new object. */
  datatype Event = Conn(e: T.Event, pick: nat, reply: nat) | TunWrite | Missed(pick: nat)

  function Ids(hs: seq<Held>): (ids: seq<nat>)
    ensures |ids| == |hs|
  {
    if hs == [] then [] else Ids(hs[..|hs| - 1]) + [hs[|hs| - 1].id]
  }

  function Packets(hs: seq<Held>): (ps: seq<T.Segment>)
    ensures |ps| == |hs| && forall i :: 0 <= i < |hs| ==> ps[i] == hs[i].pkt
  {
    seq(|hs|, i requires 0 <= i < |hs| => hs[i].pkt)
  }

  function Everyone(n: nat): multiset<nat> {
    if n == 0 then multiset{} else Everyone(n - 1) + multiset{n - 1}
  }

  function Places(o: Objects): multiset<nat> {
    multiset(o.pool) + multiset(Ids(o.toSocks)) + multiset(Ids(o.toTun)) + multiset(o.lost)
  }

  /** Every object made is in exactly one place, `hand` being the places outside the queues. */
  predicate Accounted(o: Objects, hand: multiset<nat>) {
    Places(o) + hand == Everyone(o.made)
  }

  lemma {:induction false} EveryoneOnce(n: nat, i: nat)
    ensures Everyone(n)[i] == if i < n then 1 else 0
  {
    if n > 0 {
      EveryoneOnce(n - 1, i);
    }
  }

  /** `newTCPPacket` */
  function Get(o: Objects, pick: nat): (Objects, nat) {
    if pick < |o.pool| then (o.(pool := o.pool[..pick] + o.pool[pick + 1..]), o.pool[pick])
    else (o.(made := o.made + 1), o.made)
  }

  /** `releaseTCPPacket` */
  function Release(o: Objects, id: nat): Objects {
    o.(pool := o.pool + [id])
  }

  function Lose(o: Objects, id: nat): Objects {
    o.(lost := o.lost + [id])
  }

  function Queue(o: Objects, h: Held): Objects {
    o.(toTun := o.toTun + [h])
  }

  function Relay(o: Objects, h: Held): Objects {
    o.(toSocks := o.toSocks + [h])
  }

  /** `packTCP` and the channel to the tun writer. */
  function Emit(o: Objects, items: seq<T.Item>, pick: nat): Objects
    decreases |items|
  {
    if items == [] then o else
    var (o, id) := Get(o, pick);
    Emit(Queue(o, Held(id, items[0].seg)), items[1..], pick)
  }

  function NewItems(t: T.Track, t': T.Track): seq<T.Item> {
    var n := |t.conn.log.toTun|;
    if n <= |t'.conn.log.toTun| then t'.conn.log.toTun[n..] else []
  }

  /** Where the handled packet goes: the loop releases it if the handler says so. */
  function Settle(o: Objects, h: Held, release: bool, relayed: bool): Objects {
    if release then Release(o, h.id)
    else if relayed then Relay(o, h)
    else Lose(o, h.id)
  }

  predicate Enabled(w: World, e: Event) {
    match e
    case Conn(e, _, _) => T.Enabled(w.t, e)
    case TunWrite => w.o.toTun != []
    case Missed(_) => !w.t.running || w.t.otherClosed
  }

  predicate Relays(t: T.Track, t': T.Track) {
    |t'.conn.log.toSocks| > |t.conn.log.toSocks|
  }

  function Step(w: World, e: Event): World
    requires Enabled(w, e)
  {
    match e
    case Conn(e, pick, reply) =>
      var t' := T.Step(w.t, e);
      var items := NewItems(w.t, t');
      if e.Input? then
        var (o, id) := Get(w.o, pick);
        var release := T.Handle(w.t.conn, e.p, e.choice).release;
        World(t', Settle(Emit(o, items, reply), Held(id, e.p), release, Relays(w.t, t')))
      else if e.Written? && w.o.toSocks != [] then
        World(t', Release(w.o.(toSocks := w.o.toSocks[1..]), w.o.toSocks[0].id))
      else
        World(t', Emit(w.o, items, reply))
    case TunWrite => w.(o := Release(w.o.(toTun := w.o.toTun[1..]), w.o.toTun[0].id))
    case Missed(pick) =>
      var (o, id) := Get(w.o, pick);
      w.(o := Lose(o, id))
  }

  predicate IsRun(w: World, es: seq<Event>)
    decreases |es|
  {
    es == [] || (Enabled(w, es[0]) && IsRun(Step(w, es[0]), es[1..]))
  }

  function Exec(w: World, es: seq<Event>): World
    requires IsRun(w, es)
    decreases |es|
  {
    if es == [] then w else Exec(Step(w, es[0]), es[1..])
  }

  // ---- accounting

  lemma IdsSnoc(hs: seq<Held>, h: Held)
    ensures Ids(hs + [h]) == Ids(hs) + [h.id]
  {
    assert (hs + [h])[..|hs|] == hs;
  }

  lemma {:induction false} IdsFirst(hs: seq<Held>)
    requires hs != []
    ensures Ids(hs) == [hs[0].id] + Ids(hs[1..])
  {
    if |hs| > 1 {
      var init := hs[..|hs| - 1];
      IdsFirst(init);
      assert hs[1..] == init[1..] + [hs[|hs| - 1]];
      IdsSnoc(init[1..], hs[|hs| - 1]);
      Associate([hs[0].id], Ids(init[1..]), [hs[|hs| - 1].id]);
    } else {
      assert hs[..0] == [];
    }
  }

  lemma Picked(ids: seq<nat>, k: nat)
    requires k < |ids|
    ensures multiset(ids) == multiset(ids[..k] + ids[k + 1..]) + multiset{ids[k]}
  {
    assert ids == ids[..k] + ([ids[k]] + ids[k + 1..]);
  }

  /** Four places and a hand, one object moving from place to hand or back. */
  lemma Moves(a: multiset<nat>, b: multiset<nat>, c: multiset<nat>, d: multiset<nat>,
              hand: multiset<nat>, x: multiset<nat>)
    ensures (a + x) + b + c + d + hand == a + b + c + d + (hand + x)
    ensures a + (b + x) + c + d + hand == a + b + c + d + (hand + x)
    ensures a + b + (c + x) + d + hand == a + b + c + d + (hand + x)
    ensures a + b + c + (d + x) + hand == a + b + c + d + (hand + x)
  {
  }

  lemma GetAccounts(o: Objects, pick: nat, hand: multiset<nat>)
    requires Accounted(o, hand)
    ensures var (o', id) := Get(o, pick); Accounted(o', hand + multiset{id})
  {
    hide Ids;
    if pick < |o.pool| {
      Picked(o.pool, pick);
      Moves(multiset(o.pool[..pick] + o.pool[pick + 1..]), multiset(Ids(o.toSocks)),
            multiset(Ids(o.toTun)), multiset(o.lost),
            hand, multiset{o.pool[pick]});
    } else {
      assert Places(o) + (hand + multiset{o.made}) == Everyone(o.made) + multiset{o.made};
    }
  }

  /** Whoever holds an object may give it back, or forget it. */
  lemma GiveAccounts(o: Objects, id: nat, hand: multiset<nat>)
    requires Accounted(o, hand + multiset{id})
    ensures Accounted(Release(o, id), hand) && Accounted(Lose(o, id), hand)
  {
    hide Ids;
    Moves(multiset(o.pool), multiset(Ids(o.toSocks)), multiset(Ids(o.toTun)), multiset(o.lost), hand, multiset{id});
  }

  /** Or put it on a queue. */
  lemma QueueAccounts(o: Objects, h: Held, hand: multiset<nat>)
    requires Accounted(o, hand + multiset{h.id})
    ensures Accounted(Queue(o, h), hand) && Accounted(Relay(o, h), hand)
  {
    hide Ids;
    IdsSnoc(o.toSocks, h);
    IdsSnoc(o.toTun, h);
    Moves(multiset(o.pool), multiset(Ids(o.toSocks)), multiset(Ids(o.toTun)), multiset(o.lost), hand, multiset{h.id});
  }

  lemma TakeSocks(o: Objects, hand: multiset<nat>)
    requires Accounted(o, hand) && o.toSocks != []
    ensures Accounted(o.(toSocks := o.toSocks[1..]), hand + multiset{o.toSocks[0].id})
  {
    hide Ids;
    IdsFirst(o.toSocks);
    Moves(multiset(o.pool), multiset(Ids(o.toSocks[1..])), multiset(Ids(o.toTun)), multiset(o.lost), hand,
          multiset{o.toSocks[0].id});
  }

  lemma TakeTun(o: Objects, hand: multiset<nat>)
    requires Accounted(o, hand) && o.toTun != []
    ensures Accounted(o.(toTun := o.toTun[1..]), hand + multiset{o.toTun[0].id})
  {
    hide Ids;
    IdsFirst(o.toTun);
    Moves(multiset(o.pool), multiset(Ids(o.toSocks)), multiset(Ids(o.toTun[1..])), multiset(o.lost), hand,
          multiset{o.toTun[0].id});
  }

  lemma {:induction false} EmitAccounts(o: Objects, items: seq<T.Item>, pick: nat, hand: multiset<nat>)
    requires Accounted(o, hand)
    ensures Accounted(Emit(o, items, pick), hand)
    decreases |items|
  {
    hide Accounted, Get, Queue;
    if items != [] {
      GetAccounts(o, pick, hand);
      var (o', id) := Get(o, pick);
      QueueAccounts(o', Held(id, items[0].seg), hand);
      EmitAccounts(Queue(o', Held(id, items[0].seg)), items[1..], pick, hand);
    }
  }

  /** Nobody holds anything. */
  predicate AtRest(o: Objects) {
    Accounted(o, multiset{})
  }

  lemma StepAccounts(w: World, e: Event)
    requires Enabled(w, e) && AtRest(w.o)
    ensures AtRest(Step(w, e).o)
  {
    hide T.Step, T.Handle, T.Enabled, Accounted, Get, Lose, Release, Relay, Emit, NewItems, Relays;
    var none := multiset{};
    match e
    case Conn(Input(p, choice), pick, reply) =>
      GetAccounts(w.o, pick, none);
      var (o, id) := Get(w.o, pick);
      var emitted := Emit(o, NewItems(w.t, T.Step(w.t, e.e)), reply);
      EmitAccounts(o, NewItems(w.t, T.Step(w.t, e.e)), reply, none + multiset{id});
      GiveAccounts(emitted, id, none);
      QueueAccounts(emitted, Held(id, p), none);
    case Conn(Written, pick, reply) =>
      if w.o.toSocks != [] {
        TakeSocks(w.o, none);
        GiveAccounts(w.o.(toSocks := w.o.toSocks[1..]), w.o.toSocks[0].id, none);
      } else {
        EmitAccounts(w.o, NewItems(w.t, T.Step(w.t, e.e)), reply, none);
      }
    case Conn(_, pick, reply) =>
      EmitAccounts(w.o, NewItems(w.t, T.Step(w.t, e.e)), reply, none);
    case TunWrite =>
      TakeTun(w.o, none);
      GiveAccounts(w.o.(toTun := w.o.toTun[1..]), w.o.toTun[0].id, none);
    case Missed(pick) =>
      GetAccounts(w.o, pick, none);
      var (o, id) := Get(w.o, pick);
      GiveAccounts(o, id, none);
  }

  lemma OnePlaceEach(o: Objects)
    requires AtRest(o)
    ensures forall i: nat :: Places(o)[i] == if i < o.made then 1 else 0
  {
    hide Ids;
    forall i: nat ensures Places(o)[i] == if i < o.made then 1 else 0 {
      EveryoneOnce(o.made, i);
      assert Places(o) + multiset{} == Places(o);
    }
  }

  lemma {:induction false} RunAccounts(w: World, es: seq<Event>)
    requires IsRun(w, es) && AtRest(w.o)
    ensures AtRest(Exec(w, es).o)
    decreases |es|
  {
    hide Step, Enabled, AtRest;
    if es != [] {
      StepAccounts(w, es[0]);
      RunAccounts(Step(w, es[0]), es[1..]);
    }
  }

  /** What the pool holds can be handed out again, each of it; nothing else that is in use can. */
  lemma PoolHandsOut(o: Objects, id: nat)
    requires AtRest(o)
    ensures id in o.pool <==> id < o.made && exists pick: nat :: Get(o, pick).1 == id
    ensures forall pick: nat :: var (o', x) := Get(o, pick); x !in Ids(o.toSocks) && x !in Ids(o.toTun) && x !in o.lost
  {
    hide Ids;
    OnePlaceEach(o);
    forall pick: nat ensures var x := Get(o, pick).1; x !in Ids(o.toSocks) && x !in Ids(o.toTun) && x !in o.lost {
      var x := Get(o, pick).1;
      InPlaces(o, x);
    }
    if id in o.pool {
      InPlaces(o, id);
      var k :| 0 <= k < |o.pool| && o.pool[k] == id;
      assert Get(o, k).1 == id;
    }
  }

  lemma InPlaces(o: Objects, x: nat)
    ensures Places(o)[x] == multiset(o.pool)[x] + multiset(Ids(o.toSocks))[x] + multiset(Ids(o.toTun))[x]
                            + multiset(o.lost)[x]
    ensures (x in o.pool <==> multiset(o.pool)[x] > 0) && (x in o.lost <==> multiset(o.lost)[x] > 0)
    ensures (x in Ids(o.toSocks) <==> multiset(Ids(o.toSocks))[x] > 0)
    ensures (x in Ids(o.toTun) <==> multiset(Ids(o.toTun))[x] > 0)
  {
  }

  /** A packet that comes too late is one for which a quit channel is closed. */
  lemma MissedIff(ends: T.Endpoints, es: seq<Event>, pick: nat)
    requires IsRun(Start(ends), es)
    ensures var w := Exec(Start(ends), es);
            Enabled(w, Missed(pick)) <==> w.t.selfClosed > 0 || w.t.otherClosed
  {
    hide Step, T.Step;
    R.FreshInv(ends);
    StartAtRest(ends);
    RunInv(Start(ends), es);
    hide R.Opened, R.Unopened;
  }

  lemma {:induction false} RunInv(w: World, es: seq<Event>)
    requires R.Inv(w.t) && Parallel(w) && IsRun(w, es)
    ensures R.Inv(Exec(w, es).t)
    decreases |es|
  {
    hide Step, Enabled, R.Inv, Parallel;
    if es != [] {
      StepLoses(w, es[0]);
      RunInv(Step(w, es[0]), es[1..]);
    }
  }

  // ---- losses

  /** The objects that a step leaves to nobody: the SYN when dialing fails, and a packet for which `newPacket`
      takes a quit arm. */
  function Loses(w: World, e: Event): nat {
    match e
    case Conn(Input(_, choice), _, _) => if w.t.conn.state == T.CLOSED && choice.dial == T.DialError then 1 else 0
    case Conn(_, _, _) => 0
    case TunWrite => 0
    case Missed(_) => 1
  }

  function Losses(w: World, es: seq<Event>): nat
    requires IsRun(w, es)
    decreases |es|
  {
    if es == [] then 0 else Loses(w, es[0]) + Losses(Step(w, es[0]), es[1..])
  }

  /** The objects on the queue carry what has been relayed and not yet written, in order. */
  predicate Parallel(w: World) {
    && w.t.conn.log.written <= |w.t.conn.log.toSocks|
    && Packets(w.o.toSocks) == w.t.conn.log.toSocks[w.t.conn.log.written..]
  }

  /** A handler keeps its packet, hands it on or loses it; the last only when dialing fails. */
  lemma HandleReleases(c: T.Conn, p: T.Segment, choice: T.Choice)
    requires R.Live(c)
    ensures var h := T.Handle(c, p, choice);
            && h.c.log.written == c.log.written
            && (h.release ==> h.c.log.toSocks == c.log.toSocks)
            && (!h.release ==>
                  if c.state == T.CLOSED then choice.dial == T.DialError && h.c.log.toSocks == c.log.toSocks
                  else h.c.log.toSocks == c.log.toSocks + [p])
            && (c.state == T.CLOSED && choice.dial == T.DialError ==> !h.release)
  {
    hide R.Opened, R.Unopened, T.StateEstablished, T.Outgoing, T.Rst, T.Accepted, Add32;
    EstablishedReleases(c.(sendWindow := p.tcp.window), p, choice.accepted);
  }

  lemma EstablishedReleases(c: T.Conn, p: T.Segment, accepted: bool)
    ensures var h := T.StateEstablished(c, p, accepted);
            && h.c.log.written == c.log.written
            && (if h.release then h.c.log.toSocks == c.log.toSocks else h.c.log.toSocks == c.log.toSocks + [p])
  {
    hide T.Accepted, Add32;
  }

  lemma {:induction false} EmitLoses(o: Objects, items: seq<T.Item>, pick: nat)
    ensures Emit(o, items, pick).lost == o.lost && Emit(o, items, pick).toSocks == o.toSocks
    decreases |items|
  {
    if items != [] {
      var (o', id) := Get(o, pick);
      EmitLoses(Queue(o', Held(id, items[0].seg)), items[1..], pick);
    }
  }

  lemma LiveNow(t: T.Track)
    requires R.Inv(t) && t.running
    ensures R.Live(t.conn)
  {
  }

  /** The input arm: the packet is queued exactly when the handler has relayed it. */
  lemma InputLoses(w: World, p: T.Segment, choice: T.Choice, pick: nat, reply: nat)
    requires R.Inv(w.t) && Parallel(w) && Enabled(w, Conn(T.Input(p, choice), pick, reply))
    ensures var e := Conn(T.Input(p, choice), pick, reply);
            Parallel(Step(w, e)) && |Step(w, e).o.lost| == |w.o.lost| + Loses(w, e)
  {
    hide T.Handle, R.Live, R.Inv, R.Opened, R.Unopened, Emit, NewItems;
    var e := T.Input(p, choice);
    var t' := T.Step(w.t, e);
    EmitLoses(Get(w.o, pick).0, NewItems(w.t, t'), reply);
    LiveNow(w.t);
    HandleReleases(w.t.conn, p, choice);
    var written := w.t.conn.log.written;
    assert (w.t.conn.log.toSocks + [p])[written..] == w.t.conn.log.toSocks[written..] + [p];
    var (o, id) := Get(w.o, pick);
    assert Packets(o.toSocks + [Held(id, p)]) == Packets(o.toSocks) + [p];
  }

  lemma StepLoses(w: World, e: Event)
    requires R.Inv(w.t) && Parallel(w) && Enabled(w, e)
    ensures R.Inv(Step(w, e).t) && Parallel(Step(w, e))
    ensures |Step(w, e).o.lost| == |w.o.lost| + Loses(w, e)
  {
    hide T.Handle, T.TimerArm, T.Push, T.FinAck, R.Inv, R.Live, Emit, NewItems;
    if e.Conn? {
      R.StepKeeps(w.t, e.e);
      if e.e.Input? {
        InputLoses(w, e.e.p, e.e.choice, e.pick, e.reply);
      } else {
        EmitLoses(w.o, NewItems(w.t, T.Step(w.t, e.e)), e.reply);
        SocksQueueStays(w.t, e.e);
        if e.e.Written? {
          assert Packets(w.o.toSocks[1..]) == Packets(w.o.toSocks)[1..];
        }
      }
    }
  }

  lemma SocksQueueStays(t: T.Track, e: T.Event)
    requires T.Enabled(t, e) && !e.Input?
    ensures T.Step(t, e).conn.log.toSocks == t.conn.log.toSocks
    ensures T.Step(t, e).conn.log.written == t.conn.log.written + if e.Written? then 1 else 0
  {
    hide T.Outgoing, T.Accepted, T.Queued, Add32, T.Handle;
  }

  lemma {:induction false} RunLoses(w: World, es: seq<Event>)
    requires R.Inv(w.t) && Parallel(w) && IsRun(w, es)
    ensures |Exec(w, es).o.lost| == |w.o.lost| + Losses(w, es) && Parallel(Exec(w, es))
    decreases |es|
  {
    hide Step, Enabled, R.Inv, Parallel, Loses;
    if es != [] {
      StepLoses(w, es[0]);
      RunLoses(Step(w, es[0]), es[1..]);
    }
  }

  // ---- the queue to the tun writer

  function Segments(items: seq<T.Item>): (ps: seq<T.Segment>)
    ensures |ps| == |items| && forall i :: 0 <= i < |items| ==> ps[i] == items[i].seg
  {
    seq(|items|, i requires 0 <= i < |items| => items[i].seg)
  }

  /** The objects on that queue carry the last packets that were put on the channel, in order. */
  predicate TunParallel(w: World) {
    var n := |w.t.conn.log.toTun| - |w.o.toTun|;
    n >= 0 && Packets(w.o.toTun) == Segments(w.t.conn.log.toTun)[n..]
  }

  /** The packets that the tun writer writes in a run. */
  function TunWrites(es: seq<Event>): nat {
    if es == [] then 0 else (if es[0].TunWrite? then 1 else 0) + TunWrites(es[1..])
  }

  lemma {:induction false} EmitQueues(o: Objects, items: seq<T.Item>, pick: nat)
    ensures Packets(Emit(o, items, pick).toTun) == Packets(o.toTun) + Segments(items)
    decreases |items|
  {
    if items != [] {
      var (o', id) := Get(o, pick);
      var h := Held(id, items[0].seg);
      EmitQueues(Queue(o', h), items[1..], pick);
      assert Packets(o.toTun + [h]) == Packets(o.toTun) + [items[0].seg];
      assert Segments(items) == [items[0].seg] + Segments(items[1..]);
    }
  }

  /** A step of the connection only adds to the channel. */
  lemma NewItemsAdd(t: T.Track, e: T.Event)
    requires R.Inv(t) && T.Enabled(t, e)
    ensures T.Step(t, e).conn.log.toTun == t.conn.log.toTun + NewItems(t, T.Step(t, e))
  {
    hide T.Step, T.Enabled, R.Inv, F.Speaks, F.Says, F.Accepts, F.Signals;
    F.StepEffects(t, e);
    var n, d := |t.conn.log.toTun|, T.Step(t, e).conn.log.toTun;
    assert n <= |d| && d[..n] == t.conn.log.toTun;
  }

  lemma StepTuns(w: World, e: Event)
    requires R.Inv(w.t) && TunParallel(w) && Enabled(w, e)
    ensures TunParallel(Step(w, e))
    ensures |Step(w, e).t.conn.log.toTun| - |Step(w, e).o.toTun|
            == |w.t.conn.log.toTun| - |w.o.toTun| + if e.TunWrite? then 1 else 0
  {
    hide T.Step, T.Enabled, T.Handle, R.Inv, Emit, NewItems, Packets, Segments;
    var log, n := w.t.conn.log.toTun, |w.t.conn.log.toTun| - |w.o.toTun|;
    match e
    case Conn(e', pick, reply) =>
      NewItemsAdd(w.t, e');
      var items := NewItems(w.t, T.Step(w.t, e'));
      EmitQueues(Get(w.o, pick).0, items, reply);
      EmitQueues(w.o, items, reply);
      Appended(log, items, n);
      if e'.Written? { NothingNew(w.t, e'); }
    case TunWrite => Dropped(w.o.toTun, log, n);
    case Missed(_) =>
  }

  lemma NothingNew(t: T.Track, e: T.Event)
    requires T.Enabled(t, e) && e.Written?
    ensures NewItems(t, T.Step(t, e)) == []
  {
  }

  lemma Appended(log: seq<T.Item>, items: seq<T.Item>, n: nat)
    requires n <= |log|
    ensures Segments(log + items)[n..] == Segments(log)[n..] + Segments(items)
  {
  }

  lemma Dropped(hs: seq<Held>, log: seq<T.Item>, n: nat)
    requires hs != [] && n + |hs| == |log| && Packets(hs) == Segments(log)[n..]
    ensures Packets(hs[1..]) == Segments(log)[n + 1..]
  {
    assert Packets(hs[1..]) == Packets(hs)[1..];
  }

  lemma {:induction false} RunTuns(w: World, es: seq<Event>)
    requires R.Inv(w.t) && TunParallel(w) && Parallel(w) && IsRun(w, es)
    ensures TunParallel(Exec(w, es))
    ensures |Exec(w, es).t.conn.log.toTun| - |Exec(w, es).o.toTun|
            == |w.t.conn.log.toTun| - |w.o.toTun| + TunWrites(es)
    decreases |es|
  {
    hide Step, Enabled, R.Inv, Parallel, TunParallel;
    if es != [] {
      StepLoses(w, es[0]);
      StepTuns(w, es[0]);
      RunTuns(Step(w, es[0]), es[1..]);
    }
  }

  function Start(ends: T.Endpoints): World {
    World(T.Fresh(ends), Objects(0, [], [], [], []))
  }

  /** In every run every packet object made is in exactly one place, so none is in the pool twice; the objects
      on the queue to the socks writer carry exactly the packets relayed and not yet written, in order; and
      objects are lost only by a failed dial or a packet that comes too late, one by each; and the tun writer
      writes everything put on its channel once and in order. What lies in a queue that is no longer read stays
      there. */
  lemma OneOwner(ends: T.Endpoints, es: seq<Event>)
    requires IsRun(Start(ends), es)
    ensures var w := Exec(Start(ends), es);
            && (forall i: nat :: Places(w.o)[i] == if i < w.o.made then 1 else 0)
            && Parallel(w)
            && |w.o.lost| == Losses(Start(ends), es)
            && TunWrites(es) + |w.o.toTun| == |w.t.conn.log.toTun|
            && Packets(w.o.toTun) == Segments(w.t.conn.log.toTun)[TunWrites(es)..]
  {
    hide Step, Enabled, Places, Losses;
    R.FreshInv(ends);
    StartAtRest(ends);
    RunAccounts(Start(ends), es);
    OnePlaceEach(Exec(Start(ends), es).o);
    RunLoses(Start(ends), es);
    RunTuns(Start(ends), es);
  }

  lemma StartAtRest(ends: T.Endpoints)
    ensures AtRest(Start(ends).o) && Parallel(Start(ends)) && TunParallel(Start(ends))
  {
  }
}
