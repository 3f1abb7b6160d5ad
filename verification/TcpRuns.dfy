/** What every run of the TCP endpoint keeps. */
module TcpRuns {
  import opened Bytes
  import opened TcpTrack

  // ---- the books of a connection

  /** Segments that tile sequence space: each one starts where the earlier ones end. */
  predicate Tiled(segs: seq<Segment>) {
    segs == []
    || (Tiled(segs[..|segs| - 1])
        && segs[|segs| - 1].tcp.seqNo == (1 + TotalLen(segs[..|segs| - 1])) % TWO32)
  }

  /** A segment of this connection, towards its local end, small enough for the packer. */
  predicate Addressed(ends: Endpoints, s: Segment) {
    && s.src == ends.remoteIP && s.dst == ends.localIP
    && s.tcp.srcPort == ends.remotePort && s.tcp.dstPort == ends.localPort
    && s.tcp.flags.ACK && !s.tcp.flags.RST
    && s.tcp.options == (if s.tcp.flags.SYN then MaxSegmentSize() else [])
    && |s.payload| <= MTU - 40 && (s.tcp.flags.SYN ==> s.payload == [])
  }

  /** The sending side: the next sequence number follows everything sent, and the last
      acknowledgement is the one on the last segment. */
  predicate Tiles(ends: Endpoints, sents: seq<Segment>, nxtSeq: u32, lastAck: u32) {
    && sents != []
    && nxtSeq == (1 + TotalLen(sents)) % TWO32
    && Tiled(sents)
    && (forall k :: 0 <= k < |sents| ==> Addressed(ends, sents[k]) && (sents[k].tcp.flags.SYN <==> k == 0))
    && sents[|sents| - 1].tcp.ackNo == lastAck
  }

  /** What was sent is what was taken from the socks reader. */
  predicate Carries(sents: seq<Segment>, taken: seq<seq<byte>>) {
    Flatten(Payloads(sents)) == Flatten(taken)
  }

  /** A sequence number `n` past the peer's SYN. */
  predicate At(x: u32, isn: u32, n: nat) {
    x == (isn + 1 + n) % TWO32
  }

  /** A connection that has answered its SYN: what it sends tiles sequence space and is what it took,
      and what it expects and what it acknowledged last are past and present totals of what it accepted. */
  predicate Opened(c: Conn) {
    && Tiles(c.ends, Sents(c.log.toTun), c.nxtSeq, c.lastAck)
    && Carries(Sents(c.log.toTun), c.log.taken)
    && At(c.rcvNxtSeq, c.log.isn, Accepted(c.log))
    && At(c.lastAck, c.log.isn, c.log.acked) && c.log.acked <= Accepted(c.log)
    && c.hasConn
  }

  /** A connection that has not. */
  predicate Unopened(c: Conn) {
    && c.state == CLOSED && c.log.toTun == [] && c.log.toSocks == [] && c.log.taken == []
    && c.log.fins == 0 && c.log.acked == 0 && c.log.written == 0 && !c.hasConn
  }

  // ---- sequences

  lemma SentsSnoc(items: seq<Item>, i: Item)
    ensures Sents(items + [i]) == Sents(items) + (if i.Sent? then [i.seg] else [])
    ensures !i.Sent? ==> Sents(items + [i]) == Sents(items)
  {
    assert (items + [i])[..|items|] == items;
    assert Sents(items) + [] == Sents(items);
  }

  lemma TotalLenSnoc(segs: seq<Segment>, s: Segment)
    ensures TotalLen(segs + [s]) == TotalLen(segs) + SeqLen(s)
  {
    assert (segs + [s])[..|segs|] == segs;
  }

  lemma {:induction false} PayloadsConcat(a: seq<Segment>, b: seq<Segment>)
    ensures Payloads(a + b) == Payloads(a) + Payloads(b)
  {
    if a == [] {
      assert a + b == b;
    } else {
      assert (a + b)[1..] == a[1..] + b;
      PayloadsConcat(a[1..], b);
    }
  }

  lemma BytesSnoc(segs: seq<Segment>, s: Segment)
    ensures Flatten(Payloads(segs + [s])) == Flatten(Payloads(segs)) + s.payload
  {
    PayloadsConcat(segs, [s]);
    assert Payloads([s]) == [s.payload];
    FlattenSnoc(Payloads(segs), s.payload);
  }

  lemma AddAt(x: u32, isn: u32, n: nat, k: nat)
    requires At(x, isn, n)
    ensures At(Add32(x, k), isn, n + k)
  {
    Mod32Add(isn + 1 + n, k);
  }

  // ---- primitive steps

  /** `synAck`, `finAck`, `ack` and `payload` without the differences between them. */
  function Emit(c: Conn, s: Segment, taken: seq<seq<byte>>): Conn {
    Send(c, s).(nxtSeq := Add32(c.nxtSeq, SeqLen(s)), log := Send(c, s).log.(taken := taken))
  }

  /** The segment that the connection emits next, apart from flags and payload. */
  predicate Emittable(c: Conn, s: Segment) {
    && Addressed(c.ends, s) && s.tcp.seqNo == c.nxtSeq && s.tcp.ackNo == c.rcvNxtSeq
    && (s.tcp.flags.SYN <==> Sents(c.log.toTun) == [])
  }

  lemma TilesSnoc(ends: Endpoints, sents: seq<Segment>, nxtSeq: u32, lastAck: u32, s: Segment)
    requires Tiles(ends, sents, nxtSeq, lastAck) || (sents == [] && nxtSeq == 1)
    requires Addressed(ends, s) && s.tcp.seqNo == nxtSeq && (s.tcp.flags.SYN <==> sents == [])
    ensures Tiles(ends, sents + [s], Add32(nxtSeq, SeqLen(s)), s.tcp.ackNo)
  {
    TotalLenSnoc(sents, s);
    Mod32Add(1 + TotalLen(sents), SeqLen(s));
    assert (sents + [s])[..|sents|] == sents;
  }

  /** Every emission keeps the books and closes the gap between accepted and acknowledged. */
  lemma EmitKeeps(c: Conn, s: Segment, taken: seq<seq<byte>>)
    requires Opened(c) || (c.log.toTun == [] && c.nxtSeq == 1 && c.log.taken == [] && c.hasConn)
    requires At(c.rcvNxtSeq, c.log.isn, Accepted(c.log))
    requires Emittable(c, s) && Flatten(taken) == Flatten(c.log.taken) + s.payload
    ensures Opened(Emit(c, s, taken)) && Emit(c, s, taken).log.acked == Accepted(c.log)
    ensures Sents(Emit(c, s, taken).log.toTun) == Sents(c.log.toTun) + [s]
  {
    hide Tiles, Addressed, Sents, Payloads;
    NothingSent();
    var sents := Sents(c.log.toTun);
    SentsSnoc(c.log.toTun, Sent(s));
    TilesSnoc(c.ends, sents, c.nxtSeq, c.lastAck, s);
    BytesSnoc(sents, s);
    FlagsOf(c.ends, s);
  }

  lemma FlagsOf(ends: Endpoints, s: Segment)
    requires Addressed(ends, s)
    ensures s.tcp.flags.ACK
  {
  }

  lemma NothingSent()
    ensures Sents([]) == [] && Flatten(Payloads([])) == []
  {
  }

  lemma AckKeeps(c: Conn)
    requires Opened(c)
    ensures Opened(Ack(c)) && Ack(c).log.acked == Accepted(Ack(c).log)
  {
    hide Tiled, Carries, Sents;
    var s := Outgoing(c, FlagSet(false, false, false, false), [], []);
    assert Ack(c) == Emit(c, s, c.log.taken);
    EmitKeeps(c, s, c.log.taken);
  }

  lemma FinAckKeeps(c: Conn)
    requires Opened(c)
    ensures Opened(FinAck(c))
  {
    var s := Outgoing(c, FlagSet(false, true, false, false), [], []);
    assert FinAck(c) == Emit(c, s, c.log.taken);
    EmitKeeps(c, s, c.log.taken);
  }

  /** Answering the SYN opens the books. */
  lemma SynAckOpens(c: Conn)
    requires Unopened(c.(hasConn := false)) && c.hasConn
    requires c.nxtSeq == 1 && c.rcvNxtSeq == Add32(c.log.isn, 1)
    ensures Opened(SynAck(c))
  {
    var s := Outgoing(c, FlagSet(true, false, false, false), MaxSegmentSize(), []);
    assert SynAck(c) == Emit(c, s, c.log.taken);
    EmitKeeps(c, s, c.log.taken);
  }

  lemma PushKeeps(c: Conn, data: seq<byte>)
    requires Opened(c) && |data| <= MTU - 40
    ensures Opened(Push(c, data))
  {
    var s := Outgoing(c, FlagSet(false, false, false, true), [], data);
    assert Push(c, data) == Emit(c, s, c.log.taken + [data]);
    FlattenSnoc(c.log.taken, data);
    EmitKeeps(c, s, c.log.taken + [data]);
  }

  lemma RelayKeeps(c: Conn, p: Segment, accepted: bool)
    requires Opened(c)
    ensures Opened(Relay(c, p, accepted))
    ensures Queued(Relay(c, p, accepted).log) == Queued(c.log) + (if accepted then p.payload else [])
  {
    hide Tiles, Carries, Sents, Payloads;
    BytesSnoc(c.log.toSocks, p);
    AddAt(c.rcvNxtSeq, c.log.isn, Accepted(c.log), |p.payload|);
    assert Queued(c.log) + [] == Queued(c.log);
  }

  lemma ConsumeFinKeeps(c: Conn)
    requires Opened(c)
    ensures Opened(ConsumeFin(c))
  {
    hide Tiles, Carries, Sents, Payloads;
    AddAt(c.rcvNxtSeq, c.log.isn, Accepted(c.log), 1);
  }

  lemma ResetKeeps(c: Conn, i: Item)
    requires i.Reset? && Opened(c)
    ensures Opened(Put(c, i))
  {
    hide Tiles, Carries, Sents, Payloads;
    SentsSnoc(c.log.toTun, i);
  }

  lemma SameBooks(c: Conn, d: Conn)
    requires c == d.(state := c.state, sendWindow := c.sendWindow, recvWindow := c.recvWindow,
                     log := d.log.(written := c.log.written))
    ensures Opened(c) ==> Opened(d)
  {
    hide Tiles, Carries, Sents, Payloads;
  }

  // ---- handlers

  predicate Live(c: Conn) {
    match c.state
    case CLOSED => Unopened(c)
    case SYN_RCVD => Opened(c)
    case ESTABLISHED => Opened(c)
    case LAST_ACK => Opened(c)
    case FIN_WAIT_1 => Opened(c)
    case _ => false
  }

  /** The order in which a running connection goes through its states. */
  function Rank(s: State): nat {
    match s
    case CLOSED => 0
    case SYN_RCVD => 1
    case ESTABLISHED => 2
    case LAST_ACK => 3
    case FIN_WAIT_1 => 4
    case _ => 5
  }

  predicate Books(c: Conn) {
    Opened(c) || Unopened(c)
  }

  /** What a handler guarantees to the loop. */
  predicate Handles(c: Conn, h: Handled) {
    && (if h.continu then Live(h.c) && Rank(c.state) <= Rank(h.c.state) else Books(h.c))
    && (c.state != CLOSED ==> Opened(h.c))
  }

  lemma StateClosedKeeps(c: Conn, syn: Segment, dial: Dial)
    requires Unopened(c)
    ensures Handles(c, StateClosed(c, syn, dial))
  {
    hide Sents, Queued, Rst;
    if dial == Connected {
      var d := Dialed(c, syn);
      SynAckOpens(d);
      SameBooks(SynAck(d), SynAck(d).(state := SYN_RCVD));
    }
  }

  lemma StateSynRcvdKeeps(c: Conn, p: Segment, accepted: bool)
    requires Opened(c) && c.state == SYN_RCVD
    ensures Handles(c, StateSynRcvd(c, p, accepted))
  {
    hide Opened, Unopened, Rst;
    var d := c.(state := ESTABLISHED);
    SameBooks(c, d);
    RelayKeeps(d, p, accepted);
    ResetKeeps(c, Reset(Rst(p)));
  }

  lemma StateEstablishedKeeps(c: Conn, p: Segment, accepted: bool)
    requires Opened(c) && c.state == ESTABLISHED
    ensures Handles(c, StateEstablished(c, p, accepted))
  {
    hide Opened, Unopened;
    AckKeeps(c);
    var d := Relay(c, p, p.payload != [] && accepted);
    RelayKeeps(c, p, p.payload != [] && accepted);
    ConsumeFinKeeps(d);
    FinAckKeeps(ConsumeFin(d));
    SameBooks(FinAck(ConsumeFin(d)), FinAck(ConsumeFin(d)).(state := LAST_ACK));
  }

  lemma StateFinWait1Keeps(c: Conn, p: Segment)
    requires Opened(c) && c.state == FIN_WAIT_1
    ensures Handles(c, StateFinWait1(c, p)) && !StateFinWait1(c, p).continu
  {
    hide Opened, Unopened;
    ConsumeFinKeeps(c);
    AckKeeps(ConsumeFin(c));
    var d := Ack(ConsumeFin(c));
    SameBooks(d, d.(state := TIME_WAIT));
    SameBooks(d, d.(state := CLOSING));
    SameBooks(c, c.(state := FIN_WAIT_2));
  }

  lemma StateLastAckKeeps(c: Conn, p: Segment)
    requires Opened(c) && c.state == LAST_ACK
    ensures Handles(c, StateLastAck(c, p))
  {
    hide Opened, Unopened;
    SameBooks(c, c.(state := CLOSED));
  }

  lemma HandleKeeps(c: Conn, p: Segment, choice: Choice)
    requires Live(c)
    ensures Handles(c, Handle(c, p, choice))
  {
    hide Opened, StateClosed, StateSynRcvd, StateEstablished, StateFinWait1, StateLastAck;
    var d := c.(sendWindow := p.tcp.window);
    SameBooks(c, d);
    match c.state
    case CLOSED => StateClosedKeeps(d, p, choice.dial);
    case SYN_RCVD => StateSynRcvdKeeps(d, p, choice.accepted);
    case ESTABLISHED => StateEstablishedKeeps(d, p, choice.accepted);
    case FIN_WAIT_1 => StateFinWait1Keeps(d, p);
    case LAST_ACK => StateLastAckKeeps(d, p);
  }

  // ---- runs

  /** What holds at the head of the loop, and after it has ended. */
  predicate Inv(t: Track) {
    && (if t.running then Live(t.conn) && t.selfClosed == 0 else Books(t.conn))
    && (t.enabled ==> Opened(t.conn) && (t.running ==> t.conn.state in {ESTABLISHED, LAST_ACK, FIN_WAIT_1}))
    && t.selfClosed <= 1
    && (!t.running ==> t.selfClosed == 1 || t.otherClosed)
  }

  lemma FreshInv(ends: Endpoints)
    ensures Inv(Fresh(ends))
  {
  }

  lemma InputKeeps(t: Track, p: Segment, choice: Choice)
    requires Inv(t) && Enabled(t, Input(p, choice))
    ensures Inv(Step(t, Input(p, choice)))
    ensures var t' := Step(t, Input(p, choice)); t'.running ==> Rank(t.conn.state) <= Rank(t'.conn.state)
  {
    hide Opened, Unopened, Handle;
    HandleKeeps(t.conn, p, choice);
  }

  lemma StepKeeps(t: Track, e: Event)
    requires Inv(t) && Enabled(t, e)
    ensures Inv(Step(t, e))
    ensures Step(t, e).running ==> Rank(t.conn.state) <= Rank(Step(t, e).conn.state)
  {
    hide Opened, Unopened;
    match e
    case Input(p, choice) => InputKeeps(t, p, choice);
    case AckTimer => AckKeeps(t.conn);
    case FromSocks(data) => PushKeeps(t.conn, data);
    case SocksClosed =>
      FinAckKeeps(t.conn);
      SameBooks(FinAck(t.conn), FinAck(t.conn).(state := FIN_WAIT_1));
    case Written => WriterKeeps(t.conn);
    case _ =>
  }

  lemma WriterKeeps(c: Conn)
    requires c.log.written < |c.log.toSocks|
    ensures Opened(c) ==> Opened(WriterArm(c))
    ensures !Unopened(c)
  {
    hide Tiles, Carries, Sents, Payloads;
  }

  /** Every state of every run satisfies the invariant. */
  lemma {:induction false} RunKeeps(t: Track, es: seq<Event>)
    requires Inv(t) && IsRun(t, es)
    ensures Inv(Exec(t, es))
    ensures Exec(t, es).running ==> Rank(t.conn.state) <= Rank(Exec(t, es).conn.state)
    decreases |es|
  {
    hide Inv, Step, Enabled;
    if es != [] {
      StepKeeps(t, es[0]);
      RunKeeps(Step(t, es[0]), es[1..]);
      if Exec(t, es).running {
        RunningWas(Step(t, es[0]), es[1..]);
      }
    }
  }

  /** A loop that has ended does not start again. */
  lemma {:induction false} RunningWas(t: Track, es: seq<Event>)
    requires IsRun(t, es) && Exec(t, es).running
    ensures t.running
    decreases |es|
  {
    if es != [] {
      RunningWas(Step(t, es[0]), es[1..]);
    }
  }

  // ---- what a segment does

  /** The segment is the next one in both directions. */
  predicate Fits(c: Conn, p: Segment) {
    ValidSeq(c, p) && ValidAck(c, p)
  }

  /** The segments that end the loop. */
  predicate Ends(c: Conn, p: Segment, choice: Choice) {
    match c.state
    case CLOSED => choice.dial == DialError
    case SYN_RCVD => Fits(c, p) && p.tcp.flags.RST
    case ESTABLISHED => ValidSeq(c, p) && p.tcp.flags.RST
    case LAST_ACK => Fits(c, p) && p.tcp.flags.ACK
    case _ => true
  }

  /** Where a segment that does not takes the connection. */
  function Next(c: Conn, p: Segment): State {
    match c.state
    case CLOSED => SYN_RCVD
    case SYN_RCVD => if Fits(c, p) && p.tcp.flags.ACK then ESTABLISHED else SYN_RCVD
    case ESTABLISHED => if ValidSeq(c, p) && p.tcp.flags.ACK && p.tcp.flags.FIN then LAST_ACK else ESTABLISHED
    case _ => c.state
  }

  lemma LoopEndsIff(c: Conn, p: Segment, choice: Choice)
    requires Live(c)
    ensures !Handle(c, p, choice).continu <==> Ends(c, p, choice)
  {
    hide Opened, Unopened, Relay, Ack, FinAck, SynAck, ConsumeFin, Rst;
  }

  lemma StateMovesIff(c: Conn, p: Segment, choice: Choice)
    requires Live(c) && Handle(c, p, choice).continu
    ensures Handle(c, p, choice).c.state == Next(c, p)
  {
    hide Opened, Unopened, Rst, Add32, Accepted, Outgoing;
  }

  /** A segment out of sequence changes nothing but the send window, and is answered by what its state
      prescribes: a reset before the handshake is complete, the acknowledgement that is due in ESTABLISHED,
      silence afterwards. */
  lemma OutOfSequence(c: Conn, p: Segment, choice: Choice)
    requires Live(c) && c.state in {SYN_RCVD, ESTABLISHED, LAST_ACK} && !ValidSeq(c, p)
    ensures var d := c.(sendWindow := p.tcp.window);
            Handle(c, p, choice).c ==
            if c.state == ESTABLISHED then Ack(d)
            else if c.state == SYN_RCVD && !p.tcp.flags.RST then Put(d, Reset(Rst(p)))
            else d
    ensures Handle(c, p, choice).continu && Handle(c, p, choice).release
  {
    hide Opened, Unopened, Rst, Ack;
  }

  // ---- theorems

  /** `stateFinWait2` and `stateClosing` never run, `quitBySelf` is closed at most once, and a loop that
      has ended has left a closed channel for `newPacket` to take. */
  lemma Reachable(ends: Endpoints, es: seq<Event>)
    requires IsRun(Fresh(ends), es)
    ensures var t := Exec(Fresh(ends), es);
            && (t.running ==> t.conn.state in {CLOSED, SYN_RCVD, ESTABLISHED, LAST_ACK, FIN_WAIT_1})
            && (t.running && t.conn.state != CLOSED ==> t.conn.hasConn)
            && t.selfClosed <= 1
            && (!t.running ==> t.selfClosed == 1 || t.otherClosed)
  {
    hide Opened, Unopened;
    FreshInv(ends);
    RunKeeps(Fresh(ends), es);
    HasConn(Exec(Fresh(ends), es).conn);
  }

  lemma HasConn(c: Conn)
    ensures Opened(c) ==> c.hasConn
  {
  }

  lemma {:induction false} RunSplits(t: Track, es: seq<Event>, more: seq<Event>)
    requires IsRun(t, es + more)
    ensures IsRun(t, es) && IsRun(Exec(t, es), more) && Exec(t, es + more) == Exec(Exec(t, es), more)
    decreases |es|
  {
    hide Step, Enabled;
    if es == [] {
      assert es + more == more;
    } else {
      assert (es + more)[1..] == es[1..] + more;
      RunSplits(Step(t, es[0]), es[1..], more);
    }
  }

  /** A running connection goes CLOSED, SYN_RCVD, ESTABLISHED, LAST_ACK, FIN_WAIT_1 and never back. */
  lemma StatesGoForward(ends: Endpoints, es: seq<Event>, more: seq<Event>)
    requires IsRun(Fresh(ends), es + more)
    ensures IsRun(Fresh(ends), es)
    ensures var t', t := Exec(Fresh(ends), es + more), Exec(Fresh(ends), es);
            t'.running ==> Rank(t.conn.state) <= Rank(t'.conn.state)
  {
    hide Inv, Step, Enabled;
    FreshInv(ends);
    RunSplits(Fresh(ends), es, more);
    RunKeeps(Fresh(ends), es);
    RunKeeps(Exec(Fresh(ends), es), more);
  }

  /** The edges between these states, and the events that end the loop: whatever the run before, a pass ends it
      exactly on the three quits and on the segments `Ends` lists, an out-of-sequence segment leaves all that
      was accepted, queued and taken as it was, and the state moves only where `Next` says or, on the end of the
      socks side, to FIN_WAIT_1. */
  lemma Edges(ends: Endpoints, es: seq<Event>, e: Event)
    requires IsRun(Fresh(ends), es) && Exec(Fresh(ends), es).running && Enabled(Exec(Fresh(ends), es), e)
    ensures var t := Exec(Fresh(ends), es);
            var t' := Step(t, e);
            && (!t'.running <==> e in {IdleTimeout, QuitByOther, HeadQuits}
                                 || (e.Input? && Ends(t.conn, e.p, e.choice)))
            && (t'.running ==> t'.conn.state == if e.Input? then Next(t.conn, e.p)
                                                else if e.SocksClosed? then FIN_WAIT_1
                                                else t.conn.state)
            && (e.Input? && t.conn.state in {SYN_RCVD, ESTABLISHED, LAST_ACK} && !ValidSeq(t.conn, e.p) ==>
                  t'.running && t'.conn.rcvNxtSeq == t.conn.rcvNxtSeq
                  && t'.conn.log.(toTun := [], acked := 0) == t.conn.log.(toTun := [], acked := 0))
  {
    hide Exec, IsRun, Opened, Unopened, Handle, Fresh, Outgoing, Rst, Accepted, Add32, Next, Ends, Fits;
    FreshInv(ends);
    RunKeeps(Fresh(ends), es);
    var c := Exec(Fresh(ends), es).conn;
    if e.Input? {
      LoopEndsIff(c, e.p, e.choice);
      if Handle(c, e.p, e.choice).continu {
        StateMovesIff(c, e.p, e.choice);
      }
      if c.state in {SYN_RCVD, ESTABLISHED, LAST_ACK} && !ValidSeq(c, e.p) {
        OutOfSequence(c, e.p, e.choice);
      }
    }
  }

  /** FIN_WAIT_1 handles one packet at most: whatever it is, the loop ends. */
  lemma FinWait1HandlesOnePacket(t: Track, p: Segment, choice: Choice, es: seq<Event>)
    requires t.conn.state == FIN_WAIT_1 && IsRun(t, [Input(p, choice)] + es)
    ensures !Exec(t, [Input(p, choice)] + es).running
    ensures forall e <- es :: !e.Input?
  {
    var t' := Step(t, Input(p, choice));
    assert ([Input(p, choice)] + es)[1..] == es;
    assert !Handle(t.conn, p, choice).continu;
    Stopped(t', es);
  }

  lemma {:induction false} Stopped(t: Track, es: seq<Event>)
    requires !t.running && IsRun(t, es)
    ensures !Exec(t, es).running && forall e <- es :: e in {Destroy, CloseOther, Written}
    decreases |es|
  {
    if es != [] {
      Stopped(Step(t, es[0]), es[1..]);
      assert es == [es[0]] + es[1..];
    }
  }

  /** The chunks of a run's socks reader. */
  function TakenOf(es: seq<Event>): seq<seq<byte>> {
    if es == [] then [] else (if es[0].FromSocks? then [es[0].data] else []) + TakenOf(es[1..])
  }

  predicate SameFrame(c: Conn, d: Conn) {
    d.ends == c.ends && d.log.taken == c.log.taken && d.log.written == c.log.written
  }

  lemma HandleFrame(c: Conn, p: Segment, choice: Choice)
    ensures SameFrame(c, Handle(c, p, choice).c)
  {
    hide StateEstablished, StateFinWait1, Outgoing, Rst, Accepted, Add32;
    var d := c.(sendWindow := p.tcp.window);
    EstablishedFrame(d, p, choice.accepted);
    FinWait1Frame(d, p);
  }

  lemma EstablishedFrame(c: Conn, p: Segment, accepted: bool)
    ensures SameFrame(c, StateEstablished(c, p, accepted).c)
  {
  }

  lemma FinWait1Frame(c: Conn, p: Segment)
    ensures SameFrame(c, StateFinWait1(c, p).c)
  {
  }

  lemma StepTakes(t: Track, e: Event)
    requires Enabled(t, e)
    ensures Step(t, e).conn.log.taken == t.conn.log.taken + TakenOf([e])
    ensures Step(t, e).conn.ends == t.conn.ends
  {
    hide Handle, Outgoing, Add32, Accepted;
    if e.Input? {
      HandleFrame(t.conn, e.p, e.choice);
    }
    assert t.conn.log.taken + [] == t.conn.log.taken;
  }

  lemma NothingTaken(taken: seq<seq<byte>>)
    ensures taken + TakenOf([]) == taken
  {
  }

  lemma TakenCons(es: seq<Event>)
    requires es != []
    ensures TakenOf(es) == TakenOf([es[0]]) + TakenOf(es[1..])
  {
  }

  lemma {:induction false} RunTakes(t: Track, es: seq<Event>)
    requires IsRun(t, es)
    ensures Exec(t, es).conn.log.taken == t.conn.log.taken + TakenOf(es)
    decreases |es|
  {
    hide Step, Enabled, TakenOf;
    if es == [] {
      NothingTaken(t.conn.log.taken);
    } else {
      TakenCons(es);
      StepTakes(t, es[0]);
      RunTakes(Step(t, es[0]), es[1..]);
      Associate(t.conn.log.taken, TakenOf([es[0]]), TakenOf(es[1..]));
    }
  }

  lemma {:induction false} TiledAt(segs: seq<Segment>, k: nat)
    requires Tiled(segs) && k < |segs|
    ensures segs[k].tcp.seqNo == (1 + TotalLen(segs[..k])) % TWO32
    decreases |segs|
  {
    if k < |segs| - 1 {
      TiledAt(segs[..|segs| - 1], k);
      assert segs[..|segs| - 1][..k] == segs[..k];
    }
  }

  /** In every run, segment `k` starts where the sequence space of the earlier ones ends, only the first
      is a SYN, all of them acknowledge and go to the local end, and together their payloads are exactly
      the bytes that the run took from the socks reader. */
  lemma SegmentsTile(ends: Endpoints, es: seq<Event>)
    requires IsRun(Fresh(ends), es)
    ensures var sents := Sents(Exec(Fresh(ends), es).conn.log.toTun);
            && (forall k :: 0 <= k < |sents| ==>
                  && sents[k].tcp.seqNo == (1 + TotalLen(sents[..k])) % TWO32
                  && (sents[k].tcp.flags.SYN <==> k == 0)
                  && Addressed(ends, sents[k]))
            && Flatten(Payloads(sents)) == Flatten(TakenOf(es))
  {
    hide Addressed, Payloads, Step, Enabled, Fresh, Sents, TotalLen;
    var t := Exec(Fresh(ends), es);
    var sents := Sents(t.conn.log.toTun);
    FreshInv(ends);
    RunKeeps(Fresh(ends), es);
    RunTakes(Fresh(ends), es);
    FreshTakes(ends, es);
    SentsOfUnopened(t.conn);
    EndsStay(Fresh(ends), es);
    if Opened(t.conn) {
      forall k | 0 <= k < |sents| ensures sents[k].tcp.seqNo == (1 + TotalLen(sents[..k])) % TWO32 {
        TiledAt(sents, k);
      }
    } else {
      NothingSent();
    }
  }

  lemma FreshTakes(ends: Endpoints, es: seq<Event>)
    ensures Fresh(ends).conn.log.taken + TakenOf(es) == TakenOf(es) && Fresh(ends).conn.ends == ends
  {
  }

  lemma SentsOfUnopened(c: Conn)
    ensures Unopened(c) ==> Sents(c.log.toTun) == []
  {
  }

  lemma {:induction false} EndsStay(t: Track, es: seq<Event>)
    requires IsRun(t, es)
    ensures Exec(t, es).conn.ends == t.conn.ends
    decreases |es|
  {
    hide Step, Enabled;
    if es != [] {
      StepTakes(t, es[0]);
      EndsStay(Step(t, es[0]), es[1..]);
    }
  }

  /** A receiver that takes every segment it expects next and ignores the others: its bytes, and what it
      expects. It starts at the sequence number of the SYN. */
  function Peer(segs: seq<Segment>): (seq<byte>, u32) {
    if segs == [] then ([], 1) else
    var (bytes, next) := Peer(segs[..|segs| - 1]);
    var s := segs[|segs| - 1];
    if s.tcp.seqNo == next then (bytes + s.payload, Add32(next, SeqLen(s))) else (bytes, next)
  }

  lemma {:induction false} PeerTakesAll(segs: seq<Segment>)
    requires Tiled(segs)
    ensures Peer(segs) == (Flatten(Payloads(segs)), (1 + TotalLen(segs)) % TWO32)
    decreases |segs|
  {
    if segs == [] {
      NothingSent();
    } else {
      var before, s := segs[..|segs| - 1], segs[|segs| - 1];
      PeerTakesAll(before);
      BytesSnoc(before, s);
      Mod32Add(1 + TotalLen(before), SeqLen(s));
      assert segs == before + [s];
    }
  }

  /** Fed with the segments of any run, that receiver ignores none and has exactly the bytes that the run took
      from the socks reader. */
  lemma PeerReassembles(ends: Endpoints, es: seq<Event>)
    requires IsRun(Fresh(ends), es)
    ensures var sents := Sents(Exec(Fresh(ends), es).conn.log.toTun);
            Peer(sents) == (Flatten(TakenOf(es)), (1 + TotalLen(sents)) % TWO32)
  {
    hide Addressed, Payloads, Step, Enabled, Fresh, Sents, TotalLen, Peer, TakenOf;
    SegmentsTile(ends, es);
    FreshInv(ends);
    RunKeeps(Fresh(ends), es);
    var t := Exec(Fresh(ends), es);
    SentsOfUnopened(t.conn);
    PeerTakesAll(Sents(t.conn.log.toTun));
  }

  /** A packet is emitted if and only if dialing has succeeded: a connection that cannot be made is refused in
      silence. */
  lemma RefusalIsSilent(ends: Endpoints, es: seq<Event>)
    requires IsRun(Fresh(ends), es)
    ensures var c := Exec(Fresh(ends), es).conn;
            c.log.toTun == [] <==> !c.hasConn
  {
    hide Carries, Step, Enabled, At;
    FreshInv(ends);
    RunKeeps(Fresh(ends), es);
    NothingSent();
  }

  /** When the acknowledgement timer fires it acknowledges exactly if the last acknowledgement is behind
      and both totals lie in the same lap of the 32-bit counter, and that closes the gap. */
  lemma DelayedAck(ends: Endpoints, es: seq<Event>)
    requires IsRun(Fresh(ends), es) && Enabled(Exec(Fresh(ends), es), AckTimer)
    ensures var c := Exec(Fresh(ends), es).conn;
            var was, now := c.log.isn + 1 + c.log.acked, c.log.isn + 1 + Accepted(c.log);
            && was <= now && c.lastAck == was % TWO32 && c.rcvNxtSeq == now % TWO32
            && (now - was < TWO32 ==> (TimerArm(c) == Ack(c) != c <==> was < now && was / TWO32 == now / TWO32))
            && (TimerArm(c) != c ==> TimerArm(c).log.acked == Accepted(c.log) && TimerArm(c).lastAck == c.rcvNxtSeq)
  {
    hide Tiles, Carries, Step, Sents, Payloads;
    FreshInv(ends);
    RunKeeps(Fresh(ends), es);
    var c := Exec(Fresh(ends), es).conn;
    assert Opened(c);
    if Accepted(c.log) - c.log.acked < TWO32 {
      SameLap(c.log.isn + 1 + c.log.acked, c.log.isn + 1 + Accepted(c.log));
    }
  }

  // ---- concrete runs

  lemma RunCons(t: Track, es: seq<Event>)
    requires es != [] && Enabled(t, es[0]) && IsRun(Step(t, es[0]), es[1..])
    ensures IsRun(t, es) && Exec(t, es) == Exec(Step(t, es[0]), es[1..])
  {
  }

  lemma {:induction false} RunJoins(t: Track, es: seq<Event>, more: seq<Event>)
    requires IsRun(t, es) && IsRun(Exec(t, es), more)
    ensures IsRun(t, es + more) && Exec(t, es + more) == Exec(Exec(t, es), more)
    decreases |es|
  {
    hide Step, Enabled;
    if es == [] {
      assert es + more == more;
    } else {
      assert (es + more)[1..] == es[1..] + more;
      RunJoins(Step(t, es[0]), es[1..], more);
    }
  }

  /** The peer's SYN, and its answer to ours. */
  function Handshake(ends: Endpoints, isn: u32): seq<Event> {
    var choice := Choice(Connected, true);
    [ Input(FromPeer(ends, isn, 0, FlagSet(true, false, false, false), []), choice),
      Input(FromPeer(ends, Add32(isn, 1), 2, FlagSet(false, false, false, false), []), choice) ]
  }

  lemma {:induction false} HandshakeOpens(ends: Endpoints, isn: u32)
    ensures IsRun(Fresh(ends), Handshake(ends, isn))
    ensures var t := Exec(Fresh(ends), Handshake(ends, isn));
            && t.running && t.conn.state == ESTABLISHED && t.conn.ends == ends && t.conn.log.isn == isn
            && t.conn.nxtSeq == 2 && t.conn.rcvNxtSeq == t.conn.lastAck == Add32(isn, 1)
            && t.conn.log.toSocks == [] && t.conn.log.fins == 0
  {
    hide Sents, Accepted;
    var es := Handshake(ends, isn);
    var t1 := Step(Fresh(ends), es[0]);
    assert t1.running && t1.conn.state == SYN_RCVD && t1.conn.nxtSeq == 2 && t1.conn.rcvNxtSeq == Add32(isn, 1);
    var t2 := Step(t1, es[1]);
    assert es[1..][1..] == [];
    assert IsRun(t1, es[1..]) && Exec(t1, es[1..]) == t2;
  }

  /** A run that leaves four bytes unacknowledged across the end of the counter. */
  function AcrossTheLap(ends: Endpoints): seq<Event> {
    Handshake(ends, 0xffff_fffc)
    + [Input(FromPeer(ends, 0xffff_fffd, 2, FlagSet(false, false, false, false), Zeros(4)), Choice(Connected, true))]
  }

  /** The acknowledgement timer may fire in it, and says nothing. */
  lemma {:induction false} SilentTimer(ends: Endpoints)
    ensures var es := AcrossTheLap(ends);
            && IsRun(Fresh(ends), es) && Enabled(Exec(Fresh(ends), es), AckTimer)
            && var c := Exec(Fresh(ends), es).conn;
               && c.lastAck == 0xffff_fffd && c.rcvNxtSeq == 1 && Queued(c.log) == Zeros(4)
               && TimerArm(c) == c
  {
    hide Zeros, Sents, Handshake, Exec, IsRun;
    HandshakeOpens(ends, 0xffff_fffc);
    var t := Exec(Fresh(ends), Handshake(ends, 0xffff_fffc));
    var p := FromPeer(ends, 0xffff_fffd, 2, FlagSet(false, false, false, false), Zeros(4));
    var data := Input(p, Choice(Connected, true));
    JustStep(t, data);
    RunJoins(Fresh(ends), Handshake(ends, 0xffff_fffc), [data]);
    BytesSnoc([], data.p);
    assert [] + [data.p] == [data.p] && Flatten(Payloads([])) + Zeros(4) == Zeros(4);
  }

  lemma JustStep(t: Track, e: Event)
    requires Enabled(t, e)
    ensures IsRun(t, [e]) && Exec(t, [e]) == Step(t, e)
  {
    hide Step, Enabled;
    assert [e][1..] == [];
  }

  lemma SameLap(was: nat, now: nat)
    requires was <= now < was + TWO32
    ensures was % TWO32 < now % TWO32 <==> was < now && was / TWO32 == now / TWO32
  {
  }
}
