/** The bytes handed to the proxy are the peer's bytes, in order and once each. */
module TcpDelivery {
  import opened Bytes
  import opened TcpTrack
  import opened TcpRuns

  /** A slice of the peer's stream `s`, the first byte of which follows the SYN at `isn`: segments may be
      cut anywhere, repeated and in any order, with any flags, acknowledgements and windows. A SYN may carry the
      first bytes, unless its own number is that of the last byte of the longest stream. */
  ghost predicate Honest(s: seq<byte>, isn: u32, p: Segment) {
    && (p.tcp.flags.SYN ==> p.tcp.seqNo == isn)
    && (p.payload != [] ==> WithSyn(s, p) || Slice(s, isn, p))
  }

  predicate WithSyn(s: seq<byte>, p: Segment) {
    p.tcp.flags.SYN && p.payload <= s && |s| < TWO32 - 1
  }

  ghost predicate Slice(s: seq<byte>, isn: u32, p: Segment) {
    exists o: nat :: o + |p.payload| <= |s| && At(p.tcp.seqNo, isn, o) && s[o..o + |p.payload|] == p.payload
  }

  /** A SYN that arrives again is out of sequence. */
  lemma SynIsOld(isn: u32, q: nat)
    requires q < TWO32 - 1
    ensures !At(isn, isn, q)
  {
    Apart(isn, q, TWO32 - 1);
  }

  ghost predicate HonestRun(s: seq<byte>, isn: u32, es: seq<Event>) {
    forall e <- es :: e.Input? ==> Honest(s, isn, e.p)
  }

  /** Before the peer's FIN is consumed everything accepted is stream; afterwards nothing is queued. */
  ghost predicate Delivers(s: seq<byte>, isn: u32, t: Track) {
    var c := t.conn;
    && Queued(c.log) <= s
    && (t.running && c.state in {SYN_RCVD, ESTABLISHED} ==> c.log.fins == 0)
    && (c.hasConn ==> c.log.isn == isn)
  }

  /** Sequence numbers of a stream shorter than 2^32 bytes do not repeat. */
  lemma SameOffset(x: u32, isn: u32, o: nat, q: nat)
    requires At(x, isn, o) && At(x, isn, q) && o < TWO32 && q < TWO32
    ensures o == q
  {
    var a, b := isn + 1 + o, isn + 1 + q;
    assert a - b == TWO32 * (a / TWO32 - b / TWO32);
  }

  /** A segment in sequence extends what has been queued by its payload, whatever else it carries. */
  lemma RelayDelivers(s: seq<byte>, c: Conn, p: Segment, accepted: bool)
    requires Opened(c) && Queued(c.log) <= s && |s| < TWO32 && c.log.fins == 0
    requires Honest(s, c.log.isn, p) && ValidSeq(c, p)
    ensures Queued(Relay(c, p, accepted && p.payload != []).log) <= s
  {
    hide Payloads, Sents, Tiles, Carries, TotalLen, Relay, Slice, Queued;
    var relayed := accepted && p.payload != [];
    RelayKeeps(c, p, relayed);
    if relayed {
      if WithSyn(s, p) { SynIsOld(c.log.isn, |Queued(c.log)|); }
      SliceExtends(s, Queued(c.log), c.log.isn, p);
    }
  }

  lemma SliceExtends(s: seq<byte>, queued: seq<byte>, isn: u32, p: Segment)
    requires queued <= s && |s| < TWO32 && At(p.tcp.seqNo, isn, |queued|) && Slice(s, isn, p)
    ensures queued + p.payload <= s
  {
    var o: nat :| o + |p.payload| <= |s| && At(p.tcp.seqNo, isn, o) && s[o..o + |p.payload|] == p.payload;
    SameOffset(p.tcp.seqNo, isn, o, |queued|);
    assert s[..o] + s[o..o + |p.payload|] == s[..o + |p.payload|];
  }

  lemma EmitQueues(c: Conn)
    ensures Queued(Ack(c).log) == Queued(FinAck(c).log) == Queued(ConsumeFin(c).log) == Queued(c.log)
  {
  }

  /** What a handler leaves of it. */
  ghost predicate Delivered(s: seq<byte>, c: Conn, h: Handled) {
    && Queued(h.c.log) <= s
    && (h.continu && h.c.state in {SYN_RCVD, ESTABLISHED} ==> h.c.log.fins == 0)
    && (c.hasConn ==> h.c.log.isn == c.log.isn)
  }

  lemma SynRcvdDelivers(s: seq<byte>, c: Conn, p: Segment, accepted: bool)
    requires Opened(c) && c.state == SYN_RCVD && Queued(c.log) <= s && |s| < TWO32 && c.log.fins == 0
    requires Honest(s, c.log.isn, p)
    ensures Delivered(s, c, StateSynRcvd(c, p, accepted))
  {
    hide Opened, Payloads, Honest, Rst, Add32;
    var d := c.(state := ESTABLISHED);
    SameBooks(c, d);
    if ValidSeq(d, p) { RelayDelivers(s, d, p, accepted); }
  }

  lemma EstablishedDelivers(s: seq<byte>, c: Conn, p: Segment, accepted: bool)
    requires Opened(c) && c.state == ESTABLISHED && Queued(c.log) <= s && |s| < TWO32 && c.log.fins == 0
    requires Honest(s, c.log.isn, p)
    ensures Delivered(s, c, StateEstablished(c, p, accepted))
  {
    hide Opened, Queued, Honest, Outgoing, Add32;
    if ValidSeq(c, p) {
      RelayDelivers(s, c, p, accepted);
      EmitQueues(Relay(c, p, p.payload != [] && accepted));
      EmitQueues(ConsumeFin(Relay(c, p, p.payload != [] && accepted)));
    } else {
      EmitQueues(c);
    }
  }

  /** The other handlers queue nothing. */
  lemma OthersDeliver(s: seq<byte>, c: Conn, p: Segment, choice: Choice)
    requires Live(c) && c.state in {CLOSED, LAST_ACK, FIN_WAIT_1} && Queued(c.log) <= s
    ensures Delivered(s, c, Handle(c, p, choice))
  {
    hide Opened, Payloads, Rst, Outgoing, Add32, ValidSeq, ValidAck, StateEstablished, StateSynRcvd;
    if c.state == CLOSED { QueuedNothing(c); }
  }

  lemma HandleDelivers(s: seq<byte>, isn: u32, t: Track, p: Segment, choice: Choice)
    requires Inv(t) && Delivers(s, isn, t) && Enabled(t, Input(p, choice))
    requires |s| < TWO32 && Honest(s, isn, p)
    ensures Delivers(s, isn, Step(t, Input(p, choice)))
  {
    hide Tiles, Carries, At, Accepted, Queued, Honest;
    hide StateClosed, StateSynRcvd, StateEstablished, StateFinWait1, StateLastAck;
    var c := t.conn;
    var d := c.(sendWindow := p.tcp.window);
    SameBooks(c, d);
    match c.state
    case SYN_RCVD => SynRcvdDelivers(s, d, p, choice.accepted);
    case ESTABLISHED => EstablishedDelivers(s, d, p, choice.accepted);
    case CLOSED =>
      OthersDeliver(s, c, p, choice);
      ClosedOpens(d, p, choice.dial);
      SynHasIsn(s, isn, p);
    case _ => OthersDeliver(s, c, p, choice);
  }

  lemma SynHasIsn(s: seq<byte>, isn: u32, p: Segment)
    requires Honest(s, isn, p) && p.tcp.flags.SYN
    ensures p.tcp.seqNo == isn
  {
  }

  lemma ClosedOpens(c: Conn, syn: Segment, dial: Dial)
    requires Unopened(c)
    ensures var d := StateClosed(c, syn, dial).c; d.hasConn ==> d.log.isn == syn.tcp.seqNo
  {
  }

  lemma QueuedNothing(c: Conn)
    requires Unopened(c)
    ensures Queued(c.log) == [] && c.log.fins == 0
  {
  }

  lemma StepDelivers(s: seq<byte>, isn: u32, t: Track, e: Event)
    requires Inv(t) && Delivers(s, isn, t) && Enabled(t, e)
    requires |s| < TWO32 && (e.Input? ==> Honest(s, isn, e.p))
    ensures Delivers(s, isn, Step(t, e))
  {
    hide Opened, Unopened, Payloads, Honest, Handle;
    if e.Input? {
      HandleDelivers(s, isn, t, e.p, e.choice);
    }
  }

  lemma {:induction false} RunDelivers(s: seq<byte>, isn: u32, t: Track, es: seq<Event>)
    requires Inv(t) && Delivers(s, isn, t) && IsRun(t, es) && |s| < TWO32 && HonestRun(s, isn, es)
    ensures Delivers(s, isn, Exec(t, es)) && Inv(Exec(t, es))
    decreases |es|
  {
    hide Inv, Step, Enabled, Delivers, Honest;
    if es != [] {
      StepKeeps(t, es[0]);
      StepDelivers(s, isn, t, es[0]);
      RunDelivers(s, isn, Step(t, es[0]), es[1..]);
    }
  }

  /** In every run over segments of one stream shorter than 2^32 bytes, what has been queued for the proxy
      is a prefix of the stream, and the next sequence number expected counts, from the peer's initial one, the
      SYN, what is queued, and the FINs consumed. */
  lemma InOrderExactlyOnce(ends: Endpoints, s: seq<byte>, isn: u32, es: seq<Event>)
    requires IsRun(Fresh(ends), es) && |s| < TWO32 && HonestRun(s, isn, es)
    ensures var c := Exec(Fresh(ends), es).conn;
            && Queued(c.log) <= s
            && (Sents(c.log.toTun) != [] ==>
                  c.log.isn == isn && c.rcvNxtSeq == (isn + 1 + |Queued(c.log)| + c.log.fins) % TWO32)
  {
    hide Step, Enabled, Honest, Tiles, Carries, Payloads;
    FreshInv(ends);
    FreshDelivers(s, isn, ends);
    RunDelivers(s, isn, Fresh(ends), es);
    SentsOfUnopened(Exec(Fresh(ends), es).conn);
  }

  lemma FreshDelivers(s: seq<byte>, isn: u32, ends: Endpoints)
    ensures Delivers(s, isn, Fresh(ends))
  {
  }

  // ---- the end of the stream

  /** A FIN stands behind the last byte of the stream, and a segment fits an IPv4 packet. A SYN may carry the whole
      stream and the FIN, unless its own number is that of what follows the FIN of the longest streams. */
  ghost predicate EndsStream(s: seq<byte>, isn: u32, p: Segment) {
    && |p.payload| <= 0xffff
    && (p.tcp.flags.FIN ==> (p.tcp.flags.SYN && p.payload == s && |s| < TWO32 - 2) || Last(s, isn, p))
  }

  ghost predicate Last(s: seq<byte>, isn: u32, p: Segment) {
    exists o: nat :: o + |p.payload| == |s| && At(p.tcp.seqNo, isn, o)
  }

  ghost predicate FinRun(s: seq<byte>, isn: u32, es: seq<Event>) {
    forall e <- es :: e.Input? ==> EndsStream(s, isn, e.p)
  }

  /** A pass that takes a FIN and refuses the data on the same packet. */
  predicate RefusesFin(c: Conn, e: Event) {
    && e.Input? && c.state == ESTABLISHED && ValidSeq(c, e.p)
    && e.p.tcp.flags.ACK && e.p.tcp.flags.FIN && !e.p.tcp.flags.RST
    && e.p.payload != [] && !e.choice.accepted
  }

  predicate RunRefusesFin(t: Track, es: seq<Event>)
    requires IsRun(t, es)
    decreases |es|
  {
    es != [] && (RefusesFin(t.conn, es[0]) || RunRefusesFin(Step(t, es[0]), es[1..]))
  }

  /** One FIN at most is consumed; and then everything has been queued, unless it came in FIN_WAIT_1, which
      queues nothing. */
  ghost predicate Finishes(s: seq<byte>, c: Conn) {
    && c.log.fins <= 1
    && (c.log.fins == 1 && c.state !in {TIME_WAIT, CLOSING} ==> Queued(c.log) == s)
  }

  /** Where a FIN in sequence stands, while none has been consumed. */
  lemma FinIsNext(s: seq<byte>, c: Conn, p: Segment)
    requires Opened(c) && c.log.fins == 0 && Queued(c.log) <= s && |s| < TWO32
    requires Honest(s, c.log.isn, p) && EndsStream(s, c.log.isn, p) && p.tcp.flags.FIN && ValidSeq(c, p)
    ensures |Queued(c.log)| + |p.payload| == |s|
  {
    hide Payloads, Sents, Tiles, Carries;
    if !Last(s, c.log.isn, p) { SynIsOld(c.log.isn, |Queued(c.log)|); }
    var o: nat :| o + |p.payload| == |s| && At(p.tcp.seqNo, c.log.isn, o);
    SameOffset(c.rcvNxtSeq, c.log.isn, o, |Queued(c.log)|);
  }

  /** A FIN in sequence, with what it carries, completes the stream. */
  lemma FinCompletes(s: seq<byte>, c: Conn, p: Segment, relayed: bool)
    requires Opened(c) && c.log.fins == 0 && Queued(c.log) <= s && |s| < TWO32
    requires Honest(s, c.log.isn, p) && EndsStream(s, c.log.isn, p) && p.tcp.flags.FIN && ValidSeq(c, p)
    requires relayed == (p.payload != [])
    ensures Queued(Relay(c, p, relayed).log) == s
  {
    hide Payloads, Sents, Honest, EndsStream, Tiles, Carries, Relay;
    FinIsNext(s, c, p);
    RelayKeeps(c, p, relayed);
    RelayDelivers(s, c, p, true);
  }

  /** Once the stream is complete no other FIN is in sequence. */
  lemma NoSecondFin(s: seq<byte>, c: Conn, p: Segment)
    requires Opened(c) && c.log.fins == 1 && Queued(c.log) == s && |s| < TWO32
    requires Honest(s, c.log.isn, p) && EndsStream(s, c.log.isn, p) && p.tcp.flags.FIN
    ensures !ValidSeq(c, p)
  {
    hide Payloads, Sents, Tiles, Carries;
    if Last(s, c.log.isn, p) {
      var o: nat :| o + |p.payload| == |s| && At(p.tcp.seqNo, c.log.isn, o);
      Apart(c.log.isn, o, |s| + 1);
    } else {
      SynIsOld(c.log.isn, |s| + 1);
    }
  }

  lemma Apart(isn: u32, o: nat, q: nat)
    requires o < q < o + TWO32
    ensures (isn + 1 + o) % TWO32 != (isn + 1 + q) % TWO32
  {
    var a, b := isn + 1 + o, isn + 1 + q;
    assert b == a + TWO32 * (b / TWO32 - a / TWO32) + (b % TWO32 - a % TWO32);
  }

  lemma EstablishedFinishes(s: seq<byte>, c: Conn, p: Segment, choice: Choice)
    requires Opened(c) && c.state == ESTABLISHED && Queued(c.log) <= s && |s| < TWO32 && c.log.fins == 0
    requires Honest(s, c.log.isn, p) && EndsStream(s, c.log.isn, p) && !RefusesFin(c, Input(p, choice))
    ensures Finishes(s, StateEstablished(c, p, choice.accepted).c)
  {
    hide Tiles, Carries, Queued, Honest, EndsStream, Outgoing, Add32;
    var relayed := p.payload != [] && choice.accepted;
    if ValidSeq(c, p) && p.tcp.flags.FIN && p.tcp.flags.ACK && !p.tcp.flags.RST {
      FinCompletes(s, c, p, relayed);
      EmitQueues(ConsumeFin(Relay(c, p, relayed)));
      EmitQueues(Relay(c, p, relayed));
    }
  }

  lemma FinWait1Finishes(s: seq<byte>, c: Conn, p: Segment)
    requires Opened(c) && c.state == FIN_WAIT_1 && Finishes(s, c) && |s| < TWO32
    requires Honest(s, c.log.isn, p) && EndsStream(s, c.log.isn, p)
    ensures Finishes(s, StateFinWait1(c, p).c)
  {
    hide Tiles, Carries, Payloads, Honest, EndsStream, Outgoing, Add32;
    if c.log.fins == 1 && p.tcp.flags.FIN {
      NoSecondFin(s, c, p);
    }
  }

  lemma OthersFinish(s: seq<byte>, c: Conn, p: Segment, choice: Choice)
    requires Live(c) && c.state in {CLOSED, SYN_RCVD, LAST_ACK}
    requires Finishes(s, c) && (c.state == SYN_RCVD ==> c.log.fins == 0)
    ensures Finishes(s, Handle(c, p, choice).c)
  {
    hide Tiles, Carries, Payloads, Rst, Outgoing, Add32, ValidSeq, ValidAck, StateEstablished, StateFinWait1;
  }

  lemma StepFinishes(s: seq<byte>, isn: u32, t: Track, e: Event)
    requires Inv(t) && Delivers(s, isn, t) && Finishes(s, t.conn) && Enabled(t, e) && |s| < TWO32
    requires e.Input? ==> Honest(s, isn, e.p) && EndsStream(s, isn, e.p)
    requires !RefusesFin(t.conn, e)
    ensures Finishes(s, Step(t, e).conn)
  {
    hide Tiles, Carries, At, Accepted, Payloads, Honest, EndsStream;
    hide StateClosed, StateSynRcvd, StateEstablished, StateFinWait1, StateLastAck;
    if e.Input? {
      var d := t.conn.(sendWindow := e.p.tcp.window);
      SameBooks(t.conn, d);
      if d.state == ESTABLISHED {
        EstablishedFinishes(s, d, e.p, e.choice);
      } else if d.state == FIN_WAIT_1 {
        FinWait1Finishes(s, d, e.p);
      } else {
        OthersFinish(s, t.conn, e.p, e.choice);
      }
    }
  }

  /** What a refused FIN leaves behind for good: bytes are missing, and the FIN has been consumed. */
  ghost predicate Lacks(s: seq<byte>, c: Conn) {
    && |Queued(c.log)| < |s| && c.log.fins >= 1
    && (c.log.fins == 1 ==> c.state !in {TIME_WAIT, CLOSING})
  }

  ghost predicate Broken(s: seq<byte>, t: Track) {
    Lacks(s, t.conn) && (t.running ==> t.conn.state in {LAST_ACK, FIN_WAIT_1})
  }

  lemma RefusalBreaks(s: seq<byte>, isn: u32, t: Track, e: Event)
    requires Inv(t) && Delivers(s, isn, t) && Enabled(t, e) && |s| < TWO32
    requires RefusesFin(t.conn, e) && Honest(s, isn, e.p) && EndsStream(s, isn, e.p)
    ensures Broken(s, Step(t, e))
  {
    hide Payloads, Sents, Tiles, Carries, Honest, EndsStream, Outgoing;
    var d := t.conn.(sendWindow := e.p.tcp.window);
    SameBooks(t.conn, d);
    FinIsNext(s, d, e.p);
    EmitQueues(ConsumeFin(d));
    EmitQueues(d);
  }

  lemma FinWait1Lacks(s: seq<byte>, c: Conn, p: Segment)
    requires Lacks(s, c)
    ensures Lacks(s, StateFinWait1(c, p).c) && !StateFinWait1(c, p).continu
  {
    hide Outgoing, Add32, Queued, Accepted, ValidSeq, ValidAck;
    EmitQueues(ConsumeFin(c));
    EmitQueues(c);
  }

  lemma LastAckLacks(s: seq<byte>, c: Conn, p: Segment)
    requires Lacks(s, c) && c.state == LAST_ACK
    ensures var h := StateLastAck(c, p); Lacks(s, h.c) && (h.continu ==> h.c.state == LAST_ACK)
  {
  }

  lemma InputStaysBroken(s: seq<byte>, t: Track, p: Segment, choice: Choice)
    requires Broken(s, t) && Enabled(t, Input(p, choice))
    ensures Broken(s, Step(t, Input(p, choice)))
  {
    hide Queued, StateClosed, StateSynRcvd, StateEstablished, StateFinWait1, StateFinWait2, StateClosing, StateLastAck;
    var d := t.conn.(sendWindow := p.tcp.window);
    FinWait1Lacks(s, d, p);
    if d.state == LAST_ACK {
      LastAckLacks(s, d, p);
    }
  }

  lemma StepStaysBroken(s: seq<byte>, t: Track, e: Event)
    requires Inv(t) && Broken(s, t) && Enabled(t, e)
    ensures Broken(s, Step(t, e))
  {
    hide Tiles, Carries, At, Payloads, Outgoing, Add32, Handle;
    if e.Input? {
      InputStaysBroken(s, t, e.p, e.choice);
    }
  }

  lemma {:induction false} RunStaysBroken(s: seq<byte>, t: Track, es: seq<Event>)
    requires Inv(t) && Broken(s, t) && IsRun(t, es)
    ensures Broken(s, Exec(t, es))
    decreases |es|
  {
    hide Inv, Step, Enabled, Broken;
    if es != [] {
      StepKeeps(t, es[0]);
      StepStaysBroken(s, t, es[0]);
      RunStaysBroken(s, Step(t, es[0]), es[1..]);
    }
  }

  lemma BrokenNeverFinishes(s: seq<byte>, t: Track)
    requires Broken(s, t)
    ensures !Finishes(s, t.conn)
  {
  }

  lemma {:induction false} RunFinishes(s: seq<byte>, isn: u32, t: Track, es: seq<Event>)
    requires Inv(t) && Delivers(s, isn, t) && Finishes(s, t.conn) && IsRun(t, es) && |s| < TWO32
    requires HonestRun(s, isn, es) && FinRun(s, isn, es)
    ensures Finishes(s, Exec(t, es).conn) <==> !RunRefusesFin(t, es)
    decreases |es|
  {
    hide Inv, Step, Enabled, Delivers, Finishes, Broken, Honest, EndsStream, RefusesFin;
    if es != [] {
      StepKeeps(t, es[0]);
      if RefusesFin(t.conn, es[0]) {
        JustInput(t.conn, es[0]);
        RefusalBreaks(s, isn, t, es[0]);
        RunStaysBroken(s, Step(t, es[0]), es[1..]);
        BrokenNeverFinishes(s, Exec(t, es));
      } else {
        StepDelivers(s, isn, t, es[0]);
        StepFinishes(s, isn, t, es[0]);
        RunFinishes(s, isn, Step(t, es[0]), es[1..]);
      }
    }
  }

  lemma JustInput(c: Conn, e: Event)
    ensures RefusesFin(c, e) ==> e.Input?
  {
  }

  /** With FINs where the stream ends, one FIN at most is consumed, and unless that happened in FIN_WAIT_1 the
      whole stream has then been queued, if and only if no pass of the run has refused the data of a packet
      whose FIN it consumed. Refusing packets without a FIN does no harm. */
  lemma FinEndsStream(ends: Endpoints, s: seq<byte>, isn: u32, es: seq<Event>)
    requires IsRun(Fresh(ends), es) && |s| < TWO32 && HonestRun(s, isn, es) && FinRun(s, isn, es)
    ensures var c := Exec(Fresh(ends), es).conn;
            && c.log.fins <= 1
            && (c.log.fins == 1 && c.state !in {TIME_WAIT, CLOSING} ==> Queued(c.log) == s)
            <==> !RunRefusesFin(Fresh(ends), es)
  {
    hide Step, Enabled, Honest, EndsStream, RunRefusesFin;
    FreshInv(ends);
    FreshDelivers(s, isn, ends);
    RunFinishes(s, isn, Fresh(ends), es);
  }

  /** A run over a stream of two zeros: the socks side refuses the packet that carries it all, and closes; the
      peer sends its last byte again. */
  function RefusedRelay(ends: Endpoints, isn: u32): seq<Event> {
    var fin := FlagSet(false, true, false, false);
    Handshake(ends, isn)
    + [ Input(FromPeer(ends, Add32(isn, 1), 2, fin, Zeros(2)), Choice(Connected, false)),
        SocksClosed,
        Input(FromPeer(ends, Add32(isn, 2), 3, fin, Zeros(1)), Choice(Connected, true)) ]
  }

  /** There two FINs are consumed and nothing is queued, though every segment is a piece of the stream. */
  lemma {:induction false} TwoFinsConsumed(ends: Endpoints, isn: u32)
    ensures var es := RefusedRelay(ends, isn);
            && IsRun(Fresh(ends), es) && HonestRun(Zeros(2), isn, es)
            && (forall e <- es :: e.Input? ==> EndsStream(Zeros(2), isn, e.p))
            && Exec(Fresh(ends), es).conn.log.fins == 2 && Queued(Exec(Fresh(ends), es).conn.log) == []
  {
    hide Zeros, Sents, Accepted, Honest, EndsStream, Handshake, Exec, IsRun;
    HandshakeOpens(ends, isn);
    var t := Exec(Fresh(ends), Handshake(ends, isn));
    var es := RefusedRelay(ends, isn)[|Handshake(ends, isn)|..];
    assert RefusedRelay(ends, isn) == Handshake(ends, isn) + es;
    var t1 := Step(t, es[0]);
    assert t1.running && t1.enabled && t1.conn.state == LAST_ACK && t1.conn.log.fins == 1 && t1.conn.log.toSocks == [];
    assert t1.conn.rcvNxtSeq == Add32(Add32(isn, 1), 1) == Add32(isn, 2);
    var t2 := Step(t1, es[1]);
    assert t2.running && t2.conn.state == FIN_WAIT_1 && t2.conn.rcvNxtSeq == Add32(isn, 2);
    assert t2.conn.log.fins == 1 && t2.conn.log.toSocks == [];
    JustStep(t2, es[2]);
    assert es[2..] == [es[2]] && es[1..][1..] == es[2..];
    RunCons(t1, es[1..]);
    RunCons(t, es);
    RunJoins(Fresh(ends), Handshake(ends, isn), es);
    PiecesOfZeros(ends, isn);
  }

  lemma PiecesOfZeros(ends: Endpoints, isn: u32)
    ensures forall e <- RefusedRelay(ends, isn) ::
              e.Input? ==> Honest(Zeros(2), isn, e.p) && EndsStream(Zeros(2), isn, e.p)
  {
    var es := RefusedRelay(ends, isn);
    var whole, last := es[2].p, es[4].p;
    assert 0 + |whole.payload| == 2 && At(whole.tcp.seqNo, isn, 0) && Zeros(2)[0..2] == whole.payload;
    assert 1 + |last.payload| == 2 && At(last.tcp.seqNo, isn, 1) && Zeros(2)[1..2] == last.payload;
  }

  /** In ESTABLISHED a segment of the stream is queued exactly if it starts at the first byte not yet
      queued, and then all of it is; otherwise what is missing is asked for again. */
  lemma QueuedIfNext(s: seq<byte>, c: Conn, p: Segment, o: nat)
    requires Opened(c) && c.state == ESTABLISHED && c.log.fins == 0 && Queued(c.log) <= s && |s| < TWO32
    requires At(p.tcp.seqNo, c.log.isn, o) && o + |p.payload| <= |s| && s[o..o + |p.payload|] == p.payload != []
    requires p.tcp.flags.ACK && !p.tcp.flags.RST
    ensures var d := StateEstablished(c, p, true).c;
            && (Queued(d.log) != Queued(c.log) <==> o == |Queued(c.log)|)
            && (o == |Queued(c.log)| ==> Queued(d.log) == s[..o + |p.payload|])
            && (o != |Queued(c.log)| ==> d == Ack(c))
  {
    hide Payloads, Sents, Outgoing, Add32, Tiles, Carries;
    var q := |Queued(c.log)|;
    if ValidSeq(c, p) {
      SameOffset(c.rcvNxtSeq, c.log.isn, o, q);
      RelayKeeps(c, p, true);
      EmitQueues(Relay(c, p, true));
      EmitQueues(ConsumeFin(Relay(c, p, true)));
      assert s[..o] + s[o..o + |p.payload|] == s[..o + |p.payload|];
    } else {
      EmitQueues(c);
    }
  }
}
