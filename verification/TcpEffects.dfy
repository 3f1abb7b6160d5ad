/** What every event of a run sends, accepts and signals. */
module TcpEffects {
  import opened Bytes
  import opened TcpTrack
  import opened TcpRuns
  import Tcp = TcpSegment

  /** A segment in sequence that is an acknowledgement and no reset. */
  predicate Proper(c: Conn, p: Segment) {
    ValidSeq(c, p) && p.tcp.flags.ACK && !p.tcp.flags.RST
  }

  predicate TakesFin(c: Conn, e: Event) {
    && e.Input? && Proper(c, e.p) && e.p.tcp.flags.FIN
    && (c.state in {ESTABLISHED, FIN_WAIT_1} || (c.state == FIN_WAIT_2 && ValidAck(c, e.p)))
  }

  predicate TakesData(c: Conn, e: Event) {
    && e.Input? && Proper(c, e.p) && |e.p.payload| > 0 && e.choice.accepted
    && (c.state == ESTABLISHED || (c.state == SYN_RCVD && ValidAck(c, e.p)))
  }

  /** Exactly these events put something on the channel to the tun writer. */
  predicate Speaks(c: Conn, e: Event) {
    match e
    case Input(p, choice) =>
      (match c.state
       case CLOSED => choice.dial == Connected
       case SYN_RCVD => !Fits(c, p) && !p.tcp.flags.RST
       case ESTABLISHED => !ValidSeq(c, p) || TakesFin(c, e)
       case LAST_ACK => false
       case _ => TakesFin(c, e))
    case AckTimer => c.lastAck < c.rcvNxtSeq
    case FromSocks(_) => true
    case SocksClosed => true
    case _ => false
  }

  /** And this is what: a reset before the handshake is complete, and otherwise a segment that acknowledges all that
      has been accepted with this event, announces the window that this leaves, and carries what there is to
      send. */
  predicate Says(c: Conn, e: Event, d: Conn, item: Item) {
    if c.state == SYN_RCVD && e.Input? then item == Reset(Rst(e.p)) else
    && item.Sent?
    && var h := item.seg.tcp;
    && h.ackNo == d.rcvNxtSeq == d.lastAck && d.log.acked == Accepted(d.log)
    && h.window == d.recvWindow % 0x1_0000 && h.seqNo == (if c.state == CLOSED then 1 else c.nxtSeq)
    && item.seg.payload == (if e.FromSocks? then e.data else [])
    && h.flags.ACK && !h.flags.RST && (h.flags.SYN <==> c.state == CLOSED)
    && (h.flags.FIN <==> e.SocksClosed? || (c.state == ESTABLISHED && TakesFin(c, e)))
    && (h.flags.PSH <==> e.FromSocks?) && !h.flags.URG && !h.flags.ECE && !h.flags.CWR && !h.flags.NS
    && h.options == (if c.state == CLOSED then [Tcp.TcpOption(2, [0x05, 0xb4])] else [])
    && h.urgent == 0
  }

  predicate Answers(c: Conn, e: Event, d: Conn) {
    var n := |c.log.toTun|;
    if Speaks(c, e) then |d.log.toTun| == n + 1 && d.log.toTun[..n] == c.log.toTun && Says(c, e, d, d.log.toTun[n])
    else d.log.toTun == c.log.toTun && d.lastAck == c.lastAck
  }

  /** What is accepted, and the windows. */
  predicate Accepts(c: Conn, e: Event, d: Conn) {
    && d.log.fins == c.log.fins + (if TakesFin(c, e) then 1 else 0)
    && d.log.toSocks == c.log.toSocks + (if TakesData(c, e) then [e.p] else [])
    && d.rcvNxtSeq == (if c.state == CLOSED && e.Input? && e.choice.dial == Connected then (e.p.tcp.seqNo + 1) % TWO32
                       else (c.rcvNxtSeq + (if TakesData(c, e) then |e.p.payload| else 0)
                                         + (if TakesFin(c, e) then 1 else 0)) % TWO32)
    && d.sendWindow == (if e.Input? then e.p.tcp.window else c.sendWindow)
    && d.hasConn == (c.hasConn || (c.state == CLOSED && e.Input? && e.choice.dial == Connected))
    && d.log.written == c.log.written + (if e.Written? then 1 else 0)
    && d.recvWindow == (if TakesData(c, e) then
                          if c.recvWindow < |e.p.payload| then 0 else c.recvWindow - |e.p.payload|
                        else if e.Written? && c.log.written < |c.log.toSocks| then
                          var wnd := c.recvWindow + |c.log.toSocks[c.log.written].payload|;
                          if wnd > 65535 then 65535 else wnd
                        else c.recvWindow)
  }

  /** Flags and channels of the loop. */
  predicate Signals(t: Track, e: Event, t': Track) {
    var ends := e.Input? && Ends(t.conn, e.p, e.choice);
    && t'.destroyed == (t.destroyed || e in {Destroy, HeadQuits} || ends)
    && t'.selfClosed == t.selfClosed + (if e in {IdleTimeout, HeadQuits} || ends then 1 else 0)
    && t'.otherClosed == (t.otherClosed || e == CloseOther)
    && t'.enabled == (t.enabled || (t.conn.state == ESTABLISHED && e !in {Destroy, CloseOther, Written}))
    && (ends && t.conn.state == FIN_WAIT_1 ==>
          t'.conn.state == if !Proper(t.conn, e.p) then FIN_WAIT_1
                           else if !e.p.tcp.flags.FIN then FIN_WAIT_2
                           else if ValidAck(t.conn, e.p) then TIME_WAIT else CLOSING)
    && (ends && t.conn.state == LAST_ACK ==> t'.conn.state == CLOSED)
  }

  // ---- handlers

  lemma Spoken(c: Conn, flags: Tcp.Flags, options: seq<Tcp.TcpOption>, payload: seq<byte>)
    requires flags.ACK
    ensures var n, s := |c.log.toTun|, Outgoing(c, flags, options, payload);
            var d := Send(c, s);
            && |d.log.toTun| == n + 1 && d.log.toTun[..n] == c.log.toTun && d.log.toTun[n] == Sent(s)
            && d.lastAck == c.rcvNxtSeq && d.log.acked == Accepted(c.log)
            && d == c.(lastAck := d.lastAck, log := c.log.(toTun := d.log.toTun, acked := d.log.acked))
            && Accepted(d.log) == Accepted(c.log)
  {
    hide Payloads;
    var s := Outgoing(c, flags, options, payload);
    assert (c.log.toTun + [Sent(s)])[..|c.log.toTun|] == c.log.toTun;
  }

  predicate Both(c: Conn, e: Event, d: Conn) {
    Answers(c, e, d) && Accepts(c, e, d)
  }

  lemma ClosedEffects(c: Conn, p: Segment, choice: Choice)
    requires c.state == CLOSED && !c.hasConn && |c.log.toSocks| == 0 && c.log.fins == 0
    requires c.sendWindow == p.tcp.window
    ensures Both(c, Input(p, choice), StateClosed(c, p, choice.dial).c)
  {
    hide Send, Accepted;
    var d := Dialed(c, p);
    Spoken(d, FlagSet(true, false, false, false), MaxSegmentSize(), []);
  }

  lemma SynRcvdEffects(c: Conn, p: Segment, choice: Choice)
    requires c.state == SYN_RCVD && c.sendWindow == p.tcp.window
    ensures Both(c, Input(p, choice), StateSynRcvd(c, p, choice.accepted).c)
  {
    hide Rst;
    assert c.log.toSocks + [] == c.log.toSocks;
  }

  lemma EstablishedEffects(c: Conn, p: Segment, choice: Choice)
    requires c.state == ESTABLISHED && c.sendWindow == p.tcp.window
    ensures Both(c, Input(p, choice), StateEstablished(c, p, choice.accepted).c)
  {
    var relayed := p.payload != [] && choice.accepted;
    if !ValidSeq(c, p) {
      hide Send, Accepted, Add32;
      assert c.log.toSocks + [] == c.log.toSocks;
      Spoken(c, FlagSet(false, false, false, false), [], []);
    } else if Proper(c, p) && p.tcp.flags.FIN {
      FinEffects(c, p, choice);
    } else {
      assert c.log.toSocks + [] == c.log.toSocks;
      hide Send, Accepted;
    }
  }

  lemma FinEffects(c: Conn, p: Segment, choice: Choice)
    requires c.state == ESTABLISHED && c.sendWindow == p.tcp.window && Proper(c, p) && p.tcp.flags.FIN
    ensures Both(c, Input(p, choice), StateEstablished(c, p, choice.accepted).c)
  {
    hide Send, Accepted, Add32;
    var relayed := p.payload != [] && choice.accepted;
    var d := ConsumeFin(Relay(c, p, relayed));
    Spoken(d, FlagSet(false, true, false, false), [], []);
    assert c.log.toSocks + [] == c.log.toSocks;
    TwoAdds(c.rcvNxtSeq, if relayed then |p.payload| else 0);
    assert d.rcvNxtSeq == Add32(Add32(c.rcvNxtSeq, if relayed then |p.payload| else 0), 1);
  }

  lemma TwoAdds(x: u32, n: nat)
    ensures Add32(Add32(x, n), 1) == (x + n + 1) % TWO32 && Add32(x, 0) == x
  {
    Mod32Add(x + n, 1);
  }

  /** The handlers of the states that no run reaches. */
  lemma UnreachedHandlers(c: Conn, p: Segment, choice: Choice)
    requires c.state in {FIN_WAIT_2, CLOSING, TIME_WAIT}
    ensures var h := Handle(c, p, choice);
            && Both(c, Input(p, choice), h.c)
            && (h.continu <==> c.state == CLOSING && !(Fits(c, p) && (p.tcp.flags.ACK || p.tcp.flags.RST)))
            && (h.release <==> c.state != TIME_WAIT)
            && h.c.state == if TakesFin(c, Input(p, choice)) || (c.state == CLOSING && Proper(c, p) && ValidAck(c, p))
                            then TIME_WAIT else c.state
  {
    hide Send, Accepted;
    var d := c.(sendWindow := p.tcp.window);
    assert c.log.toSocks + [] == c.log.toSocks;
    Spoken(ConsumeFin(d), FlagSet(false, false, false, false), [], []);
  }

  lemma FinWait1Effects(c: Conn, p: Segment, choice: Choice)
    requires c.state == FIN_WAIT_1 && c.sendWindow == p.tcp.window
    ensures Both(c, Input(p, choice), StateFinWait1(c, p).c)
  {
    hide Send, Accepted;
    assert c.log.toSocks + [] == c.log.toSocks;
    Spoken(ConsumeFin(c), FlagSet(false, false, false, false), [], []);
  }

  lemma LastAckEffects(c: Conn, p: Segment, choice: Choice)
    requires c.state == LAST_ACK && c.sendWindow == p.tcp.window
    ensures Both(c, Input(p, choice), StateLastAck(c, p).c)
  {
    assert c.log.toSocks + [] == c.log.toSocks;
  }

  lemma InputEffects(c: Conn, p: Segment, choice: Choice)
    requires Live(c)
    ensures Both(c, Input(p, choice), Handle(c, p, choice).c)
  {
    hide StateClosed, StateSynRcvd, StateEstablished, StateFinWait1, StateLastAck, Opened, Rst, Accepted;
    var d := c.(sendWindow := p.tcp.window);
    match c.state
    case CLOSED => ClosedEffects(d, p, choice);
    case SYN_RCVD => SynRcvdEffects(d, p, choice);
    case ESTABLISHED => EstablishedEffects(d, p, choice);
    case FIN_WAIT_1 => FinWait1Effects(d, p, choice);
    case LAST_ACK => LastAckEffects(d, p, choice);
  }

  // ---- the other arms

  lemma SocksEffects(c: Conn, e: Event)
    requires e.FromSocks? || e.SocksClosed? || e.AckTimer?
    requires c.state in {ESTABLISHED, LAST_ACK, FIN_WAIT_1}
    ensures Both(c, e, match e
                       case FromSocks(data) => Push(c, data)
                       case SocksClosed => FinAck(c).(state := FIN_WAIT_1)
                       case _ => TimerArm(c))
  {
    hide Send;
    assert c.log.toSocks + [] == c.log.toSocks;
    Spoken(c, FlagSet(false, false, false, false), [], []);
    Spoken(c, FlagSet(false, true, false, false), [], []);
    if e.FromSocks? {
      Spoken(c, FlagSet(false, false, false, true), [], e.data);
      SameQueue(Send(c, Outgoing(c, FlagSet(false, false, false, true), [], e.data)).log, c.log.taken + [e.data]);
    }
  }

  lemma SameQueue(l: Log, taken: seq<seq<byte>>)
    ensures Accepted(l.(taken := taken)) == Accepted(l)
  {
  }

  lemma WriterEffects(c: Conn)
    requires c.log.written < |c.log.toSocks|
    ensures Both(c, Written, WriterArm(c))
  {
    assert c.log.toSocks + [] == c.log.toSocks;
  }

  lemma NoEffects(c: Conn, e: Event)
    requires e in {IdleTimeout, QuitByOther, HeadQuits, Destroy, CloseOther}
    ensures Both(c, e, c)
  {
    assert c.log.toSocks + [] == c.log.toSocks;
  }

  lemma StepEffects(t: Track, e: Event)
    requires Inv(t) && Enabled(t, e)
    ensures Both(t.conn, e, Step(t, e).conn) && Signals(t, e, Step(t, e))
  {
    hide Both, Handle, Opened, Unopened, Push, FinAck, TimerArm, WriterArm;
    match e
    case Input(p, choice) =>
      InputEffects(t.conn, p, choice);
      LoopEndsIff(t.conn, p, choice);
      EndStates(t.conn, p, choice);
    case FromSocks(_) => SocksEffects(t.conn, e);
    case SocksClosed => SocksEffects(t.conn, e);
    case AckTimer => SocksEffects(t.conn, e);
    case Written => WriterEffects(t.conn);
    case _ => NoEffects(t.conn, e);
  }

  /** The states in which a segment leaves the loop. */
  lemma EndStates(c: Conn, p: Segment, choice: Choice)
    requires Live(c)
    ensures var d := Handle(c, p, choice).c;
            && (c.state == FIN_WAIT_1 ==>
                  d.state == if !Proper(c, p) then FIN_WAIT_1
                             else if !p.tcp.flags.FIN then FIN_WAIT_2
                             else if ValidAck(c, p) then TIME_WAIT else CLOSING)
            && (c.state == LAST_ACK && Ends(c, p, choice) ==> d.state == CLOSED)
  {
    hide Opened, Unopened, StateClosed, StateSynRcvd, StateEstablished, Outgoing, Rst, Accepted, Add32;
  }

  // ---- theorems

  /** At every point of every run: what an event puts on the channel to the tun writer, what it accepts from the
      peer, what it does to the windows, and which flags and channels of the loop it touches. */
  lemma RunEffects(ends: Endpoints, es: seq<Event>, e: Event)
    requires IsRun(Fresh(ends), es) && Enabled(Exec(Fresh(ends), es), e)
    ensures var t := Exec(Fresh(ends), es);
            var t' := Step(t, e);
            Answers(t.conn, e, t'.conn) && Accepts(t.conn, e, t'.conn) && Signals(t, e, t')
  {
    hide Exec, IsRun, Inv, Step, Enabled, Answers, Accepts, Signals;
    FreshInv(ends);
    RunKeeps(Fresh(ends), es);
    StepEffects(Exec(Fresh(ends), es), e);
  }

  /** Every FIN that is consumed is acknowledged at once: exactly one segment leaves with it, and that one
      acknowledges it and all that came before. */
  lemma FinIsAcknowledged(ends: Endpoints, es: seq<Event>, e: Event)
    requires IsRun(Fresh(ends), es) && Enabled(Exec(Fresh(ends), es), e)
    requires Step(Exec(Fresh(ends), es), e).conn.log.fins > Exec(Fresh(ends), es).conn.log.fins
    ensures var c, d := Exec(Fresh(ends), es).conn, Step(Exec(Fresh(ends), es), e).conn;
            var before, now := Sents(c.log.toTun), Sents(d.log.toTun);
            && |now| == |before| + 1 && now[..|before|] == before
            && now[|before|].tcp.flags.ACK && now[|before|].tcp.ackNo == d.rcvNxtSeq
            && d.lastAck == d.rcvNxtSeq && d.log.acked == Accepted(d.log)
            && d.rcvNxtSeq == (d.log.isn + 1 + Accepted(d.log)) % TWO32
  {
    hide Exec, IsRun, Step, Enabled, Accepted, Sents, Tiles, Carries, Rst;
    RunEffects(ends, es, e);
    FreshInv(ends);
    RunKeeps(Fresh(ends), es);
    StepKeeps(Exec(Fresh(ends), es), e);
    var c, d := Exec(Fresh(ends), es).conn, Step(Exec(Fresh(ends), es), e).conn;
    var n := |c.log.toTun|;
    assert d.log.toTun == c.log.toTun + [d.log.toTun[n]];
    SentsSnoc(c.log.toTun, d.log.toTun[n]);
  }

  /** While the loop runs it has been destroyed if and only if that has happened, and the other quit channel is closed
      if and only if somebody has closed it. */
  lemma RunSignals(ends: Endpoints, es: seq<Event>)
    requires IsRun(Fresh(ends), es)
    ensures var t := Exec(Fresh(ends), es);
            (t.otherClosed <==> CloseOther in es) && (t.running ==> (t.destroyed <==> Destroy in es))
  {
    hide Exec, IsRun, Inv, Step, Enabled;
    FreshInv(ends);
    SignalsFrom(Fresh(ends), es);
  }

  lemma {:induction false} SignalsFrom(t: Track, es: seq<Event>)
    requires Inv(t) && IsRun(t, es)
    ensures var t' := Exec(t, es);
            && (t'.otherClosed <==> t.otherClosed || CloseOther in es)
            && (t'.running ==> (t'.destroyed <==> t.destroyed || Destroy in es))
    decreases |es|
  {
    hide Inv, Step, Enabled;
    if es != [] {
      StepSignals(t, es[0]);
      StepKeeps(t, es[0]);
      SignalsFrom(Step(t, es[0]), es[1..]);
      assert es == [es[0]] + es[1..];
      if Exec(t, es).running {
        RunningWas(Step(t, es[0]), es[1..]);
      }
    }
  }

  lemma StepSignals(t: Track, e: Event)
    requires Inv(t) && Enabled(t, e)
    ensures var t' := Step(t, e);
            && (t'.otherClosed <==> t.otherClosed || e == CloseOther)
            && (t'.running ==> (t'.destroyed <==> t.destroyed || e == Destroy))
  {
    hide Inv, Handle, TimerArm, Push, FinAck, WriterArm;
  }

  // ---- which events there are

  /** The socks arms have been switched on by the time the connection leaves ESTABLISHED. */
  predicate SwitchedOn(t: Track) {
    t.running && t.conn.state in {LAST_ACK, FIN_WAIT_1} ==> t.enabled
  }

  lemma StepSwitches(t: Track, e: Event)
    requires Inv(t) && SwitchedOn(t) && Enabled(t, e)
    ensures SwitchedOn(Step(t, e))
  {
    hide Opened, Unopened, Handle, TimerArm, Push, FinAck, WriterArm;
    if e.Input? {
      LoopEndsIff(t.conn, e.p, e.choice);
      if Handle(t.conn, e.p, e.choice).continu {
        StateMovesIff(t.conn, e.p, e.choice);
      }
    } else {
      StateStays(t, e);
    }
  }

  lemma StateStays(t: Track, e: Event)
    requires Enabled(t, e) && !e.Input?
    ensures Step(t, e).conn.state == if e.SocksClosed? then FIN_WAIT_1 else t.conn.state
  {
    hide Handle, Outgoing, Accepted, Add32;
  }

  lemma {:induction false} RunSwitches(t: Track, es: seq<Event>)
    requires Inv(t) && SwitchedOn(t) && IsRun(t, es)
    ensures SwitchedOn(Exec(t, es))
    decreases |es|
  {
    hide Inv, Step, Enabled, SwitchedOn;
    if es != [] {
      StepKeeps(t, es[0]);
      StepSwitches(t, es[0]);
      RunSwitches(Step(t, es[0]), es[1..]);
    }
  }

  /** What can happen at a point of a run: a packet while the loop runs, the first of them a SYN; the timer and the
      socks side from ESTABLISHED on, with chunks that fit a segment; the exit at the head once the connection is
      destroyed, or in ESTABLISHED, where its last packet may be too old; the other quit channel once it is closed;
      and the writer as long as there is something that it has not written. */
  lemma Arms(ends: Endpoints, es: seq<Event>, e: Event)
    requires IsRun(Fresh(ends), es)
    ensures var t := Exec(Fresh(ends), es);
            var open := t.running && t.conn.state in {ESTABLISHED, LAST_ACK, FIN_WAIT_1};
            Enabled(t, e) <==>
              match e
              case Input(p, _) => t.running && (t.conn.state == CLOSED ==> p.tcp.flags.SYN && !p.tcp.flags.RST)
              case FromSocks(data) => open && 1 <= |data| <= MTU - 40
              case AckTimer => open
              case SocksClosed => open
              case IdleTimeout => t.running
              case QuitByOther => t.running && t.otherClosed
              case HeadQuits => t.running && (t.destroyed || t.conn.state == ESTABLISHED)
              case Destroy => true
              case CloseOther => true
              case Written => t.conn.log.written < |t.conn.log.toSocks|
  {
    hide Step, Opened, Unopened;
    FreshInv(ends);
    RunKeeps(Fresh(ends), es);
    RunSwitches(Fresh(ends), es);
  }
}
