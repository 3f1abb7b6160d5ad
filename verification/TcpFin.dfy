/** What follows a FIN. */
module TcpFin {
  import opened Bytes
  import opened TcpTrack
  import opened TcpRuns

  /** No segment after a FIN takes sequence space: there is one FIN at most and no data behind it. */
  predicate FinIsLast(sents: seq<Segment>) {
    forall j, k :: 0 <= j < k < |sents| && sents[j].tcp.flags.FIN ==> SeqLen(sents[k]) == 0
  }

  predicate HasFin(sents: seq<Segment>) {
    exists j :: 0 <= j < |sents| && sents[j].tcp.flags.FIN
  }

  /** The guard that the comment at the head of the loop describes. */
  predicate Guarded(t: Track, es: seq<Event>)
    requires IsRun(t, es)
    decreases |es|
  {
    es == []
    || ((es[0].FromSocks? || es[0].SocksClosed? ==> t.conn.state == ESTABLISHED) && Guarded(Step(t, es[0]), es[1..]))
  }

  function SentsOf(t: Track): seq<Segment> {
    Sents(t.conn.log.toTun)
  }

  /** While the guard has been kept, a FIN has been sent exactly in the closing states. */
  predicate Closes(t: Track) {
    && FinIsLast(SentsOf(t))
    && (t.running ==> (HasFin(SentsOf(t)) <==> t.conn.state in {LAST_ACK, FIN_WAIT_1}))
  }

  lemma FinSnoc(sents: seq<Segment>, s: Segment)
    ensures HasFin(sents + [s]) <==> HasFin(sents) || s.tcp.flags.FIN
    ensures FinIsLast(sents + [s]) <==> FinIsLast(sents) && (HasFin(sents) ==> SeqLen(s) == 0)
  {
    var all := sents + [s];
    assert all[|sents|] == s;
    if FinIsLast(all) {
      assert forall j, k :: 0 <= j < k < |sents| ==> all[j] == sents[j] && all[k] == sents[k];
      if HasFin(sents) {
        var j :| 0 <= j < |sents| && sents[j].tcp.flags.FIN;
        assert all[j] == sents[j];
      }
    }
    if HasFin(sents) {
      var j :| 0 <= j < |sents| && sents[j].tcp.flags.FIN;
      assert all[j].tcp.flags.FIN;
    }
    if HasFin(all) {
      var j :| 0 <= j < |all| && all[j].tcp.flags.FIN;
    }
  }

  lemma SendFin(c: Conn, s: Segment)
    ensures Sents(Send(c, s).log.toTun) == Sents(c.log.toTun) + [s]
  {
    hide Sents, Accepted;
    SentsSnoc(c.log.toTun, Sent(s));
  }

  /** What the sending operations append. */
  lemma AckSends(c: Conn)
    ensures var s := Outgoing(c, FlagSet(false, false, false, false), [], []);
            Sents(Ack(c).log.toTun) == Sents(c.log.toTun) + [s] && SeqLen(s) == 0 && !s.tcp.flags.FIN
  {
    hide Sents, Accepted, Add32;
    SendFin(c, Outgoing(c, FlagSet(false, false, false, false), [], []));
  }

  lemma FinAckSends(c: Conn)
    ensures var s := Outgoing(c, FlagSet(false, true, false, false), [], []);
            Sents(FinAck(c).log.toTun) == Sents(c.log.toTun) + [s] && SeqLen(s) == 1 && s.tcp.flags.FIN
  {
    hide Sents, Accepted, Add32;
    SendFin(c, Outgoing(c, FlagSet(false, true, false, false), [], []));
  }

  lemma PushSends(c: Conn, data: seq<byte>)
    ensures var s := Outgoing(c, FlagSet(false, false, false, true), [], data);
            Sents(Push(c, data).log.toTun) == Sents(c.log.toTun) + [s] && SeqLen(s) == |data| && !s.tcp.flags.FIN
  {
    hide Sents, Accepted, Add32;
    SendFin(c, Outgoing(c, FlagSet(false, false, false, true), [], data));
  }

  lemma SynAckSends(c: Conn)
    requires c.log.toTun == []
    ensures !HasFin(Sents(SynAck(c).log.toTun)) && FinIsLast(Sents(SynAck(c).log.toTun))
  {
    SendFin(c, Outgoing(c, FlagSet(true, false, false, false), MaxSegmentSize(), []));
  }

  /** What a handler leaves on the channel. */
  predicate HandledCloses(c: Conn, h: Handled) {
    var was, now := Sents(c.log.toTun), Sents(h.c.log.toTun);
    && was <= now
    && (FinIsLast(was) && (HasFin(was) <==> c.state in {LAST_ACK, FIN_WAIT_1}) ==>
          FinIsLast(now) && (h.continu ==> (HasFin(now) <==> h.c.state in {LAST_ACK, FIN_WAIT_1})))
  }

  lemma EstablishedCloses(c: Conn, p: Segment, accepted: bool)
    requires c.state == ESTABLISHED
    ensures HandledCloses(c, StateEstablished(c, p, accepted))
  {
    hide Sents, SeqLen, HasFin, FinIsLast, Accepted, Add32;
    var d := ConsumeFin(Relay(c, p, p.payload != [] && accepted));
    AckSends(c);
    FinSnoc(Sents(c.log.toTun), Outgoing(c, FlagSet(false, false, false, false), [], []));
    FinAckSends(d);
    FinSnoc(Sents(c.log.toTun), Outgoing(d, FlagSet(false, true, false, false), [], []));
  }

  lemma FinWait1Closes(c: Conn, p: Segment)
    ensures HandledCloses(c, StateFinWait1(c, p))
  {
    hide Sents, SeqLen, HasFin, FinIsLast, Accepted, Add32;
    AckSends(ConsumeFin(c));
    FinSnoc(Sents(c.log.toTun), Outgoing(ConsumeFin(c), FlagSet(false, false, false, false), [], []));
  }

  lemma ClosedCloses(c: Conn, syn: Segment, dial: Dial)
    requires c.state == CLOSED && c.log.toTun == []
    ensures HandledCloses(c, StateClosed(c, syn, dial))
  {
    hide SeqLen, HasFin, FinIsLast, Accepted, Outgoing, SynAck;
    SynAckSends(Dialed(c, syn));
    NoFin();
  }

  lemma NoFin()
    ensures Sents([]) == [] && !HasFin([]) && FinIsLast([])
  {
  }

  lemma SynRcvdCloses(c: Conn, p: Segment, accepted: bool)
    requires c.state == SYN_RCVD
    ensures HandledCloses(c, StateSynRcvd(c, p, accepted))
  {
    hide Sents, SeqLen, HasFin, FinIsLast, Accepted, Rst, Add32;
    SentsSnoc(c.log.toTun, Reset(Rst(p)));
  }

  lemma LastAckCloses(c: Conn, p: Segment)
    requires c.state == LAST_ACK
    ensures HandledCloses(c, StateLastAck(c, p))
  {
    hide Sents, HasFin, FinIsLast;
  }

  lemma HandleCloses(c: Conn, p: Segment, choice: Choice)
    requires Live(c)
    ensures HandledCloses(c, Handle(c, p, choice))
  {
    hide Sents, HasFin, FinIsLast, Opened, StateEstablished, StateFinWait1, StateClosed, StateSynRcvd, StateLastAck;
    var d := c.(sendWindow := p.tcp.window);
    match c.state
    case CLOSED => ClosedCloses(d, p, choice.dial);
    case SYN_RCVD => SynRcvdCloses(d, p, choice.accepted);
    case ESTABLISHED => EstablishedCloses(d, p, choice.accepted);
    case FIN_WAIT_1 => FinWait1Closes(d, p);
    case LAST_ACK => LastAckCloses(d, p);
  }

  predicate Guards(t: Track, e: Event) {
    e.FromSocks? || e.SocksClosed? ==> t.conn.state == ESTABLISHED
  }

  /** A step that respects the guard keeps a FIN last; one that does not, puts something behind it. */
  lemma StepCloses(t: Track, e: Event)
    requires Inv(t) && Enabled(t, e)
    ensures SentsOf(t) <= SentsOf(Step(t, e))
    ensures Closes(t) && Guards(t, e) ==> Closes(Step(t, e))
    ensures Closes(t) && !Guards(t, e) ==> !FinIsLast(SentsOf(Step(t, e)))
  {
    hide Sents, HasFin, FinIsLast, Opened, Unopened, Handle, SeqLen, Outgoing;
    var c := t.conn;
    match e
    case Input(p, choice) => HandleCloses(c, p, choice);
    case AckTimer =>
      AckSends(c);
      FinSnoc(Sents(c.log.toTun), Outgoing(c, FlagSet(false, false, false, false), [], []));
    case FromSocks(data) =>
      PushSends(c, data);
      FinSnoc(Sents(c.log.toTun), Outgoing(c, FlagSet(false, false, false, true), [], data));
    case SocksClosed =>
      FinAckSends(c);
      FinSnoc(Sents(c.log.toTun), Outgoing(c, FlagSet(false, true, false, false), [], []));
    case _ =>
  }

  lemma FinIsLastPrefix(a: seq<Segment>, b: seq<Segment>)
    requires a <= b && FinIsLast(b)
    ensures FinIsLast(a)
  {
    assert forall j :: 0 <= j < |a| ==> a[j] == b[j];
  }

  lemma {:induction false} SentsGrow(t: Track, es: seq<Event>)
    requires Inv(t) && IsRun(t, es)
    ensures SentsOf(t) <= SentsOf(Exec(t, es))
    decreases |es|
  {
    hide Inv, Step, Enabled, Sents, Closes, Guards;
    if es != [] {
      StepKeeps(t, es[0]);
      StepCloses(t, es[0]);
      SentsGrow(Step(t, es[0]), es[1..]);
    }
  }

  lemma {:induction false} RunCloses(t: Track, es: seq<Event>)
    requires Inv(t) && Closes(t) && IsRun(t, es)
    ensures FinIsLast(SentsOf(Exec(t, es))) <==> Guarded(t, es)
    decreases |es|
  {
    hide Inv, Step, Enabled, SentsOf, FinIsLast;
    if es == [] {
      ClosesNow(t);
    } else {
      StepKeeps(t, es[0]);
      StepCloses(t, es[0]);
      if Guards(t, es[0]) {
        RunCloses(Step(t, es[0]), es[1..]);
      } else {
        SentsGrow(Step(t, es[0]), es[1..]);
        if FinIsLast(SentsOf(Exec(t, es))) {
          FinIsLastPrefix(SentsOf(Step(t, es[0])), SentsOf(Exec(t, es)));
        }
      }
    }
  }

  lemma ClosesNow(t: Track)
    requires Closes(t)
    ensures FinIsLast(SentsOf(t))
  {
  }

  /** The comment says that the socks arms are enabled only in ESTABLISHED; the code never disables them.
      A run sends nothing that takes sequence space after its FIN if and only if it keeps that guard. */
  lemma FinIsLastIffGuarded(ends: Endpoints, es: seq<Event>)
    requires IsRun(Fresh(ends), es)
    ensures FinIsLast(SentsOf(Exec(Fresh(ends), es))) <==> Guarded(Fresh(ends), es)
  {
    hide Step, Enabled;
    FreshInv(ends);
    RunCloses(Fresh(ends), es);
  }

  /** A run in which the guard is not kept: the peer closes, and then the socks side does. */
  function BothSidesClose(ends: Endpoints, isn: u32): seq<Event> {
    Handshake(ends, isn)
    + [ Input(FromPeer(ends, Add32(isn, 1), 2, FlagSet(false, true, false, false), []), Choice(Connected, true)),
        SocksClosed ]
  }

  lemma {:induction false} TwoFins(ends: Endpoints, isn: u32)
    ensures IsRun(Fresh(ends), BothSidesClose(ends, isn))
    ensures !FinIsLast(SentsOf(Exec(Fresh(ends), BothSidesClose(ends, isn))))
  {
    hide Accepted, Sents, FinIsLast, Handshake;
    HandshakeOpens(ends, isn);
    var t := Exec(Fresh(ends), Handshake(ends, isn));
    var es := BothSidesClose(ends, isn)[|Handshake(ends, isn)|..];
    assert BothSidesClose(ends, isn) == Handshake(ends, isn) + es;
    var t1 := Step(t, es[0]);
    assert t1.running && t1.enabled && t1.conn.state == LAST_ACK;
    JustStep(t1, SocksClosed);
    assert es[1..] == [SocksClosed];
    RunCons(t, es);
    assert !Guarded(t1, es[1..]) && !Guarded(t, es);
    RunJoins(Fresh(ends), Handshake(ends, isn), es);
    GuardSplits(Fresh(ends), Handshake(ends, isn), es);
    FinIsLastIffGuarded(ends, BothSidesClose(ends, isn));
  }

  lemma {:induction false} GuardSplits(t: Track, es: seq<Event>, more: seq<Event>)
    requires IsRun(t, es) && IsRun(Exec(t, es), more) && IsRun(t, es + more) && !Guarded(Exec(t, es), more)
    ensures !Guarded(t, es + more)
    decreases |es|
  {
    hide Step, Enabled;
    if es == [] {
      assert es + more == more;
    } else {
      assert (es + more)[1..] == es[1..] + more;
      GuardSplits(Step(t, es[0]), es[1..], more);
    }
  }
}
