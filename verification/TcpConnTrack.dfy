/** `tcpConnTrack` of `tun2socks/tcp.go` as a class whose fields the handlers update. Every method is proved
    to do what the value-level operation of `TcpTrack` with its name does. */
module TcpConnTrack {
  import opened Bytes
  import Tcp = TcpSegment
  import R = TcpRuns
  import T = TcpTrack

  lemma NothingRelayed(c: T.Conn, p: T.Segment)
    ensures T.Relay(c, p, false) == c
  {
  }

  lemma OnlyRunning(t: T.Track, e: T.Event)
    requires T.Enabled(t, e) && !e.Destroy? && !e.CloseOther? && !e.Written?
    ensures t.running
  {
  }

  /** What `TcpRuns` proves of the state that a run reaches, in the terms of the class. */
  lemma RunTheorems(ends: T.Endpoints, arms: seq<T.Event>)
    requires T.IsRun(T.Fresh(ends), arms)
    ensures var t := T.Exec(T.Fresh(ends), arms);
            var sents := T.Sents(t.conn.log.toTun);
            && (forall k :: 0 <= k < |sents| ==> sents[k].tcp.seqNo == (1 + T.TotalLen(sents[..k])) % TWO32)
            && Flatten(T.Payloads(sents)) == Flatten(R.TakenOf(arms))
            && (t.running ==> t.conn.state in {T.CLOSED, T.SYN_RCVD, T.ESTABLISHED, T.LAST_ACK, T.FIN_WAIT_1})
            && t.selfClosed <= 1 && (!t.running ==> t.selfClosed == 1 || t.otherClosed)
  {
    hide T.Exec, T.IsRun, T.Fresh, T.Sents, T.Payloads, T.TotalLen, R.TakenOf, R.Addressed;
    R.SegmentsTile(ends, arms);
    R.Reachable(ends, arms);
  }

  class TcpConnTrack {
    const localIP: IP4
    const remoteIP: IP4
    const localPort: u16
    const remotePort: u16
    var state: T.State
    var nxtSeq: u32
    var rcvNxtSeq: u32
    var lastAck: u32
    var recvWindow: int
    var sendWindow: int
    var socksConn: bool
    var destroyed: bool
    var quitBySelf: nat
    var quitByOther: bool
    var toTunCh: seq<T.Item>
    var toSocksCh: seq<T.Segment>
    var written: nat
    ghost var taken: seq<seq<byte>>
    ghost var isn: u32
    ghost var fins: nat
    ghost var acked: nat

    constructor (localIP: IP4, remoteIP: IP4, localPort: u16, remotePort: u16)
      ensures View() == T.Initial(T.Endpoints(localIP, remoteIP, localPort, remotePort))
      ensures !destroyed && quitBySelf == 0 && !quitByOther
    {
      this.localIP, this.remoteIP, this.localPort, this.remotePort := localIP, remoteIP, localPort, remotePort;
      state, nxtSeq, rcvNxtSeq, lastAck := T.CLOSED, 0, 0, 0;
      recvWindow, sendWindow := T.MAX_WINDOW, T.MAX_WINDOW;
      socksConn, destroyed, quitBySelf, quitByOther := false, false, 0, false;
      toTunCh, toSocksCh := [], [];
      written, taken, isn, fins, acked := 0, [], 0, 0, 0;
    }

    ghost function Ends(): T.Endpoints {
      T.Endpoints(localIP, remoteIP, localPort, remotePort)
    }

    ghost function Log(): T.Log
      reads `toTunCh, `toSocksCh, `written, `taken, `isn, `fins, `acked
    {
      T.Log(toTunCh, toSocksCh, written, taken, isn, fins, acked)
    }

    ghost function View(): T.Conn
      reads this
    {
      T.Conn(Ends(), state, nxtSeq, rcvNxtSeq, lastAck, recvWindow, sendWindow, socksConn, Log())
    }

    method ValidAck(pkt: T.Segment) returns (ret: bool)
      ensures ret <==> T.ValidAck(View(), pkt)
    {
      ret := pkt.tcp.ackNo == nxtSeq;
    }

    method ValidSeq(pkt: T.Segment) returns (ret: bool)
      ensures ret <==> T.ValidSeq(View(), pkt)
    {
      ret := pkt.tcp.seqNo == rcvNxtSeq;
    }

    /** `accepted` tells which arm of the `select` is taken. */
    method RelayPayload(pkt: T.Segment, accepted: bool) returns (relayed: bool)
      modifies `toSocksCh, `rcvNxtSeq, `recvWindow
      ensures View() == T.Relay(old(View()), pkt, accepted) && relayed == accepted
    {
      var payloadLen := |pkt.payload|;
      if accepted {
        toSocksCh := toSocksCh + [pkt];
        rcvNxtSeq := Add32(rcvNxtSeq, payloadLen);
        var wnd := recvWindow;
        wnd := wnd - payloadLen;
        if wnd < 0 {
          wnd := 0;
        }
        recvWindow := wnd;
        return true;
      } else {
        return false;
      }
    }

    method Send(pkt: T.Segment)
      modifies `toTunCh, `lastAck, `acked
      ensures View() == T.Send(old(View()), pkt)
    {
      if pkt.tcp.flags.ACK {
        lastAck := pkt.tcp.ackNo;
        acked := T.Accepted(Log());
      }
      toTunCh := toTunCh + [T.Sent(pkt)];
    }

    method SynAck()
      modifies `toTunCh, `lastAck, `acked, `nxtSeq
      ensures View() == T.SynAck(old(View()))
    {
      var tcphdr := Tcp.Header(remotePort, localPort, nxtSeq, rcvNxtSeq,
                               T.FlagSet(true, false, false, false), recvWindow % 0x1_0000, 0,
                               [Tcp.TcpOption(2, Pair(0x5, 0xb4))]);
      Send(T.Segment(remoteIP, localIP, tcphdr, []));
      nxtSeq := Add32(nxtSeq, 1);
    }

    method FinAck()
      modifies `toTunCh, `lastAck, `acked, `nxtSeq
      ensures View() == T.FinAck(old(View()))
    {
      var tcphdr := Tcp.Header(remotePort, localPort, nxtSeq, rcvNxtSeq,
                               T.FlagSet(false, true, false, false), recvWindow % 0x1_0000, 0, []);
      Send(T.Segment(remoteIP, localIP, tcphdr, []));
      nxtSeq := Add32(nxtSeq, 1);
    }

    method Ack()
      modifies `toTunCh, `lastAck, `acked
      ensures View() == T.Ack(old(View()))
    {
      var tcphdr := Tcp.Header(remotePort, localPort, nxtSeq, rcvNxtSeq,
                               T.FlagSet(false, false, false, false), recvWindow % 0x1_0000, 0, []);
      Send(T.Segment(remoteIP, localIP, tcphdr, []));
    }

    method Payload(data: seq<byte>)
      modifies `toTunCh, `lastAck, `acked, `nxtSeq, `taken
      ensures View() == T.Push(old(View()), data)
    {
      var tcphdr := Tcp.Header(remotePort, localPort, nxtSeq, rcvNxtSeq,
                               T.FlagSet(false, false, false, true), recvWindow % 0x1_0000, 0, []);
      Send(T.Segment(remoteIP, localIP, tcphdr, data));
      nxtSeq := Add32(nxtSeq, |data|);
      taken := taken + [data];
    }

    method StateClosed(syn: T.Segment, dial: T.Dial) returns (continu: bool, release: bool)
      modifies `toTunCh, `rcvNxtSeq, `nxtSeq, `lastAck, `state, `socksConn, `isn, `acked
      ensures T.Handled(View(), continu, release) == T.StateClosed(old(View()), syn, dial)
    {
      hide T.SynAck;
      ghost var was := View();
      if dial == T.DialError {
        return false, false;
      }
      socksConn := true;
      isn := syn.tcp.seqNo;
      rcvNxtSeq := Add32(syn.tcp.seqNo, 1);
      nxtSeq := 1;
      ghost var ready := View();
      assert ready == T.Dialed(was, syn);
      SynAck();
      ghost var answered := View();
      state := T.SYN_RCVD;
      assert View() == answered.(state := T.SYN_RCVD);
      return true, true;
    }

    method StateSynRcvd(pkt: T.Segment, accepted: bool) returns (continu: bool, release: bool)
      modifies this
      ensures T.Handled(View(), continu, release) == T.StateSynRcvd(old(View()), pkt, accepted)
      ensures quitBySelf == old(quitBySelf) && quitByOther == old(quitByOther)
      ensures continu ==> destroyed == old(destroyed)
    {
      hide T.Relay, T.Rst;
      var validSeq := ValidSeq(pkt);
      var validAck := ValidAck(pkt);
      if !(validSeq && validAck) {
        if !pkt.tcp.flags.RST {
          toTunCh := toTunCh + [T.Reset(T.Rst(pkt))];
        }
        return true, true;
      }
      if pkt.tcp.flags.RST {
        destroyed := true;
        return false, true;
      }
      if !pkt.tcp.flags.ACK {
        return true, true;
      }
      continu, release := true, true;
      state := T.ESTABLISHED;
      if |pkt.payload| != 0 {
        var relayed := RelayPayload(pkt, accepted);
        if relayed {
          release := false;
        }
      }
    }

    method StateEstablished(pkt: T.Segment, accepted: bool) returns (continu: bool, release: bool)
      modifies `toTunCh, `toSocksCh, `rcvNxtSeq, `recvWindow, `lastAck, `nxtSeq, `state, `fins, `acked
      ensures T.Handled(View(), continu, release) == T.StateEstablished(old(View()), pkt, accepted)
    {
      hide T.Ack, T.FinAck, T.Relay;
      NothingRelayed(View(), pkt);
      var validSeq := ValidSeq(pkt);
      if !validSeq {
        Ack();
        return true, true;
      }
      if pkt.tcp.flags.RST {
        return false, true;
      }
      if !pkt.tcp.flags.ACK {
        return true, true;
      }
      continu, release := true, true;
      if |pkt.payload| != 0 {
        var relayed := RelayPayload(pkt, accepted);
        if relayed {
          release := false;
        }
      }
      if pkt.tcp.flags.FIN {
        rcvNxtSeq := Add32(rcvNxtSeq, 1);
        fins := fins + 1;
        FinAck();
        state := T.LAST_ACK;
      }
    }

    method StateFinWait1(pkt: T.Segment) returns (continu: bool, release: bool)
      modifies `toTunCh, `rcvNxtSeq, `lastAck, `state, `fins, `acked
      ensures T.Handled(View(), continu, release) == T.StateFinWait1(old(View()), pkt)
    {
      hide T.Ack;
      var validSeq := ValidSeq(pkt);
      if !validSeq {
        return false, true;
      }
      if pkt.tcp.flags.RST {
        return false, true;
      }
      if !pkt.tcp.flags.ACK {
        return false, true;
      }
      if pkt.tcp.flags.FIN {
        rcvNxtSeq := Add32(rcvNxtSeq, 1);
        fins := fins + 1;
        Ack();
        var validAck := ValidAck(pkt);
        if pkt.tcp.flags.ACK && validAck {
          state := T.TIME_WAIT;
          return false, true;
        } else {
          state := T.CLOSING;
          return false, true;
        }
      } else {
        state := T.FIN_WAIT_2;
        return false, true;
      }
    }

    method StateFinWait2(pkt: T.Segment) returns (continu: bool, release: bool)
      modifies `toTunCh, `rcvNxtSeq, `lastAck, `state, `fins, `acked
      ensures T.Handled(View(), continu, release) == T.StateFinWait2(old(View()), pkt)
    {
      hide T.Ack;
      var validSeq := ValidSeq(pkt);
      var validAck := ValidAck(pkt);
      if !(validSeq && validAck) {
        return false, true;
      }
      if pkt.tcp.flags.RST {
        return false, true;
      }
      if !pkt.tcp.flags.ACK || !pkt.tcp.flags.FIN {
        return false, true;
      }
      rcvNxtSeq := Add32(rcvNxtSeq, 1);
      fins := fins + 1;
      Ack();
      state := T.TIME_WAIT;
      return false, true;
    }

    method StateClosing(pkt: T.Segment) returns (continu: bool, release: bool)
      modifies `state
      ensures T.Handled(View(), continu, release) == T.StateClosing(old(View()), pkt)
    {
      var validSeq := ValidSeq(pkt);
      var validAck := ValidAck(pkt);
      if !(validSeq && validAck) {
        return true, true;
      }
      if pkt.tcp.flags.RST {
        return false, true;
      }
      if !pkt.tcp.flags.ACK {
        return true, true;
      }
      state := T.TIME_WAIT;
      return false, true;
    }

    method StateLastAck(pkt: T.Segment) returns (continu: bool, release: bool)
      modifies `state
      ensures T.Handled(View(), continu, release) == T.StateLastAck(old(View()), pkt)
    {
      var validSeq := ValidSeq(pkt);
      var validAck := ValidAck(pkt);
      if !(validSeq && validAck) {
        return true, true;
      }
      if !pkt.tcp.flags.ACK {
        return true, true;
      }
      state := T.CLOSED;
      return false, true;
    }

    method UpdateSendWindow(pkt: T.Segment)
      modifies `sendWindow
      ensures View() == old(View()).(sendWindow := pkt.tcp.window)
    {
      sendWindow := pkt.tcp.window;
    }

    /** The input arm of `run` up to what follows the handler. */
    method Handle(pkt: T.Segment, choice: T.Choice) returns (continu: bool, release: bool)
      modifies this
      ensures T.Handled(View(), continu, release) == T.Handle(old(View()), pkt, choice)
      ensures quitBySelf == old(quitBySelf) && quitByOther == old(quitByOther)
      ensures continu ==> destroyed == old(destroyed)
    {
      hide T.StateClosed, T.StateSynRcvd, T.StateEstablished, T.StateFinWait1, T.StateFinWait2;
      hide T.StateClosing, T.StateLastAck;
      continu, release := false, false;
      UpdateSendWindow(pkt);
      match state {
        case CLOSED => continu, release := StateClosed(pkt, choice.dial);
        case SYN_RCVD => continu, release := StateSynRcvd(pkt, choice.accepted);
        case ESTABLISHED => continu, release := StateEstablished(pkt, choice.accepted);
        case FIN_WAIT_1 => continu, release := StateFinWait1(pkt);
        case FIN_WAIT_2 => continu, release := StateFinWait2(pkt);
        case CLOSING => continu, release := StateClosing(pkt);
        case LAST_ACK => continu, release := StateLastAck(pkt);
        case TIME_WAIT =>
      }
    }

    /** The end of the socks writer's loop body: the window grows again. */
    method Processed()
      requires written < |toSocksCh|
      modifies `recvWindow, `written
      ensures View() == T.WriterArm(old(View()))
    {
      var wnd := recvWindow;
      wnd := wnd + |toSocksCh[written].payload|;
      if wnd > T.MAX_WINDOW {
        wnd := T.MAX_WINDOW;
      }
      recvWindow := wnd;
      written := written + 1;
    }

    /** The connection together with the locals of `run`. */
    ghost function Track(enabled: bool, running: bool): T.Track
      reads this
    {
      T.Track(View(), enabled, running, destroyed, quitBySelf, quitByOther)
    }

    method InputArm(pkt: T.Segment, choice: T.Choice) returns (running: bool)
      modifies this
      ensures var h := T.Handle(old(View()), pkt, choice);
              View() == h.c && running == h.continu
      ensures running ==> destroyed == old(destroyed) && quitBySelf == old(quitBySelf)
      ensures !running ==> destroyed && quitBySelf == old(quitBySelf) + 1
      ensures quitByOther == old(quitByOther)
    {
      hide T.Handle;
      var continu, release := Handle(pkt, choice);
      if !continu {
        destroyed := true;
        quitBySelf := quitBySelf + 1;
        return false;
      }
      return true;
    }

    /** One pass of the loop of `run`. */
    method Pass(arm: T.Event, wasEnabled: bool) returns (enabled: bool, running: bool)
      requires T.Enabled(Track(wasEnabled, true), arm) && !ElsewhereEvent(arm)
      modifies this
      ensures Track(enabled, running) == T.Step(old(Track(wasEnabled, true)), arm)
    {
      hide T.Handle, T.Ack, T.FinAck, T.Push, T.WriterArm;
      enabled, running := wasEnabled, true;
      if state == T.ESTABLISHED {
        enabled := true;
      }
      match arm {
        case Input(pkt, choice) => running := InputArm(pkt, choice);
        case AckTimer =>
          if lastAck < rcvNxtSeq {
            Ack();
          }
        case FromSocks(data) => Payload(data);
        case SocksClosed =>
          FinAck();
          state := T.FIN_WAIT_1;
        case IdleTimeout =>
          quitBySelf := quitBySelf + 1;
          running := false;
        case QuitByOther => running := false;
        case HeadQuits =>
          destroyed := true;
          quitBySelf := quitBySelf + 1;
          running := false;
      }
    }

    predicate ElsewhereEvent(e: T.Event) {
      e.Destroy? || e.CloseOther? || e.Written?
    }

    /** A step of another goroutine. */
    method Elsewhere(e: T.Event, ghost enabled: bool, ghost running: bool)
      requires T.Enabled(Track(enabled, running), e) && ElsewhereEvent(e)
      modifies this
      ensures Track(enabled, running) == T.Step(old(Track(enabled, running)), e)
    {
      hide T.Handle, T.Ack, T.FinAck, T.Push, T.WriterArm;
      match e {
        case Destroy => destroyed := true;
        case CloseOther => quitByOther := true;
        case Written => Processed();
      }
    }

    /** `run` over the arms that its `select` takes, among the steps of other goroutines. It reaches the state in
        which `TcpRuns` and its companions prove their theorems: what is on the channel to the tun writer tiles
        sequence space and carries the bytes taken from the socks reader, a running loop is in one of five
        states, and an ended one has left a closed channel behind. */
    method Run(arms: seq<T.Event>) returns (enabled: bool, running: bool)
      requires View() == T.Initial(Ends()) && !destroyed && quitBySelf == 0 && !quitByOther
      requires T.IsRun(T.Fresh(Ends()), arms)
      modifies this
      ensures Track(enabled, running) == T.Exec(T.Fresh(Ends()), arms)
      ensures var sents := T.Sents(toTunCh);
              && (forall k :: 0 <= k < |sents| ==> sents[k].tcp.seqNo == (1 + T.TotalLen(sents[..k])) % TWO32)
              && Flatten(T.Payloads(sents)) == Flatten(R.TakenOf(arms))
      ensures running ==> state in {T.CLOSED, T.SYN_RCVD, T.ESTABLISHED, T.LAST_ACK, T.FIN_WAIT_1}
      ensures quitBySelf <= 1 && (!running ==> quitBySelf == 1 || quitByOther)
    {
      hide T.Step, T.Enabled, T.Sents, T.Payloads, T.TotalLen, R.TakenOf;
      ghost var ends := Ends();
      enabled, running := false, true;
      var i := 0;
      while i < |arms|
        invariant 0 <= i <= |arms|
        invariant T.IsRun(Track(enabled, running), arms[i..])
        invariant T.Exec(Track(enabled, running), arms[i..]) == T.Exec(T.Fresh(Ends()), arms)
      {
        assert arms[i..][1..] == arms[i + 1..] && arms[i..][0] == arms[i];
        if ElsewhereEvent(arms[i]) {
          Elsewhere(arms[i], enabled, running);
        } else {
          OnlyRunning(Track(enabled, running), arms[i]);
          enabled, running := Pass(arms[i], enabled);
        }
        i := i + 1;
      }
      RunTheorems(ends, arms);
    }
  }
}
