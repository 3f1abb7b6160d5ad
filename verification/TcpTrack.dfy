/** The TCP endpoint of `tun2socks/tcp.go` as a state machine over values: the handlers, one step for
    every arm of `run`, and whole runs. `TcpConnTrack` is the class whose methods do these steps. */
module TcpTrack {
  import opened Bytes
  import Tcp = TcpSegment

  const MAX_WINDOW: nat := 65535

  datatype State = CLOSED | SYN_RCVD | ESTABLISHED | FIN_WAIT_1 | FIN_WAIT_2 | CLOSING | LAST_ACK | TIME_WAIT

  datatype Segment = Segment(src: IP4, dst: IP4, tcp: Tcp.Header, payload: seq<byte>)

  /** What is put on the channel to the tun writer: a packet by `send`, or a reset packet. */
  datatype Item = Sent(seg: Segment) | Reset(seg: Segment)

  datatype Endpoints = Endpoints(localIP: IP4, remoteIP: IP4, localPort: u16, remotePort: u16)

  /** The two channels of the connection with everything ever put on them, and counters kept only to
      state properties: how many queued packets the socks writer has finished, the chunks taken from
      the socks reader, the peer's initial sequence number, the FINs consumed, and the sequence space
      accepted when the last acknowledgement left. */
  datatype Log = Log(toTun: seq<Item>, toSocks: seq<Segment>, written: nat, taken: seq<seq<byte>>,
                     isn: u32, fins: nat, acked: nat)

  datatype Conn = Conn(ends: Endpoints, state: State, nxtSeq: u32, rcvNxtSeq: u32, lastAck: u32,
                       recvWindow: int, sendWindow: int, hasConn: bool, log: Log)

  function Initial(ends: Endpoints): Conn {
    Conn(ends, CLOSED, 0, 0, 0, MAX_WINDOW, MAX_WINDOW, false, Log([], [], 0, [], 0, 0, 0))
  }

  // ---- history functions

  function Payloads(segs: seq<Segment>): (ps: seq<seq<byte>>)
    ensures |ps| == |segs|
  {
    if segs == [] then [] else [segs[0].payload] + Payloads(segs[1..])
  }

  /** The bytes handed to the socks writer, in order. */
  function Queued(l: Log): seq<byte> {
    Flatten(Payloads(l.toSocks))
  }

  /** The sequence space accepted from the peer after its SYN. */
  function Accepted(l: Log): nat {
    |Queued(l)| + l.fins
  }

  /** The segments that left through `send`. */
  function Sents(items: seq<Item>): seq<Segment> {
    if items == [] then []
    else Sents(items[..|items| - 1]) + (if items[|items| - 1].Sent? then [items[|items| - 1].seg] else [])
  }

  function SeqLen(s: Segment): nat {
    |s.payload| + Tcp.B(s.tcp.flags.SYN) + Tcp.B(s.tcp.flags.FIN)
  }

  function TotalLen(segs: seq<Segment>): nat {
    if segs == [] then 0 else TotalLen(segs[..|segs| - 1]) + SeqLen(segs[|segs| - 1])
  }

  // ---- building segments

  function FlagSet(SYN: bool, FIN: bool, RST: bool, PSH: bool): Tcp.Flags {
    Tcp.Flags(FIN, SYN, RST, PSH, true, false, false, false, false)
  }

  function MaxSegmentSize(): seq<Tcp.TcpOption> {
    [Tcp.TcpOption(2, Pair(0x5, 0xb4))]
  }

  function Outgoing(c: Conn, flags: Tcp.Flags, options: seq<Tcp.TcpOption>, payload: seq<byte>): Segment {
    Segment(c.ends.remoteIP, c.ends.localIP,
            Tcp.Header(c.ends.remotePort, c.ends.localPort, c.nxtSeq, c.rcvNxtSeq, flags,
                       c.recvWindow % 0x1_0000, 0, options),
            payload)
  }

  /** `rst`: the answer to a segment that does not fit the connection. */
  function Rst(p: Segment): Segment {
    var ack := Add32(p.tcp.seqNo, |p.payload|);
    Segment(p.dst, p.src,
            Tcp.Header(p.tcp.dstPort, p.tcp.srcPort, p.tcp.ackNo, if ack == p.tcp.seqNo then Add32(ack, 1) else ack,
                       FlagSet(false, false, true, false), MAX_WINDOW, 0, []),
            [])
  }

  /** A segment of the local end. */
  function FromPeer(ends: Endpoints, seqNo: u32, ackNo: u32, flags: Tcp.Flags, payload: seq<byte>): Segment {
    Segment(ends.localIP, ends.remoteIP,
            Tcp.Header(ends.localPort, ends.remotePort, seqNo, ackNo, flags, MAX_WINDOW, 0, []),
            payload)
  }

  function Put(c: Conn, i: Item): Conn {
    c.(log := c.log.(toTun := c.log.toTun + [i]))
  }

  /** `send` */
  function Send(c: Conn, s: Segment): Conn {
    var c := if s.tcp.flags.ACK then c.(lastAck := s.tcp.ackNo, log := c.log.(acked := Accepted(c.log))) else c;
    Put(c, Sent(s))
  }

  function SynAck(c: Conn): Conn {
    Send(c, Outgoing(c, FlagSet(true, false, false, false), MaxSegmentSize(), [])).(nxtSeq := Add32(c.nxtSeq, 1))
  }

  function FinAck(c: Conn): Conn {
    Send(c, Outgoing(c, FlagSet(false, true, false, false), [], [])).(nxtSeq := Add32(c.nxtSeq, 1))
  }

  function Ack(c: Conn): Conn {
    Send(c, Outgoing(c, FlagSet(false, false, false, false), [], []))
  }

  /** `payload` */
  function Push(c: Conn, data: seq<byte>): Conn {
    var c := Send(c, Outgoing(c, FlagSet(false, false, false, true), [], data)).(nxtSeq := Add32(c.nxtSeq, |data|));
    c.(log := c.log.(taken := c.log.taken + [data]))
  }

  // ---- handlers

  /** The outside of a handler: how dialing ends, and which arm `relayPayload` takes. Dialing without an error
      yields a connection, and the connect state is not touched before the handshake is complete: the branch
      at tcp.go:447-451 cannot be taken. */
  datatype Dial = DialError | Connected
  datatype Choice = Choice(dial: Dial, accepted: bool)

  datatype Handled = Handled(c: Conn, continu: bool, release: bool)

  predicate ValidSeq(c: Conn, p: Segment) {
    p.tcp.seqNo == c.rcvNxtSeq
  }

  predicate ValidAck(c: Conn, p: Segment) {
    p.tcp.ackNo == c.nxtSeq
  }

  /** `relayPayload`: the packet goes to the socks writer, unless the socks side has closed. */
  function Relay(c: Conn, p: Segment, accepted: bool): Conn {
    if !accepted then c else
    var wnd := c.recvWindow - |p.payload|;
    c.(rcvNxtSeq := Add32(c.rcvNxtSeq, |p.payload|), recvWindow := if wnd < 0 then 0 else wnd,
       log := c.log.(toSocks := c.log.toSocks + [p]))
  }

  function ConsumeFin(c: Conn): Conn {
    c.(rcvNxtSeq := Add32(c.rcvNxtSeq, 1), log := c.log.(fins := c.log.fins + 1))
  }

  /** The connection variables, once dialing has succeeded. */
  function Dialed(c: Conn, syn: Segment): Conn {
    c.(hasConn := true, rcvNxtSeq := Add32(syn.tcp.seqNo, 1), nxtSeq := 1, log := c.log.(isn := syn.tcp.seqNo))
  }

  function StateClosed(c: Conn, syn: Segment, dial: Dial): Handled {
    match dial
    case DialError => Handled(c, false, false)
    case Connected =>
      Handled(SynAck(Dialed(c, syn)).(state := SYN_RCVD), true, true)
  }

  function StateSynRcvd(c: Conn, p: Segment, accepted: bool): Handled {
    if !(ValidSeq(c, p) && ValidAck(c, p)) then
      Handled(if p.tcp.flags.RST then c else Put(c, Reset(Rst(p))), true, true)
    else if p.tcp.flags.RST then Handled(c, false, true)
    else if !p.tcp.flags.ACK then Handled(c, true, true)
    else
      var c := c.(state := ESTABLISHED);
      if p.payload == [] then Handled(c, true, true) else Handled(Relay(c, p, accepted), true, !accepted)
  }

  function StateEstablished(c: Conn, p: Segment, accepted: bool): Handled {
    if !ValidSeq(c, p) then Handled(Ack(c), true, true)
    else if p.tcp.flags.RST then Handled(c, false, true)
    else if !p.tcp.flags.ACK then Handled(c, true, true)
    else
      var relayed := p.payload != [] && accepted;
      var c := Relay(c, p, relayed);
      Handled(if p.tcp.flags.FIN then FinAck(ConsumeFin(c)).(state := LAST_ACK) else c, true, !relayed)
  }

  function StateFinWait1(c: Conn, p: Segment): Handled {
    if !ValidSeq(c, p) || p.tcp.flags.RST || !p.tcp.flags.ACK then Handled(c, false, true)
    else if p.tcp.flags.FIN then
      var c := Ack(ConsumeFin(c));
      Handled(c.(state := if ValidAck(c, p) then TIME_WAIT else CLOSING), false, true)
    else Handled(c.(state := FIN_WAIT_2), false, true)
  }

  function StateFinWait2(c: Conn, p: Segment): Handled {
    if !(ValidSeq(c, p) && ValidAck(c, p)) || p.tcp.flags.RST || !p.tcp.flags.ACK || !p.tcp.flags.FIN then
      Handled(c, false, true)
    else Handled(Ack(ConsumeFin(c)).(state := TIME_WAIT), false, true)
  }

  function StateClosing(c: Conn, p: Segment): Handled {
    if !(ValidSeq(c, p) && ValidAck(c, p)) then Handled(c, true, true)
    else if p.tcp.flags.RST then Handled(c, false, true)
    else if !p.tcp.flags.ACK then Handled(c, true, true)
    else Handled(c.(state := TIME_WAIT), false, true)
  }

  function StateLastAck(c: Conn, p: Segment): Handled {
    if !(ValidSeq(c, p) && ValidAck(c, p)) || !p.tcp.flags.ACK then Handled(c, true, true)
    else Handled(c.(state := CLOSED), false, true)
  }

  /** The input arm: the send window is updated first, then the state's handler runs. */
  function Handle(c: Conn, p: Segment, choice: Choice): Handled {
    var c := c.(sendWindow := p.tcp.window);
    match c.state
    case CLOSED => StateClosed(c, p, choice.dial)
    case SYN_RCVD => StateSynRcvd(c, p, choice.accepted)
    case ESTABLISHED => StateEstablished(c, p, choice.accepted)
    case FIN_WAIT_1 => StateFinWait1(c, p)
    case FIN_WAIT_2 => StateFinWait2(c, p)
    case CLOSING => StateClosing(c, p)
    case LAST_ACK => StateLastAck(c, p)
    case TIME_WAIT => Handled(c, false, false)
  }

  // ---- the loop

  /** A connection with its loop: whether the socks channels have been enabled, whether the loop still
      runs, how often `quitBySelf` has been closed, and what other goroutines have done to it. */
  datatype Track = Track(conn: Conn, enabled: bool, running: bool, destroyed: bool, selfClosed: nat, otherClosed: bool)

  function Fresh(ends: Endpoints): Track {
    Track(Initial(ends), false, true, false, 0, false)
  }

  /** The arms of `run`, the exit at its head, and the steps of other goroutines. */
  datatype Event =
    | Input(p: Segment, choice: Choice)
    | AckTimer
    | FromSocks(data: seq<byte>)
    | SocksClosed
    | IdleTimeout
    | QuitByOther
    | HeadQuits
    | Destroy
    | CloseOther
    | Written

  /** The head of the loop: the local channel variables are set in ESTABLISHED and never cleared. */
  function Head(t: Track): Track {
    if t.conn.state == ESTABLISHED then t.(enabled := true) else t
  }

  function Quit(t: Track): Track {
    t.(running := false, selfClosed := t.selfClosed + 1)
  }

  predicate Enabled(t: Track, e: Event) {
    match e
    case Input(p, _) => t.running && (t.conn.state == CLOSED ==> p.tcp.flags.SYN && !p.tcp.flags.RST)
    case AckTimer => t.running && Head(t).enabled
    case FromSocks(data) => t.running && Head(t).enabled && 0 < |data| <= MTU - 40
    case SocksClosed => t.running && Head(t).enabled
    case IdleTimeout => t.running
    case QuitByOther => t.running && t.otherClosed
    case HeadQuits => t.running && (t.destroyed || t.conn.state == ESTABLISHED)
    case Destroy => true
    case CloseOther => true
    case Written => t.conn.log.written < |t.conn.log.toSocks|
  }

  function TimerArm(c: Conn): Conn {
    if c.lastAck < c.rcvNxtSeq then Ack(c) else c
  }

  /** The socks writer has written one packet and gives its bytes back to the window. */
  function WriterArm(c: Conn): Conn
    requires c.log.written < |c.log.toSocks|
  {
    var wnd := c.recvWindow + |c.log.toSocks[c.log.written].payload|;
    c.(recvWindow := if wnd > MAX_WINDOW then MAX_WINDOW else wnd, log := c.log.(written := c.log.written + 1))
  }

  function Step(t: Track, e: Event): Track
    requires Enabled(t, e)
  {
    match e
    case Input(p, choice) =>
      var h := Handle(t.conn, p, choice);
      var t' := Head(t).(conn := h.c);
      if h.continu then t' else Quit(t'.(destroyed := true))
    case AckTimer => Head(t).(conn := TimerArm(t.conn))
    case FromSocks(data) => Head(t).(conn := Push(t.conn, data))
    case SocksClosed => Head(t).(conn := FinAck(t.conn).(state := FIN_WAIT_1))
    case IdleTimeout => Quit(Head(t))
    case QuitByOther => Head(t).(running := false)
    case HeadQuits => Quit(Head(t).(destroyed := true))
    case Destroy => t.(destroyed := true)
    case CloseOther => t.(otherClosed := true)
    case Written => t.(conn := WriterArm(t.conn))
  }

  /** Every arm that is taken is enabled when it is. */
  predicate IsRun(t: Track, es: seq<Event>)
    decreases |es|
  {
    es == [] || (Enabled(t, es[0]) && IsRun(Step(t, es[0]), es[1..]))
  }

  function Exec(t: Track, es: seq<Event>): Track
    requires IsRun(t, es)
    decreases |es|
  {
    if es == [] then t else Exec(Step(t, es[0]), es[1..])
  }
}
