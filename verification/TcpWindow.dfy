/** The receive window of the TCP endpoint, when its updates do not interleave. */
module TcpWindow {
  import opened Bytes
  import opened TcpTrack
  import opened TcpRuns

  /** The bytes queued for the socks writer or in its hands. */
  function Outstanding(c: Conn): nat
    requires c.log.written <= |c.log.toSocks|
  {
    |Flatten(Payloads(c.log.toSocks[c.log.written..]))|
  }

  predicate WindowBooks(c: Conn) {
    && c.log.written <= |c.log.toSocks|
    && 0 <= c.recvWindow <= MAX_WINDOW
    && c.recvWindow + Outstanding(c) >= MAX_WINDOW
  }

  predicate ExactBooks(c: Conn) {
    WindowBooks(c) && c.recvWindow + Outstanding(c) == MAX_WINDOW
  }

  /** Nothing that the window depends on has changed, or one packet has been relayed. */
  predicate SameWindow(c: Conn, d: Conn) {
    d.recvWindow == c.recvWindow && d.log.toSocks == c.log.toSocks && d.log.written == c.log.written
  }

  predicate Relayed(c: Conn, d: Conn, p: Segment) {
    && d.log.toSocks == c.log.toSocks + [p] && d.log.written == c.log.written
    && d.recvWindow == (if c.recvWindow < |p.payload| then 0 else c.recvWindow - |p.payload|)
  }

  lemma EstablishedRelays(c: Conn, p: Segment, accepted: bool)
    ensures var d := StateEstablished(c, p, accepted).c; SameWindow(c, d) || Relayed(c, d, p)
  {
    hide Accepted, Add32;
  }

  lemma HandleRelays(c: Conn, p: Segment, choice: Choice)
    ensures var d := Handle(c, p, choice).c; SameWindow(c, d) || Relayed(c, d, p)
  {
    hide StateEstablished, Outgoing, Rst, Accepted, Add32;
    EstablishedRelays(c.(sendWindow := p.tcp.window), p, choice.accepted);
  }

  lemma OutstandingSnoc(c: Conn, d: Conn, p: Segment)
    requires c.log.written <= |c.log.toSocks| && Relayed(c, d, p)
    ensures d.log.written <= |d.log.toSocks| && Outstanding(d) == Outstanding(c) + |p.payload|
  {
    assert d.log.toSocks[d.log.written..] == c.log.toSocks[c.log.written..] + [p];
    BytesSnoc(c.log.toSocks[c.log.written..], p);
  }

  lemma WriterBooks(c: Conn)
    requires WindowBooks(c) && c.log.written < |c.log.toSocks|
    ensures WindowBooks(WriterArm(c))
    ensures ExactBooks(c) ==> ExactBooks(WriterArm(c))
  {
    hide Queued;
    var queue := c.log.toSocks[c.log.written..];
    assert queue[1..] == c.log.toSocks[c.log.written + 1..];
    assert Payloads(queue) == [queue[0].payload] + Payloads(queue[1..]);
    assert Flatten(Payloads(queue)) == queue[0].payload + Flatten(Payloads(queue[1..]));
  }

  /** The peer keeps within the window. */
  predicate Polite(t: Track, e: Event) {
    e.Input? ==> |e.p.payload| <= t.conn.recvWindow
  }

  predicate PoliteRun(t: Track, es: seq<Event>)
    requires IsRun(t, es)
    decreases |es|
  {
    es == [] || (Polite(t, es[0]) && PoliteRun(Step(t, es[0]), es[1..]))
  }

  lemma StepBooks(t: Track, e: Event)
    requires WindowBooks(t.conn) && Enabled(t, e)
    ensures WindowBooks(Step(t, e).conn)
    ensures ExactBooks(t.conn) && Polite(t, e) ==> ExactBooks(Step(t, e).conn)
  {
    hide Handle, Outgoing, Accepted, Add32, Payloads;
    match e
    case Input(p, choice) =>
      HandleRelays(t.conn, p, choice);
      if Relayed(t.conn, Step(t, e).conn, p) {
        OutstandingSnoc(t.conn, Step(t, e).conn, p);
      }
    case Written => WriterBooks(t.conn);
    case _ =>
  }

  lemma {:induction false} RunBooks(t: Track, es: seq<Event>)
    requires WindowBooks(t.conn) && IsRun(t, es)
    ensures WindowBooks(Exec(t, es).conn)
    ensures ExactBooks(t.conn) && PoliteRun(t, es) ==> ExactBooks(Exec(t, es).conn)
    decreases |es|
  {
    hide Step, Enabled, WindowBooks, ExactBooks, Polite;
    if es != [] {
      StepBooks(t, es[0]);
      RunBooks(Step(t, es[0]), es[1..]);
    }
  }

  lemma FreshBooks(ends: Endpoints)
    ensures ExactBooks(Fresh(ends).conn)
  {
  }

  /** In every run the window stays in range, so what a segment advertises is the window itself, and with
      the bytes still to be written it covers the full window; exactly so when the peer keeps within it. */
  lemma ReceiveWindow(ends: Endpoints, es: seq<Event>)
    requires IsRun(Fresh(ends), es)
    ensures var c := Exec(Fresh(ends), es).conn;
            && WindowBooks(c)
            && (PoliteRun(Fresh(ends), es) ==> c.recvWindow + Outstanding(c) == MAX_WINDOW)
            && forall f, o, d :: Outgoing(c, f, o, d).tcp.window == c.recvWindow
  {
    hide Step, Enabled, Outstanding;
    FreshBooks(ends);
    RunBooks(Fresh(ends), es);
  }
}
