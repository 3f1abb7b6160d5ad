/** What the connection emits is what the other end parses. */
module TcpWire {
  import opened Bytes
  import InternetChecksum
  import Ip = IPv4
  import Tcp = TcpSegment
  import PackTcp
  import opened TcpTrack
  import opened TcpRuns

  /** The IP header that the sending methods fill in around a segment. */
  function IpHeader(s: Segment, id: u16): Ip.Header {
    Ip.Header(4, 0, 0, 0, id, 0, 0, 64, Ip.PROTO_TCP, 0, s.src, s.dst)
  }

  function WireOf(s: Segment, id: u16): seq<byte> {
    PackTcp.Wire(IpHeader(s, id), s.tcp, s.payload)
  }

  /** A receiver of the packet reads the segment: addresses, every header field and the payload, and both
      checksums hold. */
  predicate Survives(s: Segment, id: u16) {
    var wire := WireOf(s, id);
    && |wire| <= MTU
    && Ip.ParseOk(wire)
    && wire[0] == 0x45 && wire[8] == 64 && wire[9] == 6 && Number(wire[2..4]) == |wire| && Number(wire[4..6]) == id
    && InternetChecksum.FieldSum(wire[..20]) % 0xffff == 0
    && Ip.DecodeFixed(wire).src == s.src && Ip.DecodeFixed(wire).dst == s.dst
    && (var p := Tcp.Decode(Ip.PayloadOf(wire)); p.Parsed? && p.header == s.tcp && p.payload == s.payload)
    && var segment := wire[20..];
       (InternetChecksum.FieldSum(s.src) + InternetChecksum.FieldSum(s.dst) + 6 + |segment|
        + InternetChecksum.FieldSum(segment)) % 0xffff == 0
  }

  /** Room for the segment in a pooled buffer, and options that need no padding. */
  predicate Packable(s: Segment) {
    && Tcp.Canonical(s.tcp.options) && Tcp.Unpadded(s.tcp.options)
    && 20 + Tcp.HeaderLen(s.tcp.options) + |s.payload| <= MTU
  }

  lemma PackableSurvives(s: Segment, id: u16)
    requires Packable(s)
    ensures Survives(s, id)
  {
    hide Tcp.HeaderLen, Tcp.OptionsLen, Tcp.Canonical, Tcp.Decode, Ip.ParseOk, Ip.PseudoBytes, Ip.HeaderBytes;
    hide InternetChecksum.Of, InternetChecksum.FieldSum, PackTcp.SegmentBytes, PackTcp.Wire;
    PackTcp.PacketReads(IpHeader(s, id), s.tcp, s.payload);
    PackTcp.SegmentVerifies(s.src, s.dst, s.tcp, s.payload);
    WireLength(s, id);
    WireHead(s, id);
  }

  lemma WireHead(s: Segment, id: u16)
    requires |WireOf(s, id)| <= 0xffff
    ensures var wire := WireOf(s, id);
            && |wire| >= 20 && wire[20..] == PackTcp.SegmentBytes(s.src, s.dst, s.tcp, s.payload)
            && wire[0] == 0x45 && wire[8] == 64 && wire[9] == 6 && Number(wire[2..4]) == |wire|
            && Number(wire[4..6]) == id && InternetChecksum.FieldSum(wire[..20]) % 0xffff == 0
  {
    hide PackTcp.SegmentBytes, Ip.HeaderBytes, InternetChecksum.FieldSum;
    var segment := PackTcp.SegmentBytes(s.src, s.dst, s.tcp, s.payload);
    var h := Ip.Announcing(IpHeader(s, id), |segment|);
    Small16(20 + |segment|);
    Ip.HeaderLayout(h);
    var header, wire := Ip.HeaderBytes(h), WireOf(s, id);
    assert wire[20..] == segment && wire[..20] == header;
    assert wire[2..4] == header[2..4] && wire[4..6] == header[4..6];
  }

  lemma WireLength(s: Segment, id: u16)
    ensures |WireOf(s, id)| == 20 + Tcp.HeaderLen(s.tcp.options) + |s.payload|
  {
    hide Tcp.HeaderLen, Tcp.WithChecksum, PackTcp.SegmentChecksum;
  }

  lemma AddressedPackable(ends: Endpoints, s: Segment)
    requires Addressed(ends, s)
    ensures Packable(s)
  {
    assert Tcp.OptionsLen(MaxSegmentSize()) == 4;
    assert Tcp.OptionsLen([]) == 0;
  }

  /** Every packet of every run reaches the other end as it was sent. */
  lemma EmittedSurvives(ends: Endpoints, es: seq<Event>, k: nat, id: u16)
    requires IsRun(Fresh(ends), es) && k < |Sents(Exec(Fresh(ends), es).conn.log.toTun)|
    ensures Survives(Sents(Exec(Fresh(ends), es).conn.log.toTun)[k], id)
  {
    hide Addressed, Survives, Packable, Step, Enabled;
    SegmentsTile(ends, es);
    var s := Sents(Exec(Fresh(ends), es).conn.log.toTun)[k];
    AddressedPackable(ends, s);
    PackableSurvives(s, id);
  }

  /** So does the answer to any segment that does not fit its connection: it goes back to where that came
      from, starts at the sequence number that it acknowledged, and acknowledges what follows it. */
  lemma ResetSurvives(p: Segment, id: u16)
    ensures Survives(Rst(p), id)
    ensures Rst(p).dst == p.src && Rst(p).src == p.dst
    ensures Rst(p).tcp.dstPort == p.tcp.srcPort && Rst(p).tcp.srcPort == p.tcp.dstPort
    ensures Rst(p).tcp.flags == Tcp.Flags(false, false, true, false, true, false, false, false, false)
    ensures Rst(p).payload == [] && Rst(p).tcp.window == 65535 && Rst(p).tcp.seqNo == p.tcp.ackNo
    ensures Rst(p).tcp.urgent == 0 && Rst(p).tcp.options == []
    ensures |p.payload| < TWO32 ==>
              Rst(p).tcp.ackNo == (p.tcp.seqNo + if p.payload == [] then 1 else |p.payload|) % TWO32
  {
    hide Survives, Tcp.HeaderLen;
    ResetPackable(p);
    PackableSurvives(Rst(p), id);
  }

  lemma ResetPackable(p: Segment)
    ensures Packable(Rst(p))
  {
    assert Tcp.OptionsLen([]) == 0;
  }
}
