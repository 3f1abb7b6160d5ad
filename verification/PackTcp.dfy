/** `packTCP` of `tun2socks/tcp.go`: a segment is written right to left into a pooled buffer. */
module PackTcp {
  import opened Bytes
  import opened Buffers
  import InternetChecksum
  import Ip = IPv4
  import Tcp = TcpSegment

  /** The checksum over pseudo-header, header with a zero checksum field, and payload. */
  function ChecksumOver(pseudo: seq<byte>, h: Tcp.Header, payload: seq<byte>): u16 {
    InternetChecksum.Of([pseudo + Tcp.RawHeader(h) + payload])
  }

  function SegmentChecksum(src: IP4, dst: IP4, h: Tcp.Header, payload: seq<byte>): u16 {
    ChecksumOver(Ip.PseudoBytes(src, dst, Ip.PROTO_TCP, Tcp.HeaderLen(h.options) + |payload|), h, payload)
  }

  function SegmentBytes(src: IP4, dst: IP4, h: Tcp.Header, payload: seq<byte>): (s: seq<byte>)
    ensures |s| == Tcp.HeaderLen(h.options) + |payload|
  {
    Tcp.WithChecksum(h, SegmentChecksum(src, dst, h, payload)) + payload
  }

  /** The wire image: a function of the headers and the payload alone, so nothing of the pooled
      buffer's earlier contents is in it. */
  function Wire(ip: Ip.Header, h: Tcp.Header, payload: seq<byte>): seq<byte> {
    var segment := SegmentBytes(ip.src, ip.dst, h, payload);
    Ip.HeaderBytes(Ip.Announcing(ip, |segment|)) + segment
  }

  method PackTCP(ip: Ip.IPv4, tcp: Tcp.TCP, mtuBuf: array<byte>) returns (ipStart: nat)
    requires ip.headerLength == 0 && tcp.headerLength == 0
    requires 20 + Tcp.HeaderLen(tcp.Options) + |tcp.Payload| <= mtuBuf.Length
    modifies ip, tcp, mtuBuf
    ensures tcp.Payload == old(tcp.Payload) && tcp.View() == old(tcp.View())
    ensures ipStart == mtuBuf.Length - |tcp.Payload| - Tcp.HeaderLen(tcp.Options) - 20
    ensures mtuBuf[ipStart..] == Wire(old(ip.View()), tcp.View(), tcp.Payload)
  {
    ghost var h := ip.View();
    var tcpStart := PackSegment(ip, tcp, mtuBuf);
    ghost var segment := mtuBuf[tcpStart..];
    var dataLen := tcp.headerLength + |tcp.Payload|;
    var ipHL := ip.HeaderLength();
    ipStart := tcpStart - ipHL;
    assert dataLen == |segment|;
    assert ip.View() == h.(ihl := 5);
    var ok := ip.Serialize(mtuBuf, ipStart, tcpStart, dataLen);
    Halves(mtuBuf[..], ipStart, tcpStart);
  }

  /** The first half of `packTCP`: payload, pseudo-header and TCP header. */
  method PackSegment(ip: Ip.IPv4, tcp: Tcp.TCP, mtuBuf: array<byte>) returns (tcpStart: nat)
    requires tcp.headerLength == 0
    requires 20 + Tcp.HeaderLen(tcp.Options) + |tcp.Payload| <= mtuBuf.Length
    modifies tcp`Padding, tcp`headerLength, tcp`DataOffset, tcp`Checksum, mtuBuf
    ensures tcp.headerLength == Tcp.HeaderLen(tcp.Options) && tcp.View() == old(tcp.View())
    ensures tcpStart == mtuBuf.Length - |tcp.Payload| - Tcp.HeaderLen(tcp.Options)
    ensures mtuBuf[tcpStart..] == SegmentBytes(ip.SrcIP, ip.DstIP, tcp.View(), tcp.Payload)
  {
    hide Ip.PseudoBytes, InternetChecksum.Of, Tcp.WithChecksum, Tcp.RawHeader;
    var payloadStart := mtuBuf.Length - |tcp.Payload|;
    var tcpHL := tcp.HeaderLength();
    tcpStart := payloadStart - tcpHL;
    var pseudoStart := tcpStart - Ip.PSEUDO_LENGTH;
    PlaceInputs(ip, tcp.Payload, tcpHL, mtuBuf);
    ghost var s1 := mtuBuf[..];
    assert s1[payloadStart..] == tcp.Payload;
    var ok := tcp.Serialize(mtuBuf, tcpStart, payloadStart, pseudoStart, mtuBuf.Length);
    ChecksumIs(s1, pseudoStart, tcpStart, payloadStart, ip.SrcIP, ip.DstIP, tcp.View(), tcp.Payload,
               tcpHL + |tcp.Payload|);
    Halves(mtuBuf[..], tcpStart, payloadStart);
  }

  /** What `Serialize` sums, read off the buffer. */
  lemma ChecksumIs(s: seq<byte>, a: nat, b: nat, c: nat, src: IP4, dst: IP4, h: Tcp.Header, payload: seq<byte>, n: nat)
    requires a <= b <= c <= |s| && s[c..] == payload
    requires n == Tcp.HeaderLen(h.options) + |payload|
    requires s[a..b] == Ip.PseudoBytes(src, dst, Ip.PROTO_TCP, n)
    ensures InternetChecksum.Of([s[a..b] + Tcp.RawHeader(h) + s[c..|s|]]) == SegmentChecksum(src, dst, h, payload)
  {
    hide InternetChecksum.Of, Ip.PseudoBytes, Tcp.RawHeader, Tcp.HeaderLen;
    assert s[c..|s|] == payload;
  }

  /** Payload and pseudo-header: what the checksum covers besides the header itself. */
  method PlaceInputs(ip: Ip.IPv4, payload: seq<byte>, tcpHL: nat, mtuBuf: array<byte>)
    requires 20 + tcpHL + |payload| <= mtuBuf.Length
    modifies mtuBuf
    ensures var payloadStart := mtuBuf.Length - |payload|;
            var tcpStart := payloadStart - tcpHL;
            && mtuBuf[payloadStart..] == payload
            && mtuBuf[tcpStart - Ip.PSEUDO_LENGTH..tcpStart]
               == Ip.PseudoBytes(ip.SrcIP, ip.DstIP, Ip.PROTO_TCP, tcpHL + |payload|)
  {
    var payloadL := |payload|;
    var payloadStart := mtuBuf.Length - payloadL;
    if payloadL != 0 {
      PutLast(mtuBuf, payloadStart, payload);
    }
    ghost var s0 := mtuBuf[..];
    assert s0[payloadStart..] == payload;
    var tcpStart := payloadStart - tcpHL;
    var pseudoStart := tcpStart - Ip.PSEUDO_LENGTH;
    var ok := ip.PseudoHeader(mtuBuf, pseudoStart, tcpStart, Ip.PROTO_TCP, tcpHL + payloadL);
    KeepTail(mtuBuf[..], s0, tcpStart, payloadStart);
  }

  lemma FilledVerifies(h: Tcp.Header, payload: seq<byte>, pseudo: seq<byte>, c: u16)
    requires |pseudo| == 12 && |Tcp.RawHeader(h)| + |payload| <= 0xffff
    requires c == ChecksumOver(pseudo, h, payload)
    ensures InternetChecksum.Of([pseudo + (Tcp.WithChecksum(h, c) + payload)]) == 0
  {
    Tcp.ChecksumFieldIsZero(h);
    InternetChecksum.SelfVerifyingInside(pseudo, Tcp.RawHeader(h), payload, 8);
  }

  lemma ReceiverAgrees(src: IP4, dst: IP4, segment: seq<byte>, n: nat)
    requires |segment| == n && InternetChecksum.Of([Ip.PseudoBytes(src, dst, Ip.PROTO_TCP, n) + segment]) == 0
    ensures Ip.ReceiverSum(src, dst, Ip.PROTO_TCP, segment) == 0
  {
  }

  /** The segment verifies at the receiver, whatever its options and the parity of its payload: with the addresses,
      protocol number 6 and its own length its words add up to a multiple of 65535. */
  lemma SegmentVerifies(src: IP4, dst: IP4, h: Tcp.Header, payload: seq<byte>)
    requires Tcp.HeaderLen(h.options) + |payload| <= 0xffff
    ensures Ip.ReceiverSum(src, dst, Ip.PROTO_TCP, SegmentBytes(src, dst, h, payload)) == 0
    ensures var segment := SegmentBytes(src, dst, h, payload);
            && |segment| == Tcp.HeaderLen(h.options) + |payload|
            && (InternetChecksum.FieldSum(src) + InternetChecksum.FieldSum(dst) + 6 + |segment|
                + InternetChecksum.FieldSum(segment)) % 0xffff == 0
  {
    hide InternetChecksum.Of, InternetChecksum.FieldSum, Ip.PseudoBytes, Tcp.HeaderLen, Tcp.RawHeader, Ip.ReceiverSum;
    var n := Tcp.HeaderLen(h.options) + |payload|;
    var pseudo := Ip.PseudoBytes(src, dst, Ip.PROTO_TCP, n);
    FilledVerifies(h, payload, pseudo, SegmentChecksum(src, dst, h, payload));
    ReceiverAgrees(src, dst, SegmentBytes(src, dst, h, payload), n);
    Ip.ReceiverChecks(src, dst, Ip.PROTO_TCP, SegmentBytes(src, dst, h, payload));
  }

  /** `packTCP` is inverted by `ParseIPv4` followed by `ParseTCP`, in any buffer: the payload comes back if and
      only if the options are representable and no host lookup panics over the payload, the whole header if and
      only if they also need no padding and no one-byte option carries data. A lookup that panics ends the
      program. */
  lemma PackRoundTrip(ip: Ip.Header, h: Tcp.Header, payload: seq<byte>, beyond: seq<byte>)
    requires ip.version < 16 && ip.flags < 8 && ip.fragOffset < 0x2000
    requires 20 + Tcp.HeaderLen(h.options) + |payload| <= 0xffff
    ensures Carries(Wire(ip, h, payload), ip)
    ensures var p := Tcp.Parse(Ip.PayloadOf(Wire(ip, h, payload)), beyond);
            var crashes := Tcp.LookupCrashes(h.dstPort, payload, beyond);
            && ((p.Parsed? && p.payload == payload) <==> Tcp.Representable(h.options) && !crashes)
            && ((p.Parsed? && p.header == h && p.payload == payload)
                <==> Tcp.Unpadded(h.options) && Tcp.Canonical(h.options) && !crashes)
            && (Tcp.Representable(h.options) && crashes ==> p == Tcp.Crashed)
  {
    hide Tcp.Parse, Tcp.LookupCrashes;
    PacketReads(ip, h, payload);
    Tcp.SegmentRoundTrip(h, SegmentChecksum(ip.src, ip.dst, h, payload), payload, beyond);
  }

  /** The packet has the IP header given, with its own length and a checksum that verifies. */
  predicate Carries(wire: seq<byte>, ip: Ip.Header) {
    && 20 <= |wire| <= 0xffff
    && Ip.ParseOk(wire)
    && Ip.DecodeFixed(wire) == ip.(ihl := 5, length := |wire|, checksum := Ip.DecodeFixed(wire).checksum)
    && InternetChecksum.Of([wire[..20]]) == 0
  }

  /** The same for a receiver that only reads the headers. */
  lemma PacketReads(ip: Ip.Header, h: Tcp.Header, payload: seq<byte>)
    requires ip.version < 16 && ip.flags < 8 && ip.fragOffset < 0x2000
    requires 20 + Tcp.HeaderLen(h.options) + |payload| <= 0xffff
    ensures Carries(Wire(ip, h, payload), ip)
    ensures Ip.PayloadOf(Wire(ip, h, payload)) == SegmentBytes(ip.src, ip.dst, h, payload)
    ensures var p := Tcp.Decode(SegmentBytes(ip.src, ip.dst, h, payload));
            && ((p.Parsed? && p.payload == payload) <==> Tcp.Representable(h.options))
            && ((p.Parsed? && p.header == h && p.payload == payload)
                <==> Tcp.Unpadded(h.options) && Tcp.Canonical(h.options))
  {
    Ip.PacketParses(ip, SegmentBytes(ip.src, ip.dst, h, payload));
    Tcp.HeaderRoundTrip(h, SegmentChecksum(ip.src, ip.dst, h, payload), payload);
  }
}
