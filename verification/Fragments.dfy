/** UDP responses, their fragmentation and the reassembly of fragments:
    `responsePacket` of `tun2socks/udp.go`, `tun2socks/ip.go` and the reader of `tun2socks/tun2socks.go`.
    The buffer size MTU is a parameter; the source sets it to 15000. */
module Fragments {
  import opened Bytes
  import opened Buffers
  import InternetChecksum
  import Ip = IPv4
  import Udp = UdpDatagram

  /** The largest payload of a UDP datagram over IPv4. */
  const MAX_PAYLOAD: nat := 65507

  // ---- sending

  /** A packet as it leaves: its header fields and its bytes. */
  datatype Packet = Packet(ip: Ip.Header, data: seq<byte>)

  function WireOf(p: Packet): (w: seq<byte>)
    ensures |w| == 20 + |p.data|
  {
    Ip.HeaderBytes(p.ip) + p.data
  }

  /** The part of a header that its fragments share. */
  function Identity(h: Ip.Header): Ip.Header {
    Ip.Header(4, 0, 0, 0, h.id, 0, 0, h.ttl, h.protocol, 0, h.src, h.dst)
  }

  function FragmentHeader(first: Ip.Header, flags: byte, offset: u16, dataLen: nat): Ip.Header {
    Ip.Announcing(Identity(first).(flags := flags, fragOffset := offset), dataLen)
  }

  /** The offset field counts 8-byte units: the division is not exact for every MTU. */
  function NextOffset(mtu: nat, offset: u16): u16
    requires mtu > 20
  {
    (offset + (mtu - 20) / 8) % 0x1_0000
  }

  /** All fragments after the first one. */
  function GenSpec(mtu: nat, first: Ip.Header, offset: u16, data: seq<byte>): (ps: seq<Packet>)
    requires mtu > 20
    ensures |ps| > 0
    decreases |data|
  {
    if |data| <= mtu - 20 then
      [Packet(FragmentHeader(first, 0, offset, |data|), data)]
    else
      [Packet(FragmentHeader(first, 1, offset, mtu - 20), data[..mtu - 20])]
      + GenSpec(mtu, first, NextOffset(mtu, offset), data[mtu - 20..])
  }

  /** `genFragments`: one pooled buffer for each fragment. */
  method GenFragments(mtu: nat, first: Ip.IPv4, offset0: u16, data0: seq<byte>) returns (ret: seq<seq<byte>>)
    requires mtu > 20
    ensures ret == Wires(GenSpec(mtu, Identity(first.View()), offset0, data0))
  {
    ret := [];
    var offset: u16 := offset0;
    var data: seq<byte> := data0;
    ghost var h := Identity(first.View());
    ghost var all := GenSpec(mtu, h, offset0, data0);
    ghost var done: seq<Packet> := [];
    while true
      invariant done + GenSpec(mtu, h, offset, data) == all
      invariant ret == Wires(done)
      decreases |data|
    {
      if |data| <= mtu - 20 {
        ghost var p := Packet(FragmentHeader(h, 0, offset, |data|), data);
        var wire := MakeFragment(mtu, first, 0, offset, data);
        WiresSnoc(done, p);
        ret := ret + [wire];
        return;
      }
      var chunk: seq<byte> := data[..mtu - 20];
      ghost var p := Packet(FragmentHeader(h, 1, offset, mtu - 20), chunk);
      var wire := MakeFragment(mtu, first, 1, offset, chunk);
      WiresSnoc(done, p);
      ret := ret + [wire];
      offset := NextOffset(mtu, offset);
      data := data[mtu - 20..];
      Associate(done, [p], GenSpec(mtu, h, offset, data));
      done := done + [p];
    }
  }

  /** The header of one fragment, and its buffer. */
  method MakeFragment(mtu: nat, first: Ip.IPv4, flags: byte, offset: u16, payload: seq<byte>) returns (wire: seq<byte>)
    requires |payload| + 20 <= mtu
    ensures wire == WireOf(Packet(FragmentHeader(first.View(), flags, offset, |payload|), payload))
  {
    hide Ip.HeaderBytes, Ip.Announcing;
    ghost var firstView := first.View();
    var frag := new Ip.IPv4();
    frag.Version := 4;
    frag.Id := first.Id;
    frag.SrcIP := first.SrcIP;
    frag.DstIP := first.DstIP;
    frag.TTL := first.TTL;
    frag.Protocol := first.Protocol;
    frag.FragOffset := offset;
    frag.Flags := flags;
    frag.Payload := payload;
    assert frag.View() == Ip.Header(4, 0, 0, 0, firstView.id, flags, offset, firstView.ttl, firstView.protocol, 0,
                                    firstView.src, firstView.dst);
    wire := FillBuffer(mtu, frag);
  }

  /** The buffer work for one fragment. */
  method FillBuffer(mtu: nat, frag: Ip.IPv4) returns (wire: seq<byte>)
    requires frag.headerLength == 0
    requires |frag.Payload| + 20 <= mtu
    modifies frag
    ensures wire == Ip.HeaderBytes(Ip.Announcing(old(frag.View()), old(|frag.Payload|))) + old(frag.Payload)
  {
    ghost var h := frag.View();
    var mtuBuf := new byte[mtu];
    var payloadL := |frag.Payload|;
    var payloadStart := mtu - payloadL;
    if payloadL != 0 {
      PutLast(mtuBuf, payloadStart, frag.Payload);
    }
    assert mtuBuf[payloadStart..] == frag.Payload;
    var ipHL := frag.HeaderLength();
    var ipStart := payloadStart - ipHL;
    var ok := frag.Serialize(mtuBuf, ipStart, payloadStart, payloadL);
    Halves(mtuBuf[..], ipStart, payloadStart);
    wire := mtuBuf[ipStart..];
  }

  function Wires(ps: seq<Packet>): (ws: seq<Ip.Bytes20>)
    ensures |ws| == |ps|
  {
    if ps == [] then [] else [WireOf(ps[0])] + Wires(ps[1..])
  }

  lemma {:induction false} WiresSnoc(ps: seq<Packet>, p: Packet)
    ensures Wires(ps + [p]) == Wires(ps) + [WireOf(p)]
  {
    if ps != [] {
      assert (ps + [p])[1..] == ps[1..] + [p];
      WiresSnoc(ps[1..], p);
    }
  }

  // ---- a whole response

  /** The UDP datagram of a response, as one piece. */
  function Datagram(src: IP4, dst: IP4, srcPort: u16, dstPort: u16, payload: seq<byte>): (s: seq<byte>)
    ensures |s| == 8 + |payload|
  {
    Udp.WithChecksum(srcPort, dstPort, Udp.LengthField(payload),
                     DatagramChecksum(src, dst, srcPort, dstPort, payload)) + payload
  }

  function DatagramChecksum(src: IP4, dst: IP4, srcPort: u16, dstPort: u16, payload: seq<byte>): u16 {
    InternetChecksum.Of([Ip.PseudoBytes(src, dst, Ip.PROTO_UDP, 8 + |payload|)
                         + Udp.RawHeader(srcPort, dstPort, Udp.LengthField(payload)) + payload])
  }

  function ResponseHeader(local: IP4, remote: IP4, ipid: u16): Ip.Header {
    Ip.Header(4, 0, 0, 0, ipid, 0, 0, 64, Ip.PROTO_UDP, 0, remote, local)
  }

  /** A response: one packet if it fits the MTU, a first fragment and the rest otherwise. */
  function Response(mtu: nat, local: IP4, remote: IP4, lPort: u16, rPort: u16, payload: seq<byte>, ipid: u16)
    : (ps: seq<Packet>)
    requires mtu >= 28
    ensures |ps| > 0
  {
    var h := ResponseHeader(local, remote, ipid);
    var datagram := Datagram(remote, local, rPort, lPort, payload);
    if |payload| <= mtu - 28 then
      [Packet(FragmentHeader(h, 0, 0, |datagram|), datagram)]
    else
      [Packet(FragmentHeader(h, 1, 0, mtu - 20), datagram[..mtu - 20])]
      + GenSpec(mtu, h, NextOffset(mtu, 0), payload[mtu - 28..])
  }

  method ResponsePacket(mtu: nat, local: IP4, remote: IP4, lPort: u16, rPort: u16, respPayload: seq<byte>, ipid: u16)
    returns (wires: seq<seq<byte>>)
    requires mtu >= 28
    ensures wires == Wires(Response(mtu, local, remote, lPort, rPort, respPayload, ipid))
  {
    ghost var h := ResponseHeader(local, remote, ipid);
    var ip, udp := NewHeaders(local, remote, lPort, rPort, respPayload, ipid);
    // a payload that is too long needs fragments: only its first part goes into the first buffer
    if |respPayload| > mtu - 28 {
      ip.Flags := 1;
      assert ip.View() == h.(flags := 1);
      var first := FirstPacket(mtu, ip, udp, 28, h);
      var rest := GenFragments(mtu, ip, NextOffset(mtu, 0), respPayload[mtu - 28..]);
      LargeResponse(mtu, local, remote, lPort, rPort, respPayload, ipid);
      wires := [first] + rest;
    } else {
      var first := FirstPacket(mtu, ip, udp, mtu - |respPayload|, h);
      SmallResponse(mtu, local, remote, lPort, rPort, respPayload, ipid);
      wires := [first];
    }
  }

  lemma SmallResponse(mtu: nat, local: IP4, remote: IP4, lPort: u16, rPort: u16, payload: seq<byte>, ipid: u16)
    requires mtu >= 28 && |payload| <= mtu - 28
    ensures var n := 8 + |payload|;
            Wires(Response(mtu, local, remote, lPort, rPort, payload, ipid))
            == [WireOf(Packet(FragmentHeader(ResponseHeader(local, remote, ipid), 0, 0, n),
                              Datagram(remote, local, rPort, lPort, payload)[..n]))]
  {
    var datagram := Datagram(remote, local, rPort, lPort, payload);
    assert datagram[..8 + |payload|] == datagram;
    WiresCons(Packet(FragmentHeader(ResponseHeader(local, remote, ipid), 0, 0, |datagram|), datagram), []);
  }

  lemma LargeResponse(mtu: nat, local: IP4, remote: IP4, lPort: u16, rPort: u16, payload: seq<byte>, ipid: u16)
    requires mtu >= 28 && |payload| > mtu - 28
    ensures var h := ResponseHeader(local, remote, ipid);
            Wires(Response(mtu, local, remote, lPort, rPort, payload, ipid))
            == [WireOf(Packet(FragmentHeader(h, 1, 0, mtu - 20),
                              Datagram(remote, local, rPort, lPort, payload)[..mtu - 20]))]
               + Wires(GenSpec(mtu, h, NextOffset(mtu, 0), payload[mtu - 28..]))
  {
    var h := ResponseHeader(local, remote, ipid);
    WiresCons(Packet(FragmentHeader(h, 1, 0, mtu - 20), Datagram(remote, local, rPort, lPort, payload)[..mtu - 20]),
              GenSpec(mtu, h, NextOffset(mtu, 0), payload[mtu - 28..]));
  }

  /** The header fields of a response. */
  method NewHeaders(local: IP4, remote: IP4, lPort: u16, rPort: u16, respPayload: seq<byte>, ipid: u16)
    returns (ip: Ip.IPv4, udp: Udp.UDP)
    ensures fresh(ip) && fresh(udp)
    ensures ip.View() == ResponseHeader(local, remote, ipid) && ip.headerLength == 0
    ensures udp.SrcPort == rPort && udp.DstPort == lPort && udp.Payload == respPayload
  {
    ip := new Ip.IPv4();
    ip.Version, ip.Id, ip.SrcIP, ip.DstIP, ip.TTL, ip.Protocol := 4, ipid, remote, local, 64, Ip.PROTO_UDP;
    udp := new Udp.UDP();
    udp.SrcPort, udp.DstPort, udp.Payload := rPort, lPort, respPayload;
  }

  lemma WiresCons(p: Packet, rest: seq<Packet>)
    ensures Wires([p] + rest) == [WireOf(p)] + Wires(rest)
    ensures Wires([p]) == [WireOf(p)]
  {
    assert ([p] + rest)[1..] == rest;
    assert [p][1..] == [];
  }

  /** The buffer work for the only packet, or for the first fragment. */
  method FirstPacket(mtu: nat, ip: Ip.IPv4, udp: Udp.UDP, payloadStart: nat, ghost h: Ip.Header)
    returns (wire: seq<byte>)
    requires ip.headerLength == 0 && Identity(h) == h && ip.View() == h.(flags := ip.Flags)
    requires 28 <= payloadStart <= mtu && mtu - payloadStart <= |udp.Payload|
    modifies ip`IHL, ip`headerLength, ip`Length, ip`Checksum, udp`Length, udp`Checksum
    ensures Identity(ip.View()) == h
    ensures var n := 8 + (mtu - payloadStart);
            wire == WireOf(Packet(FragmentHeader(h, ip.Flags, 0, n),
                                  Datagram(h.src, h.dst, udp.SrcPort, udp.DstPort, udp.Payload)[..n]))
  {
    var mtuBuf := new byte[mtu];
    WriteDatagram(ip, udp, mtuBuf, payloadStart);
    var udpStart := payloadStart - 8;
    ghost var data := mtuBuf[udpStart..];
    var ipHL := ip.HeaderLength();
    var ipStart := udpStart - ipHL;
    assert ip.View() == h.(flags := ip.Flags, ihl := 5);
    var ok := ip.Serialize(mtuBuf, ipStart, udpStart, 8 + (mtu - payloadStart));
    Halves(mtuBuf[..], ipStart, udpStart);
    wire := mtuBuf[ipStart..];
  }

  /** Pseudo-header, UDP header and as much of the payload as fits behind them. */
  method WriteDatagram(ip: Ip.IPv4, udp: Udp.UDP, mtuBuf: array<byte>, payloadStart: nat)
    requires 28 <= payloadStart <= mtuBuf.Length
    requires mtuBuf.Length - payloadStart <= |udp.Payload|
    modifies udp`Length, udp`Checksum, mtuBuf
    ensures mtuBuf[payloadStart - 8..]
         == Datagram(ip.SrcIP, ip.DstIP, udp.SrcPort, udp.DstPort, udp.Payload)[..8 + mtuBuf.Length - payloadStart]
  {
    var payload, n := udp.Payload, mtuBuf.Length - payloadStart;
    var udpStart := payloadStart - 8;
    var pseudoStart := udpStart - Ip.PSEUDO_LENGTH;
    var ok := ip.PseudoHeader(mtuBuf, pseudoStart, udpStart, Ip.PROTO_UDP, 8 + |payload|);
    ghost var pseudo := mtuBuf[pseudoStart..udpStart];
    ok := udp.Serialize(mtuBuf, udpStart, payloadStart, pseudoStart);
    InternetChecksum.SumOfTwo(pseudo + Udp.RawHeader(udp.SrcPort, udp.DstPort, udp.Length), payload, 10);
    assert udp.Checksum == DatagramChecksum(ip.SrcIP, ip.DstIP, udp.SrcPort, udp.DstPort, payload);
    ghost var s1 := mtuBuf[..];
    if |payload| != 0 {
      PutLast(mtuBuf, payloadStart, payload[..n]);
    }
    Keep(mtuBuf[..], s1, payloadStart, udpStart, payloadStart);
    Halves(mtuBuf[..], udpStart, payloadStart);
    assert mtuBuf[payloadStart..] == payload[..n];
    TakeBehind(mtuBuf[udpStart..payloadStart], payload, n);
  }

  lemma TakeBehind(a: seq<byte>, b: seq<byte>, n: nat)
    requires n <= |b|
    ensures (a + b)[..|a| + n] == a + b[..n]
  {
  }

  // ---- offsets

  /** Offsets never wrap and never leave their 13 bits. */
  lemma OffsetStep(mtu: nat, offset: u16, n: nat)
    requires 28 <= mtu <= 0xffff && mtu - 20 < n
    requires 8 * offset + n <= 8 + MAX_PAYLOAD
    ensures NextOffset(mtu, offset) == offset + (mtu - 20) / 8
    ensures offset < NextOffset(mtu, offset) < 0x2000
    ensures 8 * NextOffset(mtu, offset) + (n - (mtu - 20)) <= 8 + MAX_PAYLOAD
  {
    var d := (mtu - 20) / 8;
    assert 1 <= d && 8 * d <= mtu - 20;
    assert offset + d < 0x2000;
    Small16(offset + d);
  }

  function DataOf(ps: seq<Packet>): seq<byte> {
    if ps == [] then [] else ps[0].data + DataOf(ps[1..])
  }

  /** The bytes of the datagram that come before packet `k`. */
  function BytesBefore(ps: seq<Packet>, k: nat): nat
    requires k <= |ps|
  {
    if k == 0 then 0 else BytesBefore(ps, k - 1) + |ps[k - 1].data|
  }

  /** Packet `k` of a fragmented datagram whose first `from` packets are elsewhere. */
  predicate Placed(mtu: nat, ps: seq<Packet>, from: nat, k: nat)
    requires mtu > 20 && k < |ps|
  {
    && ps[k].ip.fragOffset == (from + k) * ((mtu - 20) / 8)
    && ps[k].ip.flags == (if k < |ps| - 1 then 1 else 0)
    && (k < |ps| - 1 ==> |ps[k].data| == mtu - 20)
    && 0 < |ps[k].data| <= mtu - 20
    && ps[k].ip.length == 20 + |ps[k].data|
  }

  lemma PlacedCons(mtu: nat, p: Packet, rest: seq<Packet>, from: nat, next: nat)
    requires mtu > 20 && |rest| > 0 && next == from + 1
    requires p.ip.fragOffset == from * ((mtu - 20) / 8) && p.ip.flags == 1
    requires |p.data| == mtu - 20 && p.ip.length == 20 + |p.data|
    requires forall k :: 0 <= k < |rest| ==> Placed(mtu, rest, next, k)
    ensures forall k :: 0 <= k < |[p] + rest| ==> Placed(mtu, [p] + rest, from, k)
  {
    var ps := [p] + rest;
    forall k | 0 <= k < |ps|
      ensures Placed(mtu, ps, from, k)
    {
      if k > 0 {
        assert Placed(mtu, rest, next, k - 1);
        assert next + (k - 1) == from + k;
        assert ps[k] == rest[k - 1];
      } else {
        assert from + k == from;
      }
    }
  }

  lemma PlacedLast(mtu: nat, first: Ip.Header, offset: u16, data: seq<byte>, from: nat)
    requires 28 <= mtu <= 0xffff && 0 < |data| <= mtu - 20 && offset == from * ((mtu - 20) / 8)
    ensures Placed(mtu, [Packet(FragmentHeader(first, 0, offset, |data|), data)], from, 0)
  {
    Small16(20 + |data|);
    assert from + 0 == from;
  }

  lemma {:induction false} GenIsPlaced(mtu: nat, first: Ip.Header, offset: u16, data: seq<byte>, from: nat)
    requires 28 <= mtu <= 0xffff && 8 * offset + |data| <= 8 + MAX_PAYLOAD && data != []
    requires offset == from * ((mtu - 20) / 8)
    ensures var ps := GenSpec(mtu, first, offset, data);
            && DataOf(ps) == data
            && |ps| > 0
            && forall k :: 0 <= k < |ps| ==> Placed(mtu, ps, from, k)
    decreases |data|
  {
    var ps := GenSpec(mtu, first, offset, data);
    hide NextOffset;
    if |data| <= mtu - 20 {
      PlacedLast(mtu, first, offset, data, from);
      assert DataOf(ps[1..]) == [];
    } else {
      var chunk, more := data[..mtu - 20], data[mtu - 20..];
      var p := Packet(FragmentHeader(first, 1, offset, mtu - 20), chunk);
      var rest := GenSpec(mtu, first, NextOffset(mtu, offset), more);
      OffsetStep(mtu, offset, |data|);
      OneMore(from, (mtu - 20) / 8);
      GenIsPlaced(mtu, first, NextOffset(mtu, offset), more, from + 1);
      Small16(mtu);
      PlacedCons(mtu, p, rest, from, from + 1);
      assert ps[1..] == rest;
    }
  }

  lemma OneMore(from: nat, d: nat)
    ensures (from + 1) * d == from * d + d
  {
  }

  /** A fragmented response is cut where its second part starts. */
  lemma CutResponse(mtu: nat, local: IP4, remote: IP4, lPort: u16, rPort: u16, payload: seq<byte>, ipid: u16)
    requires mtu >= 28 && |payload| > mtu - 28
    ensures var h, datagram := ResponseHeader(local, remote, ipid), Datagram(remote, local, rPort, lPort, payload);
            && Response(mtu, local, remote, lPort, rPort, payload, ipid)
               == [Packet(FragmentHeader(h, 1, 0, mtu - 20), datagram[..mtu - 20])]
                  + GenSpec(mtu, h, NextOffset(mtu, 0), payload[mtu - 28..])
            && datagram[..mtu - 20] + payload[mtu - 28..] == datagram
  {
    hide DatagramChecksum, Udp.WithChecksum, GenSpec, FragmentHeader, ResponseHeader, NextOffset;
    var datagram := Datagram(remote, local, rPort, lPort, payload);
    assert datagram[mtu - 20..] == payload[mtu - 28..];
    assert datagram == datagram[..mtu - 20] + datagram[mtu - 20..];
  }

  /** Fragmentation loses nothing: the pieces are the datagram, none is empty, all but the last fill the MTU and
      say that more follow, and the offset field counts whole steps of `(mtu - 20) / 8`. */
  lemma ResponseIsPlaced(mtu: nat, local: IP4, remote: IP4, lPort: u16, rPort: u16, payload: seq<byte>, ipid: u16)
    requires 28 <= mtu <= 0xffff && mtu - 28 < |payload| <= MAX_PAYLOAD
    ensures var ps := Response(mtu, local, remote, lPort, rPort, payload, ipid);
            && DataOf(ps) == Datagram(remote, local, rPort, lPort, payload)
            && |ps| > 1
            && forall k :: 0 <= k < |ps| ==> Placed(mtu, ps, 0, k)
  {
    hide NextOffset, Datagram, GenSpec, Response, Placed;
    CutResponse(mtu, local, remote, lPort, rPort, payload, ipid);
    var h, datagram := ResponseHeader(local, remote, ipid), Datagram(remote, local, rPort, lPort, payload);
    var p := Packet(FragmentHeader(h, 1, 0, mtu - 20), datagram[..mtu - 20]);
    var rest := GenSpec(mtu, h, NextOffset(mtu, 0), payload[mtu - 28..]);
    OffsetStep(mtu, 0, |datagram|);
    GenIsPlaced(mtu, h, NextOffset(mtu, 0), payload[mtu - 28..], 1);
    PlacedCons(mtu, p, rest, 0, 1);
    assert ([p] + rest)[1..] == rest;
  }

  lemma {:induction false} FullBefore(mtu: nat, ps: seq<Packet>, k: nat)
    requires mtu > 20 && k < |ps| && forall i :: 0 <= i < |ps| ==> Placed(mtu, ps, 0, i)
    ensures BytesBefore(ps, k) == k * (mtu - 20)
  {
    if k > 0 {
      FullBefore(mtu, ps, k - 1);
      assert Placed(mtu, ps, 0, k - 1);
      assert k * (mtu - 20) == (k - 1) * (mtu - 20) + (mtu - 20);
    }
  }

  lemma {:induction false} BeforeIsWithin(ps: seq<Packet>, k: nat)
    requires k <= |ps|
    ensures BytesBefore(ps, k) <= |DataOf(ps)|
    decreases |ps|
  {
    if k > 0 {
      BeforeIsWithin(ps[1..], k - 1);
      BeforeTail(ps, k);
    }
  }

  lemma {:induction false} BeforeTail(ps: seq<Packet>, k: nat)
    requires 0 < k <= |ps|
    ensures BytesBefore(ps, k) == |ps[0].data| + BytesBefore(ps[1..], k - 1)
  {
    if k > 1 {
      BeforeTail(ps, k - 1);
    }
  }

  /** The offset field has 13 bits, and no fragment of a response needs more. */
  lemma OffsetsFit(mtu: nat, local: IP4, remote: IP4, lPort: u16, rPort: u16, payload: seq<byte>, ipid: u16, k: nat)
    requires 28 <= mtu <= 0xffff && mtu - 28 < |payload| <= MAX_PAYLOAD
    requires k < |Response(mtu, local, remote, lPort, rPort, payload, ipid)|
    ensures Response(mtu, local, remote, lPort, rPort, payload, ipid)[k].ip.fragOffset < 0x2000
  {
    hide Response, Datagram, BytesBefore, DataOf;
    var ps := Response(mtu, local, remote, lPort, rPort, payload, ipid);
    ResponseIsPlaced(mtu, local, remote, lPort, rPort, payload, ipid);
    FullBefore(mtu, ps, k);
    BeforeIsWithin(ps, k);
    assert Placed(mtu, ps, 0, k);
    AtMost(k, (mtu - 20) / 8, mtu - 20);
  }

  lemma AtMost(k: nat, d: nat, n: nat)
    requires 8 * d <= n
    ensures 8 * (k * d) <= k * n
  {
    assert 8 * (k * d) == k * (8 * d);
    assert k * (n - 8 * d) >= 0;
  }

  /** RFC 791, section 3.2, wants every offset to be the number of preceding 8-byte units. The
      fragments of a response comply if and only if 8 divides MTU - 20. */
  lemma OffsetsAreContiguous(mtu: nat, local: IP4, remote: IP4, lPort: u16, rPort: u16, payload: seq<byte>, ipid: u16)
    requires 28 <= mtu <= 0xffff && mtu - 28 < |payload| <= MAX_PAYLOAD
    ensures var ps := Response(mtu, local, remote, lPort, rPort, payload, ipid);
            (forall k :: 0 <= k < |ps| ==> 8 * ps[k].ip.fragOffset == BytesBefore(ps, k)) <==> (mtu - 20) % 8 == 0
  {
    var ps := Response(mtu, local, remote, lPort, rPort, payload, ipid);
    var d := (mtu - 20) / 8;
    ResponseIsPlaced(mtu, local, remote, lPort, rPort, payload, ipid);
    hide Response, Datagram, BytesBefore;
    assert (mtu - 20) % 8 == 0 <==> 8 * d == mtu - 20;
    FullBefore(mtu, ps, 1);
    assert Placed(mtu, ps, 0, 1);
    if 8 * d == mtu - 20 {
      forall k | 0 <= k < |ps|
        ensures 8 * ps[k].ip.fragOffset == BytesBefore(ps, k)
      {
        FullBefore(mtu, ps, k);
        assert Placed(mtu, ps, 0, k);
        EightTimes(k, d, mtu - 20);
      }
    }
  }

  lemma EightTimes(k: nat, d: nat, n: nat)
    requires 8 * d == n
    ensures 8 * (k * d) == k * n
  {
  }

  /** With the source's MTU the offsets of every fragmented response are wrong. */
  lemma OffsetsAreWrongAt15000(local: IP4, remote: IP4, lPort: u16, rPort: u16, payload: seq<byte>, ipid: u16)
    requires MTU - 28 < |payload| <= MAX_PAYLOAD
    ensures var ps := Response(MTU, local, remote, lPort, rPort, payload, ipid);
            |ps| > 1 && 8 * ps[1].ip.fragOffset == BytesBefore(ps, 1) - 4
  {
    var ps := Response(MTU, local, remote, lPort, rPort, payload, ipid);
    ResponseIsPlaced(MTU, local, remote, lPort, rPort, payload, ipid);
    hide Response, Datagram;
    FullBefore(MTU, ps, 1);
    assert Placed(MTU, ps, 0, 1);
  }

  /** All packets of a response carry its header, apart from the fragment fields and the length. */
  predicate Belongs(h: Ip.Header, p: Packet) {
    p.ip == h.(ihl := 5, flags := p.ip.flags, fragOffset := p.ip.fragOffset, length := p.ip.length)
  }

  lemma {:induction false} GenBelongs(mtu: nat, first: Ip.Header, offset: u16, data: seq<byte>)
    requires mtu > 20 && first == Identity(first)
    ensures forall p <- GenSpec(mtu, first, offset, data) :: Belongs(first, p)
    decreases |data|
  {
    hide NextOffset;
    if |data| > mtu - 20 {
      GenBelongs(mtu, first, NextOffset(mtu, offset), data[mtu - 20..]);
    }
  }

  lemma ResponseBelongs(mtu: nat, local: IP4, remote: IP4, lPort: u16, rPort: u16, payload: seq<byte>, ipid: u16)
    requires mtu >= 28
    ensures forall p <- Response(mtu, local, remote, lPort, rPort, payload, ipid) ::
              Belongs(ResponseHeader(local, remote, ipid), p)
  {
    hide NextOffset, GenSpec, Datagram;
    if |payload| > mtu - 28 {
      GenBelongs(mtu, ResponseHeader(local, remote, ipid), NextOffset(mtu, 0), payload[mtu - 28..]);
    }
  }

  /** The header of a packet of a response, on the wire with `data`. */
  predicate SaysResponse(h: Ip.Header, data: seq<byte>, local: IP4, remote: IP4, ipid: u16) {
    && h.version == 4 && h.ihl == 5 && h.tos == 0 && h.id == ipid && h.ttl == 64 && h.protocol == 17
    && h.src == remote && h.dst == local && h.flags < 8 && h.fragOffset < 0x2000 && h.length == 20 + |data|
  }

  lemma WholeSays(mtu: nat, local: IP4, remote: IP4, lPort: u16, rPort: u16, payload: seq<byte>, ipid: u16)
    requires 28 <= mtu <= 0xffff && |payload| <= mtu - 28
    ensures var ps := Response(mtu, local, remote, lPort, rPort, payload, ipid);
            |ps| == 1 && SaysResponse(ps[0].ip, ps[0].data, local, remote, ipid)
  {
    hide Datagram;
    Small16(20 + |Datagram(remote, local, rPort, lPort, payload)|);
  }

  lemma FragmentSays(mtu: nat, local: IP4, remote: IP4, lPort: u16, rPort: u16, payload: seq<byte>, ipid: u16, k: nat)
    requires 28 <= mtu <= 0xffff && mtu - 28 < |payload| <= MAX_PAYLOAD
    requires k < |Response(mtu, local, remote, lPort, rPort, payload, ipid)|
    ensures var p := Response(mtu, local, remote, lPort, rPort, payload, ipid)[k];
            SaysResponse(p.ip, p.data, local, remote, ipid)
  {
    hide Response;
    var ps := Response(mtu, local, remote, lPort, rPort, payload, ipid);
    ResponseBelongs(mtu, local, remote, lPort, rPort, payload, ipid);
    assert ps[k] in ps;
    ResponseIsPlaced(mtu, local, remote, lPort, rPort, payload, ipid);
    OffsetsFit(mtu, local, remote, lPort, rPort, payload, ipid, k);
    assert Placed(mtu, ps, 0, k);
  }

  /** Every packet of a response, whole or cut, says on the wire that it is UDP in IPv4 from `remote` to `local` with
      this identification, 64 hops and no options. */
  lemma ResponseHeaders(mtu: nat, local: IP4, remote: IP4, lPort: u16, rPort: u16, payload: seq<byte>, ipid: u16,
                        k: nat)
    requires 28 <= mtu <= 0xffff && |payload| <= MAX_PAYLOAD
    requires k < |Response(mtu, local, remote, lPort, rPort, payload, ipid)|
    ensures var p := Response(mtu, local, remote, lPort, rPort, payload, ipid)[k];
            var w := WireOf(p);
            && w[0] == 0x45 && w[1] == 0 && Number(w[2..4]) == |w| && Number(w[4..6]) == ipid
            && w[8] == 64 && w[9] == 17 && w[12..16] == remote && w[16..20] == local
            && InternetChecksum.FieldSum(w[..20]) % 0xffff == 0 && w[20..] == p.data
  {
    hide Response, InternetChecksum.FieldSum, Ip.HeaderBytes;
    var p := Response(mtu, local, remote, lPort, rPort, payload, ipid)[k];
    if |payload| <= mtu - 28 {
      WholeSays(mtu, local, remote, lPort, rPort, payload, ipid);
    } else {
      FragmentSays(mtu, local, remote, lPort, rPort, payload, ipid, k);
    }
    Ip.HeaderLayout(p.ip);
    SameHead(Ip.HeaderBytes(p.ip), p.data);
  }

  lemma SameHead(header: seq<byte>, data: seq<byte>)
    requires |header| == 20
    ensures var w := header + data;
            && (forall i :: 0 <= i < 20 ==> w[i] == header[i]) && w[..20] == header && w[20..] == data
            && w[2..4] == header[2..4] && w[4..6] == header[4..6] && w[12..16] == header[12..16]
            && w[16..20] == header[16..20]
  {
  }

  // ---- the transport side

  /** A response's datagram parses back to the payload, and its checksum verifies over all of it: with the
      addresses, protocol number 17 and its own length its words add up to a multiple of 65535. */
  lemma DatagramRoundTrip(src: IP4, dst: IP4, srcPort: u16, dstPort: u16, payload: seq<byte>)
    requires |payload| <= MAX_PAYLOAD
    ensures var d := Datagram(src, dst, srcPort, dstPort, payload);
            && Udp.Parse(d)
               == Udp.Parsed(srcPort, dstPort, |d|, DatagramChecksum(src, dst, srcPort, dstPort, payload), payload)
            && Ip.ReceiverSum(src, dst, Ip.PROTO_UDP, d) == 0
            && (InternetChecksum.FieldSum(src) + InternetChecksum.FieldSum(dst) + 17 + |d|
                + InternetChecksum.FieldSum(d)) % 0xffff == 0
  {
    var n := 8 + |payload|;
    var length := Udp.LengthField(payload);
    Small16(n);
    assert length == n;
    hide InternetChecksum.Of, InternetChecksum.FieldSum, Ip.PseudoBytes, Udp.LengthField, Udp.Parse, Udp.RawHeader;
    Udp.DatagramRoundTrip(srcPort, dstPort, length, DatagramChecksum(src, dst, srcPort, dstPort, payload), payload);
    InternetChecksum.SelfVerifyingInside(Ip.PseudoBytes(src, dst, Ip.PROTO_UDP, n),
                                         Udp.RawHeader(srcPort, dstPort, length), payload, 3);
    Ip.ReceiverChecks(src, dst, Ip.PROTO_UDP, Datagram(src, dst, srcPort, dstPort, payload));
  }
}
