/** UDP headers: `packet/udp.go` (RFC 768). */
module UdpDatagram {
  import opened Bytes
  import opened Buffers
  import InternetChecksum

  /** What the parser makes of a datagram: the length field is not compared with the data. */
  datatype Parsed = TooSmall | Parsed(srcPort: u16, dstPort: u16, length: u16, checksum: u16, payload: seq<byte>)

  function LengthField(payload: seq<byte>): u16 {
    (|payload| % 0x1_0000 + 8) % 0x1_0000
  }

  /** The length is counted in 16 bits. */
  lemma LengthWraps(payload: seq<byte>)
    ensures LengthField(payload) == (8 + |payload|) % 65536
  {
    var n := |payload|;
    assert 8 + n == 65536 * (n / 65536) + (n % 65536 + 8);
    var d := (8 + n) / 65536 - n / 65536 - (n % 65536 + 8) / 65536;
    assert 65536 * d == (n % 65536 + 8) % 65536 - (8 + n) % 65536;
  }

  /** The header with a zero checksum field. */
  function RawHeader(srcPort: u16, dstPort: u16, length: u16): (s: seq<byte>)
    ensures |s| == 8 && s[6] == s[7] == 0
  {
    Put16(srcPort) + Put16(dstPort) + Put16(length) + Pair(0, 0)
  }

  function WithChecksum(srcPort: u16, dstPort: u16, length: u16, c: u16): (s: seq<byte>)
    ensures |s| == 8
  {
    RawHeader(srcPort, dstPort, length)[6 := c / 256][7 := c % 256]
  }

  function Parse(pkt: seq<byte>): Parsed {
    if |pkt| < 8 then TooSmall
    else Parsed(Get16(pkt[0], pkt[1]), Get16(pkt[2], pkt[3]), Get16(pkt[4], pkt[5]), Get16(pkt[6], pkt[7]), pkt[8..])
  }

  lemma HeaderDecode(srcPort: u16, dstPort: u16, length: u16)
    ensures var p := RawHeader(srcPort, dstPort, length);
            Get16(p[0], p[1]) == srcPort && Get16(p[2], p[3]) == dstPort && Get16(p[4], p[5]) == length
  {
    Get16Put16(srcPort);
    Get16Put16(dstPort);
    Get16Put16(length);
  }

  /** Parsing inverts serializing. */
  lemma DatagramRoundTrip(srcPort: u16, dstPort: u16, length: u16, c: u16, payload: seq<byte>)
    ensures Parse(WithChecksum(srcPort, dstPort, length, c) + payload) == Parsed(srcPort, dstPort, length, c, payload)
  {
    var p := RawHeader(srcPort, dstPort, length);
    var s := WithChecksum(srcPort, dstPort, length, c) + payload;
    HeaderDecode(srcPort, dstPort, length);
    assert forall i :: 0 <= i < 6 ==> s[i] == p[i];
    assert s[8..] == payload;
  }

  /** The header of RFC 768, byte for byte. */
  lemma HeaderLayout(srcPort: u16, dstPort: u16, length: u16, c: u16)
    ensures var w := WithChecksum(srcPort, dstPort, length, c);
            && Number(w[0..2]) == srcPort && Number(w[2..4]) == dstPort
            && Number(w[4..6]) == length && Number(w[6..8]) == c
  {
    var w := WithChecksum(srcPort, dstPort, length, c);
    assert w[0..2] == Put16(srcPort) && w[2..4] == Put16(dstPort) && w[4..6] == Put16(length) && w[6..8] == Put16(c);
    NumberOfWord(srcPort);
    NumberOfWord(dstPort);
    NumberOfWord(length);
    NumberOfWord(c);
  }

  class UDP {
    var SrcPort: u16
    var DstPort: u16
    var Length: u16
    var Checksum: u16
    var Payload: seq<byte>

    /** `NewUDP` returns a zeroed header. */
    constructor ()
      ensures SrcPort == DstPort == Length == Checksum == 0 && Payload == []
    {
      SrcPort, DstPort, Length, Checksum, Payload := 0, 0, 0, 0, [];
    }

    method ParseUDP(pkt: seq<byte>) returns (ok: bool)
      modifies this
      ensures ok == Parse(pkt).Parsed?
      ensures ok ==> Parsed(SrcPort, DstPort, Length, Checksum, Payload) == Parse(pkt)
    {
      if |pkt| < 8 {
        return false;
      }
      SrcPort := Get16(pkt[0], pkt[1]);
      DstPort := Get16(pkt[2], pkt[3]);
      Length := Get16(pkt[4], pkt[5]);
      Checksum := Get16(pkt[6], pkt[7]);
      if |pkt| > 8 {
        Payload := pkt[8..];
      } else {
        Payload := [];
      }
      ok := true;
    }

    /** Writes the header into `buf[lo..hi]`; the checksum covers `buf[from..hi]` and then `Payload`. */
    method Serialize(buf: array<byte>, lo: nat, hi: nat, from: nat) returns (ok: bool)
      requires from <= lo <= hi <= buf.Length
      modifies this`Length, this`Checksum, buf
      ensures ok == (hi - lo == 8)
      ensures !ok ==> buf[..] == old(buf[..])
      ensures ok ==> buf[..lo] == old(buf[..lo]) && buf[hi..] == old(buf[hi..])
      ensures ok ==> Length == LengthField(Payload)
      ensures ok ==> Checksum
                     == InternetChecksum.Of([old(buf[from..lo]) + RawHeader(SrcPort, DstPort, Length), Payload])
      ensures ok ==> buf[lo..hi] == WithChecksum(SrcPort, DstPort, Length, Checksum)
    {
      hide Put16, Pair, InternetChecksum.Of;
      if hi - lo != 8 {
        return false;
      }
      Length := (|Payload| % 0x1_0000 + 8) % 0x1_0000;
      Put(buf, lo, hi, lo, Put16(SrcPort));
      Put(buf, lo, hi, lo + 2, Put16(DstPort));
      Put(buf, lo, hi, lo + 4, Put16(Length));
      Put(buf, lo, hi, lo + 6, Pair(0, 0));
      Splice(buf[..], old(buf[..]), from, lo, hi, hi);
      assert buf[from..hi] == old(buf[from..lo]) + RawHeader(SrcPort, DstPort, Length);
      Checksum := InternetChecksum.Checksum([buf[from..hi], Payload]);
      PutUint16(buf, lo, hi, 6, Checksum);
      ok := true;
    }
  }
}
