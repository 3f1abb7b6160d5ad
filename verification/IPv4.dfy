/** IPv4 headers: `packet/ip4.go` (RFC 791), for headers built without options. */
module IPv4 {
  import opened Bytes
  import opened Buffers
  import InternetChecksum

  const PROTO_TCP: byte := 6
  const PROTO_UDP: byte := 17
  const PSEUDO_LENGTH := 12

  /** A packet that has at least a fixed header, as the tun device delivers them. */
  type Bytes20 = s: seq<byte> | |s| >= 20 witness Zeros(20)

  /** What a header says, as the parser reports it. */
  datatype Header = Header(version: byte, ihl: byte, tos: byte, length: u16, id: u16, flags: byte,
                           fragOffset: u16, ttl: byte, protocol: byte, checksum: u16, src: IP4, dst: IP4)

  /** Bitwise or of naturals, for `flags << 13 | fragOffset`. */
  function Or(a: nat, b: nat): nat {
    if a == 0 && b == 0 then 0
    else (if a % 2 == 1 || b % 2 == 1 then 1 else 0) + 2 * Or(a / 2, b / 2)
  }

  lemma {:induction false} OrZero(a: nat)
    ensures Or(a, 0) == a
  {
    if a > 0 {
      OrZero(a / 2);
    }
  }

  lemma {:induction false} OrBound(a: nat, b: nat)
    requires a < 8 && b < 8
    ensures Or(a, b) < 8
  {
    assert Or(a / 2 / 2 / 2, b / 2 / 2 / 2) == 0;
    assert Or(a / 2 / 2, b / 2 / 2) < 2;
    assert Or(a / 2, b / 2) < 4;
  }

  function FlagsFrags(flags: byte, fragOffset: u16): u16 {
    OrBound(flags % 8, fragOffset / 0x2000);
    Or(flags % 8, fragOffset / 0x2000) * 0x2000 + fragOffset % 0x2000
  }

  function FirstFields(h: Header): (s: seq<byte>)
    ensures |s| == 8
  {
    Pair(h.version * 16 % 256 + h.ihl % 16, h.tos) + Put16(h.length) + Put16(h.id)
    + Put16(FlagsFrags(h.flags, h.fragOffset))
  }

  function LastFields(h: Header): (s: seq<byte>)
    ensures |s| == 12
  {
    Pair(h.ttl, h.protocol) + Pair(0, 0) + h.src + h.dst
  }

  /** The 20 header bytes with a zero checksum field. */
  function RawHeader(h: Header): (s: seq<byte>)
    ensures |s| == 20
  {
    FirstFields(h) + LastFields(h)
  }

  function HeaderBytes(h: Header): (s: seq<byte>)
    ensures |s| == 20
  {
    var raw := RawHeader(h);
    var c := InternetChecksum.Of([raw]);
    raw[10 := c / 256][11 := c % 256]
  }

  /** The pseudo-header that transport checksums cover (RFC 793, section 3.1). */
  function PseudoBytes(src: IP4, dst: IP4, proto: byte, dataLen: nat): (s: seq<byte>)
    ensures |s| == PSEUDO_LENGTH
  {
    var n := dataLen % 0x1_0000;
    src + dst + Pair(0, proto) + Put16(n)
  }

  /** What a receiver sums to check a segment or datagram that it got from `src`. */
  function ReceiverSum(src: IP4, dst: IP4, proto: byte, data: seq<byte>): u16 {
    InternetChecksum.Of([PseudoBytes(src, dst, proto, |data|) + data])
  }

  /** The fixed part of a header, which the parser stores before checking anything. */
  function DecodeFixed(pkt: seq<byte>): Header
    requires |pkt| >= 20
  {
    var ff := Get16(pkt[6], pkt[7]);
    Header(pkt[0] / 16, pkt[0] % 16, pkt[1], Get16(pkt[2], pkt[3]), Get16(pkt[4], pkt[5]),
           ff / 0x2000, ff % 0x2000, pkt[8], pkt[9], Get16(pkt[10], pkt[11]), pkt[12..16], pkt[16..20])
  }

  /** Does the option list of a header parse? */
  predicate OptionsOk(rest: seq<byte>) {
    |rest| > 0 ==>
      if rest[0] <= 1 then OptionsOk(rest[1..])
      else |rest| > 1 && 2 <= rest[1] <= |rest| && OptionsOk(rest[rest[1]..])
  }

  /** The header checks that come before the payload is sliced out. */
  predicate LengthsOk(pkt: seq<byte>)
    requires |pkt| >= 20
  {
    var h := DecodeFixed(pkt);
    h.length >= 20 && h.ihl >= 5 && h.ihl * 4 <= h.length && h.ihl * 4 <= |pkt|
  }

  predicate ParseOk(pkt: seq<byte>)
    requires |pkt| >= 20
  {
    LengthsOk(pkt) && OptionsOk(pkt[20..DecodeFixed(pkt).ihl * 4])
  }

  /** Does the walk over an option list panic? `room` is what the buffer holds from its first byte on: the bound
      of a slice is checked against that. */
  predicate OptionsPanic(rest: seq<byte>, room: nat)
    requires |rest| <= room
  {
    && |rest| > 0
    && if rest[0] <= 1 then OptionsPanic(rest[1..], room - 1)
       else |rest| < 2 || rest[1] < 2 || rest[1] > room
            || (rest[1] <= |rest| && OptionsPanic(rest[rest[1]..], room - rest[1]))
  }

  /** Does the parser panic on a packet in a buffer that goes on? A packet of less than 10 bytes has no protocol
      field; what a longer one lacks of a fixed header is read behind it, and then its length is an error. */
  predicate Crashes(pkt: seq<byte>, beyond: seq<byte>) {
    || |pkt| < 10 || |pkt + beyond| < 20
    || (|pkt| >= 20 && LengthsOk(pkt) && OptionsPanic(pkt[20..DecodeFixed(pkt).ihl * 4], |pkt + beyond| - 20))
  }

  /** No step leads on from here: a kind without its length, or a length that no slice can have. */
  predicate Stuck(rest: seq<byte>, room: nat) {
    rest != [] && rest[0] >= 2 && (|rest| == 1 || rest[1] < 2 || rest[1] > room)
  }

  /** The first `k` bytes are whole options, and behind them the walk is stuck. */
  predicate StuckAfter(rest: seq<byte>, room: nat, k: nat)
    requires k <= |rest| <= room
  {
    OptionsOk(rest[..k]) && Stuck(rest[k..], room - k)
  }

  predicate GetsStuck(rest: seq<byte>, room: nat)
    requires |rest| <= room
  {
    exists k :: 0 <= k <= |rest| && StuckAfter(rest, room, k)
  }

  lemma OneOptionOn(rest: seq<byte>, room: nat, n: nat, k: nat)
    requires 0 < n && n + k <= |rest| <= room && n == if rest[0] <= 1 then 1 else if |rest| > 1 then rest[1] else 0
    requires rest[0] > 1 ==> n >= 2
    ensures StuckAfter(rest, room, n + k) <==> StuckAfter(rest[n..], room - n, k)
  {
    assert rest[..n + k][n..] == rest[n..][..k] && rest[n + k..] == rest[n..][k..];
  }

  lemma TooShort(rest: seq<byte>, room: nat, k: nat)
    requires k <= |rest| <= room && rest != [] && !Stuck(rest, room) && StuckAfter(rest, room, k)
    ensures k >= if rest[0] <= 1 then 1 else rest[1]
  {
    assert rest[0..] == rest;
  }

  /** The option walk panics exactly where a list of whole options stops at such a place. */
  lemma {:induction false} OptionsPanicIff(rest: seq<byte>, room: nat)
    requires |rest| <= room
    ensures OptionsPanic(rest, room) <==> GetsStuck(rest, room)
    decreases |rest|
  {
    hide StuckAfter, OptionsOk;
    if Stuck(rest, room) {
      NothingBefore(rest, room);
    } else if rest != [] {
      var n := if rest[0] <= 1 then 1 else rest[1];
      if n <= |rest| {
        OptionsPanicIff(rest[n..], room - n);
        if OptionsPanic(rest, room) {
          var k :| 0 <= k <= |rest| - n && StuckAfter(rest[n..], room - n, k);
          OneOptionOn(rest, room, n, k);
        }
      }
      forall k | 0 <= k <= |rest| && StuckAfter(rest, room, k) ensures OptionsPanic(rest, room) {
        TooShort(rest, room, k);
        OneOptionOn(rest, room, n, k - n);
        assert StuckAfter(rest[n..], room - n, k - n);
      }
    } else {
      NotStuck(room);
    }
  }

  lemma NothingBefore(rest: seq<byte>, room: nat)
    requires |rest| <= room && Stuck(rest, room)
    ensures StuckAfter(rest, room, 0)
  {
    assert rest[0..] == rest;
  }

  lemma NotStuck(room: nat)
    ensures !StuckAfter([], room, 0)
  {
  }

  /** The length fields of a packet: the header has at least five words, and ends within the total length and within
      the packet. */
  predicate Fits(pkt: seq<byte>) {
    && |pkt| >= 20
    && var words, total := (pkt[0] as int) % 16, Number(pkt[2..4]);
    5 <= words && words * 4 <= total && words * 4 <= |pkt|
  }

  /** What the parser makes of any packet in any buffer: a panic if not all fixed fields are there to be read, or if
      the options of a header that fits stop where no step leads on; otherwise it accepts exactly the headers that
      fit and have whole options. */
  lemma ParserOutcome(pkt: seq<byte>, beyond: seq<byte>)
    ensures Crashes(pkt, beyond) <==>
              || |pkt| < 10 || |pkt| + |beyond| < 20
              || (Fits(pkt) && GetsStuck(pkt[20..(pkt[0] as int) % 16 * 4], |pkt| + |beyond| - 20))
    ensures |pkt| >= 20 ==>
              (ParseOk(pkt) <==> Fits(pkt) && OptionsOk(pkt[20..(pkt[0] as int) % 16 * 4]))
  {
    hide OptionsOk, OptionsPanic, StuckAfter, Number;
    if |pkt| >= 20 {
      NumberOfTwo(pkt[2], pkt[3]);
      assert pkt[2..4] == [pkt[2], pkt[3]];
      if LengthsOk(pkt) {
        var options, room := pkt[20..DecodeFixed(pkt).ihl * 4], |pkt + beyond| - 20;
        OptionsPanicIff(options, room);
      }
    }
  }

  /** Everything after the header: the parser does not cut it at the header's length field. */
  function PayloadOf(pkt: seq<byte>): seq<byte>
    requires |pkt| >= 20 && LengthsOk(pkt)
  {
    pkt[DecodeFixed(pkt).ihl * 4..]
  }

  lemma SameFixed(a: Bytes20, b: Bytes20)
    requires a <= b
    ensures DecodeFixed(b) == DecodeFixed(a)
    ensures LengthsOk(a) ==> LengthsOk(b)
  {
    assert forall i :: 0 <= i < 20 ==> a[i] == b[i];
    assert a[12..16] == b[12..16] && a[16..20] == b[16..20];
  }

  class IPv4 {
    var Version: byte
    var IHL: byte
    var TOS: byte
    var Length: u16
    var Id: u16
    var Flags: byte
    var FragOffset: u16
    var TTL: byte
    var Protocol: byte
    var Checksum: u16
    var SrcIP: IP4
    var DstIP: IP4
    var Payload: seq<byte>
    var headerLength: nat

    function View(): Header
      reads this`Version, this`IHL, this`TOS, this`Length, this`Id, this`Flags, this`FragOffset
      reads this`TTL, this`Protocol, this`Checksum, this`SrcIP, this`DstIP
    {
      Header(Version, IHL, TOS, Length, Id, Flags, FragOffset, TTL, Protocol, Checksum, SrcIP, DstIP)
    }

    constructor ()
      ensures View() == Header(0, 0, 0, 0, 0, 0, 0, 0, 0, 0, [0, 0, 0, 0], [0, 0, 0, 0])
      ensures Payload == [] && headerLength == 0
    {
      Version, IHL, TOS, Length, Id, Flags, FragOffset := 0, 0, 0, 0, 0, 0, 0;
      TTL, Protocol, Checksum, headerLength := 0, 0, 0, 0;
      SrcIP, DstIP, Payload := [0, 0, 0, 0], [0, 0, 0, 0], [];
    }

    /** `crashed` stands for a panic; `beyond` is what the buffer of the packet holds behind it. */
    method ParseIPv4(pkt: seq<byte>, beyond: seq<byte>) returns (ok: bool, crashed: bool)
      modifies this
      ensures crashed == Crashes(pkt, beyond)
      ensures ok == (!crashed && |pkt| >= 20 && ParseOk(pkt))
      ensures !crashed ==> View() == DecodeFixed(pkt + beyond)
      ensures ok ==> Payload == PayloadOf(pkt)
      ensures headerLength == old(headerLength)
    {
      hide Get16;
      if |pkt| < 10 || |pkt + beyond| < 20 {
        return false, true;
      }
      ReadFixed(pkt + beyond);
      if |pkt| < 20 {
        assert IHL * 4 > |pkt| || IHL < 5;
      } else {
        SameFixed(pkt, pkt + beyond);
      }
      if Length < 20 || IHL < 5 || IHL * 4 > Length || IHL * 4 > |pkt| {
        return false, false;
      }
      Payload := pkt[IHL * 4..];
      ok, crashed := WalkOptions(pkt[20..IHL * 4], |pkt + beyond| - 20);
    }

    /** The option loop of `ParseIPv4`. */
    method WalkOptions(options: seq<byte>, capacity: nat) returns (ok: bool, crashed: bool)
      requires |options| <= capacity
      ensures crashed == OptionsPanic(options, capacity)
      ensures ok == (!crashed && OptionsOk(options))
    {
      var rest, room := options, capacity;
      while |rest| > 0
        invariant |rest| <= room
        invariant OptionsOk(rest) == OptionsOk(options) && OptionsPanic(rest, room) == OptionsPanic(options, capacity)
        decreases |rest|
      {
        var optionLength := 1;
        if rest[0] > 1 {
          if |rest| < 2 || rest[1] < 2 || rest[1] > room {
            return false, true;
          }
          optionLength := rest[1];
        }
        if |rest| < optionLength {
          return false, false;
        }
        rest, room := rest[optionLength..], room - optionLength;
      }
      ok, crashed := true, false;
    }

    /** The statements of `ParseIPv4` before the checks. */
    method ReadFixed(pkt: seq<byte>)
      requires |pkt| >= 20
      modifies this
      ensures View() == DecodeFixed(pkt)
      ensures Payload == old(Payload) && headerLength == old(headerLength)
    {
      var flagsfrags := Get16(pkt[6], pkt[7]);
      Version := pkt[0] / 16;
      IHL := pkt[0] % 16;
      TOS := pkt[1];
      Length := Get16(pkt[2], pkt[3]);
      Id := Get16(pkt[4], pkt[5]);
      Flags := flagsfrags / 0x2000;
      FragOffset := flagsfrags % 0x2000;
      TTL := pkt[8];
      Protocol := pkt[9];
      Checksum := Get16(pkt[10], pkt[11]);
      SrcIP := pkt[12..16];
      DstIP := pkt[16..20];
    }

    method PseudoHeader(buf: array<byte>, lo: nat, hi: nat, proto: byte, dataLen: nat) returns (ok: bool)
      requires lo <= hi <= buf.Length
      modifies buf
      ensures ok == (hi - lo == PSEUDO_LENGTH)
      ensures !ok ==> buf[..] == old(buf[..])
      ensures ok ==> buf[..lo] == old(buf[..lo]) && buf[hi..] == old(buf[hi..])
      ensures ok ==> buf[lo..hi] == PseudoBytes(SrcIP, DstIP, proto, dataLen)
    {
      if hi - lo != PSEUDO_LENGTH {
        return false;
      }
      Put(buf, lo, hi, lo, SrcIP);
      Put(buf, lo, hi, lo + 4, DstIP);
      Put(buf, lo, hi, lo + 8, Pair(0, proto));
      Put(buf, lo, hi, lo + 10, Put16(dataLen % 0x1_0000));
      ok := true;
    }

    method HeaderLength() returns (n: nat)
      requires headerLength == 0 || headerLength == 20
      modifies this`IHL, this`headerLength
      ensures n == headerLength == 20
      ensures View() == old(View()).(ihl := if old(headerLength) == 0 then 5 else old(IHL))
    {
      if headerLength == 0 {
        IHL := 5;
        headerLength := 20;
      }
      n := headerLength;
    }

    /** The header as `Serialize` writes it: length and header length filled in, checksum computed over the rest. */
    function Outgoing(dataLen: nat): Header
      reads this`Version, this`IHL, this`TOS, this`Length, this`Id, this`Flags, this`FragOffset
      reads this`TTL, this`Protocol, this`Checksum, this`SrcIP, this`DstIP
    {
      View().(ihl := 5, length := (20 + dataLen) % 0x1_0000)
    }

    method Serialize(hdr: array<byte>, lo: nat, hi: nat, dataLen: nat) returns (ok: bool)
      requires lo <= hi <= hdr.Length
      requires headerLength == 0 || (headerLength == 20 && IHL == 5)
      modifies this`IHL, this`headerLength, this`Length, this`Checksum, hdr
      ensures ok == (hi - lo == 20) && headerLength == 20 && IHL == 5
      ensures !ok ==> hdr[..] == old(hdr[..]) && View() == old(View()).(ihl := 5)
      ensures ok ==> hdr[..lo] == old(hdr[..lo]) && hdr[hi..] == old(hdr[hi..])
      ensures ok ==> hdr[lo..hi] == HeaderBytes(old(Outgoing(dataLen)))
      ensures ok ==> Length == (20 + dataLen) % 0x1_0000
                     && Checksum == InternetChecksum.Of([RawHeader(old(Outgoing(dataLen)))])
    {
      var length := HeaderLength();
      if hi - lo != length {
        return false;
      }
      WriteFirst(hdr, lo, hi, dataLen);
      ghost var s1 := hdr[..];
      WriteLast(hdr, lo, hi);
      ghost var s2 := hdr[..];
      Keep(s2, s1, lo + 8, 0, lo);
      Keep(s2, s1, lo + 8, lo, lo + 8);
      assert hdr[lo..hi] == s2[lo..lo + 8] + s2[lo + 8..hi];
      Checksum := InternetChecksum.Checksum([hdr[lo..hi]]);
      PutUint16(hdr, lo, hi, 10, Checksum);
      ok := true;
    }

    /** The statements of `Serialize` up to the fragment word. */
    method WriteFirst(hdr: array<byte>, lo: nat, hi: nat, dataLen: nat)
      requires lo + 20 == hi <= hdr.Length
      requires headerLength == 20 && IHL == 5
      modifies this`Length, hdr
      ensures Length == (20 + dataLen) % 0x1_0000
      ensures hdr[lo..lo + 8] == FirstFields(old(Outgoing(dataLen)))
      ensures hdr[..lo] == old(hdr[..lo]) && hdr[hi..] == old(hdr[hi..])
    {
      Length := (headerLength + dataLen) % 0x1_0000;
      Put(hdr, lo, hi, lo, Pair(Version * 16 % 256 + IHL, TOS));
      Put(hdr, lo, hi, lo + 2, Put16(Length));
      Put(hdr, lo, hi, lo + 4, Put16(Id));
      Put(hdr, lo, hi, lo + 6, Put16(FlagsFrags(Flags, FragOffset)));
    }

    /** The statements of `Serialize` between the fragment word and the checksum. */
    method WriteLast(hdr: array<byte>, lo: nat, hi: nat)
      requires lo + 20 == hi <= hdr.Length
      modifies hdr
      ensures hdr[lo + 8..hi] == LastFields(View())
      ensures hdr[..lo + 8] == old(hdr[..lo + 8]) && hdr[hi..] == old(hdr[hi..])
    {
      Put(hdr, lo + 8, hi, lo + 8, Pair(TTL, Protocol));
      Put(hdr, lo + 8, hi, lo + 10, Pair(0, 0));
      Put(hdr, lo + 8, hi, lo + 12, SrcIP);
      Put(hdr, lo + 8, hi, lo + 16, DstIP);
    }
  }

  /** A header the code builds: a 4-bit version, no options, 3 flag bits and a 13-bit offset. */
  predicate Buildable(h: Header) {
    h.version < 16 && h.ihl == 5 && h.flags < 8 && h.fragOffset < 0x2000 && h.length >= 20
  }

  lemma FlagsFragsSplit(flags: byte, fragOffset: u16)
    requires flags < 8 && fragOffset < 0x2000
    ensures FlagsFrags(flags, fragOffset) == flags * 0x2000 + fragOffset
  {
    assert flags % 8 == flags && fragOffset / 0x2000 == 0 && fragOffset % 0x2000 == fragOffset;
    OrZero(flags);
  }

  lemma FragmentWordComesBack(flags: byte, fragOffset: u16)
    requires flags < 8 && fragOffset < 0x2000
    ensures FlagsFrags(flags, fragOffset) / 0x2000 == flags && FlagsFrags(flags, fragOffset) % 0x2000 == fragOffset
  {
    FlagsFragsSplit(flags, fragOffset);
  }

  lemma FirstDecode(h: Header)
    requires Buildable(h)
    ensures var p := FirstFields(h);
            && p[0] / 16 == h.version && p[0] % 16 == h.ihl && p[1] == h.tos
            && Get16(p[2], p[3]) == h.length && Get16(p[4], p[5]) == h.id
            && Get16(p[6], p[7]) == FlagsFrags(h.flags, h.fragOffset)
  {
    NibblesComeBack(h.version);
    Get16Put16(h.length);
    Get16Put16(h.id);
    Get16Put16(FlagsFrags(h.flags, h.fragOffset));
  }

  lemma LastDecode(h: Header)
    ensures var p := LastFields(h);
            p[0] == h.ttl && p[1] == h.protocol && p[4..8] == h.src && p[8..12] == h.dst
  {
  }

  /** Parsing inverts serializing. */
  lemma FieldsComeBack(h: Header, payload: seq<byte>)
    requires Buildable(h)
    ensures DecodeFixed(HeaderBytes(h) + payload) == h.(checksum := InternetChecksum.Of([RawHeader(h)]))
  {
    var wire := HeaderBytes(h) + payload;
    var p, q := FirstFields(h), LastFields(h);
    FirstDecode(h);
    LastDecode(h);
    FragmentWordComesBack(h.flags, h.fragOffset);
    assert forall i :: 0 <= i < 8 ==> wire[i] == p[i];
    assert wire[8] == q[0] && wire[9] == q[1];
    assert wire[12..16] == q[4..8] && wire[16..20] == q[8..12];
  }

  lemma NibblesComeBack(version: byte)
    requires version < 16
    ensures (version * 16 % 256 + 5) / 16 == version && (version * 16 % 256 + 5) % 16 == 5
  {
    assert version * 16 % 256 == version * 16;
  }

  /** A serialized header parses back to its fields, leaves the rest as payload, and verifies. */
  lemma HeaderRoundTrip(h: Header, payload: seq<byte>)
    requires Buildable(h)
    ensures var wire := HeaderBytes(h) + payload;
            && ParseOk(wire)
            && DecodeFixed(wire) == h.(checksum := InternetChecksum.Of([RawHeader(h)]))
            && PayloadOf(wire) == payload
            && InternetChecksum.Of([HeaderBytes(h)]) == 0
  {
    FieldsComeBack(h, payload);
    var wire := HeaderBytes(h) + payload;
    assert wire[20..20] == [];
    InternetChecksum.SelfVerifying(RawHeader(h), 5);
  }

  /** The header that `Serialize` writes for `dataLen` bytes of data. */
  function Announcing(ip: Header, dataLen: nat): Header {
    ip.(ihl := 5, length := (20 + dataLen) % 0x1_0000)
  }

  /** A built packet parses, carries exactly its data, announces its own length, and its header verifies. */
  lemma PacketParses(ip: Header, data: seq<byte>)
    requires ip.version < 16 && ip.flags < 8 && ip.fragOffset < 0x2000
    requires 20 + |data| <= 0xffff
    ensures var wire := HeaderBytes(Announcing(ip, |data|)) + data;
            && ParseOk(wire)
            && DecodeFixed(wire) == ip.(ihl := 5, length := |wire|, checksum := DecodeFixed(wire).checksum)
            && PayloadOf(wire) == data
            && InternetChecksum.Of([wire[..20]]) == 0
  {
    Small16(20 + |data|);
    var h := Announcing(ip, |data|);
    HeaderRoundTrip(h, data);
    assert (HeaderBytes(h) + data)[..20] == HeaderBytes(h);
  }

  // ---- on the wire

  /** What a receiver checks: the words of the addresses, the protocol number, the length and the data add up to a
      multiple of 65535. */
  lemma ReceiverChecks(src: IP4, dst: IP4, proto: byte, data: seq<byte>)
    requires |data| <= 0xffff && proto > 0
    ensures ReceiverSum(src, dst, proto, data) == 0 <==>
              (InternetChecksum.FieldSum(src) + InternetChecksum.FieldSum(dst) + proto + |data|
               + InternetChecksum.FieldSum(data)) % 0xffff == 0
  {
    hide InternetChecksum.Of, InternetChecksum.FieldSum, PseudoBytes;
    PseudoSum(src, dst, proto, |data|);
    var pseudo := PseudoBytes(src, dst, proto, |data|);
    InternetChecksum.SumConcat(pseudo, data, 6);
    InternetChecksum.VerifiesIff(pseudo + data);
  }

  lemma PseudoSum(src: IP4, dst: IP4, proto: byte, n: nat)
    requires n <= 0xffff
    ensures InternetChecksum.FieldSum(PseudoBytes(src, dst, proto, n))
            == InternetChecksum.FieldSum(src) + InternetChecksum.FieldSum(dst) + proto + n
  {
    hide InternetChecksum.FieldSum;
    Small16(n);
    InternetChecksum.OneWord(0, proto);
    InternetChecksum.OneWord(n / 256, n % 256);
    InternetChecksum.SumConcat(Pair(0, proto), Put16(n), 1);
    InternetChecksum.SumConcat(dst, Pair(0, proto) + Put16(n), 2);
    InternetChecksum.SumConcat(src, dst + (Pair(0, proto) + Put16(n)), 2);
    assert PseudoBytes(src, dst, proto, n) == src + (dst + (Pair(0, proto) + Put16(n)));
  }

  /** The header of RFC 791 section 3.1, byte for byte. */
  lemma HeaderLayout(h: Header)
    requires Buildable(h)
    ensures var w := HeaderBytes(h);
            && w[0] == h.version * 16 + 5 && w[1] == h.tos && Number(w[2..4]) == h.length && Number(w[4..6]) == h.id
            && Number(w[6..8]) == (h.flags as int) * 8192 + h.fragOffset
            && w[8] == h.ttl && w[9] == h.protocol && w[12..16] == h.src && w[16..20] == h.dst
            && InternetChecksum.FieldSum(w) % 0xffff == 0
  {
    hide InternetChecksum.Of, InternetChecksum.FieldSum, FlagsFrags, Put16, Number;
    var w, ff := HeaderBytes(h), FlagsFrags(h.flags, h.fragOffset);
    HeaderVerifies(h);
    FlagsFragsSplit(h.flags, h.fragOffset);
    assert w[2..4] == Put16(h.length) && w[4..6] == Put16(h.id) && w[6..8] == Put16(ff);
    assert w[12..16] == h.src && w[16..20] == h.dst;
    NumberOfWord(h.length);
    NumberOfWord(h.id);
    NumberOfWord(ff);
  }

  lemma HeaderVerifies(h: Header)
    ensures InternetChecksum.Of([HeaderBytes(h)]) == 0 && InternetChecksum.FieldSum(HeaderBytes(h)) % 0xffff == 0
  {
    hide InternetChecksum.Of, InternetChecksum.FieldSum;
    InternetChecksum.SelfVerifying(RawHeader(h), 5);
    InternetChecksum.VerifiesIff(HeaderBytes(h));
  }
}
