/** TCP headers: `packet/tcp.go` (RFC 793, section 3.1). */
module TcpSegment {
  import opened Bytes
  import opened Buffers
  import opened Wrappers
  import InternetChecksum
  import N = ServerName
  import H = HttpHost

  /** The length octet of an option is a byte, so its data has at most 253 bytes. */
  datatype TcpOption_ = TcpOption(kind: byte, data: seq<byte>)
  type TcpOption = o: TcpOption_ | |o.data| <= 253 witness TcpOption(0, [])

  datatype Flags = Flags(FIN: bool, SYN: bool, RST: bool, PSH: bool, ACK: bool, URG: bool,
                         ECE: bool, CWR: bool, NS: bool)

  datatype Header = Header(srcPort: u16, dstPort: u16, seqNo: u32, ackNo: u32, flags: Flags, window: u16, urgent: u16,
                           options: seq<TcpOption>)

  /** What the parser makes of a segment: an error, a panic, or a header. */
  datatype Parsed = Malformed | Crashed | Parsed(header: Header, dataOffset: byte, checksum: u16, payload: seq<byte>)

  // ---- lengths

  function OptionLen(o: TcpOption): nat {
    if o.kind <= 1 then 1 else 2 + |o.data|
  }

  function OptionsLen(os: seq<TcpOption>): nat {
    if os == [] then 0 else OptionLen(os[0]) + OptionsLen(os[1..])
  }

  /** The code pads by the remainder itself, not by its complement to 4. */
  function HeaderLen(os: seq<TcpOption>): nat {
    20 + OptionsLen(os) + OptionsLen(os) % 4
  }

  function DataOffsetOf(os: seq<TcpOption>): byte {
    HeaderLen(os) / 4 % 256
  }

  // ---- encoding

  function OptionBytes(o: TcpOption): (s: seq<byte>)
    ensures |s| == OptionLen(o)
  {
    if o.kind <= 1 then [o.kind] else Pair(o.kind, 2 + |o.data|) + o.data
  }

  function OptionsBytes(os: seq<TcpOption>): (s: seq<byte>)
    ensures |s| == OptionsLen(os)
  {
    if os == [] then [] else OptionBytes(os[0]) + OptionsBytes(os[1..])
  }

  type bit = n: int | 0 <= n <= 1

  function B(b: bool): bit {
    if b then 1 else 0
  }

  function Weigh(f0: bit, f1: bit, f2: bit, f3: bit, f4: bit, f5: bit, f6: bit, f7: bit): byte {
    f0 + 2 * f1 + 4 * f2 + 8 * f3 + 16 * f4 + 32 * f5 + 64 * f6 + 128 * f7
  }

  function FlagByte(f: Flags): byte {
    Weigh(B(f.FIN), B(f.SYN), B(f.RST), B(f.PSH), B(f.ACK), B(f.URG), B(f.ECE), B(f.CWR))
  }

  /** `flagsAndOffset` as two bytes: the offset loses everything above four bits. */
  function OffsetByte(dataOffset: byte, f: Flags): byte {
    dataOffset % 16 * 16 + B(f.NS)
  }

  function Ports(h: Header): (s: seq<byte>)
    ensures |s| == 12
  {
    Put16(h.srcPort) + Put16(h.dstPort) + Put32(h.seqNo) + Put32(h.ackNo)
  }

  function Control(h: Header): (s: seq<byte>)
    ensures |s| == 8
  {
    Pair(OffsetByte(DataOffsetOf(h.options), h.flags), FlagByte(h.flags))
    + Put16(h.window) + Pair(0, 0) + Put16(h.urgent)
  }

  function Tail(h: Header): (s: seq<byte>)
    ensures |s| == HeaderLen(h.options) - 20
  {
    OptionsBytes(h.options) + Zeros(OptionsLen(h.options) % 4)
  }

  /** The header with a zero checksum field. */
  function RawHeader(h: Header): (s: seq<byte>)
    ensures |s| == HeaderLen(h.options)
  {
    Ports(h) + Control(h) + Tail(h)
  }

  /** The header with a given checksum. */
  function WithChecksum(h: Header, c: u16): (s: seq<byte>)
    ensures |s| == HeaderLen(h.options)
  {
    RawHeader(h)[16 := c / 256][17 := c % 256]
  }

  // ---- decoding

  predicate Bit(b: byte, weight: nat)
    requires weight > 0
  {
    b / weight % 2 == 1
  }

  function DecodeFlags(b12: byte, b13: byte): Flags {
    Flags(Bit(b13, 1), Bit(b13, 2), Bit(b13, 4), Bit(b13, 8), Bit(b13, 16), Bit(b13, 32), Bit(b13, 64), Bit(b13, 128),
          Bit(b12, 1))
  }

  datatype Walked = Bad | Crash | Walked(options: seq<TcpOption>)

  function Prepend(o: TcpOption, w: Walked): Walked {
    if w.Walked? then Walked([o] + w.options) else w
  }

  /** The option list: an end-of-list octet does not end the walk, and a length octet is read unchecked. */
  function Walk(rest: seq<byte>): Walked {
    if |rest| == 0 then Walked([])
    else if rest[0] <= 1 then Prepend(TcpOption(rest[0], []), Walk(rest[1..]))
    else if |rest| < 2 then Crash
    else if rest[1] < 2 || rest[1] > |rest| then Bad
    else Prepend(TcpOption(rest[0], rest[2..rest[1]]), Walk(rest[rest[1]..]))
  }

  function DecodeHeader(pkt: seq<byte>, options: seq<TcpOption>): Header
    requires |pkt| >= 20
  {
    Header(Get16(pkt[0], pkt[1]), Get16(pkt[2], pkt[3]),
           Get32(pkt[4], pkt[5], pkt[6], pkt[7]), Get32(pkt[8], pkt[9], pkt[10], pkt[11]),
           DecodeFlags(pkt[12], pkt[13]), Get16(pkt[14], pkt[15]), Get16(pkt[18], pkt[19]), options)
  }

  /** The data offset announces a whole header. */
  predicate OffsetOk(pkt: seq<byte>) {
    |pkt| >= 20 && 5 <= pkt[12] / 16 && pkt[12] / 16 * 4 <= |pkt|
  }

  /** What a segment says, as any reader of the header finds it. */
  function Decode(pkt: seq<byte>): Parsed {
    if !OffsetOk(pkt) then Malformed else
    var dataOffset := pkt[12] / 16;
    var dataStart := dataOffset * 4;
    var w := Walk(pkt[20..dataStart]);
    if w.Bad? then Malformed else
    if w.Crash? then Crashed else
    Parsed(DecodeHeader(pkt, w.options), dataOffset, Get16(pkt[16], pkt[17]), pkt[dataStart..])
  }

  /** On two ports the parser looks for a host name in the payload, which lies in a buffer that goes on. */
  function Lookup(port: u16, payload: seq<byte>, beyond: seq<byte>): Result<seq<byte>> {
    if port == 443 then N.Hostname(N.Slice(payload + beyond, |payload|))
    else if port == 80 then H.PlainHost(payload)
    else Error
  }

  /** The parser: the lookup comes before the options, and nothing recovers from its panic. */
  function Parse(pkt: seq<byte>, beyond: seq<byte>): Parsed {
    if OffsetOk(pkt) && Lookup(Get16(pkt[2], pkt[3]), pkt[pkt[12] / 16 * 4..], beyond).Panic? then Crashed
    else Decode(pkt)
  }

  // ---- round trip

  /** Options whose data the serializer writes: the one-byte kinds have none. */
  predicate Canonical(os: seq<TcpOption>) {
    forall i :: 0 <= i < |os| && os[i].kind <= 1 ==> os[i].data == []
  }

  function EndOfList(n: nat): seq<TcpOption> {
    if n == 0 then [] else [TcpOption(0, [])] + EndOfList(n - 1)
  }

  lemma {:induction false} WalkZeros(n: nat)
    ensures Walk(Zeros(n)) == Walked(EndOfList(n))
  {
    if n > 0 {
      assert Zeros(n)[1..] == Zeros(n - 1);
      WalkZeros(n - 1);
    }
  }

  /** The walk takes one encoded option off the front. */
  lemma WalkOne(o: TcpOption, rest: seq<byte>)
    requires o.kind <= 1 ==> o.data == []
    ensures Walk(OptionBytes(o) + rest) == Prepend(o, Walk(rest))
  {
    var bytes := OptionBytes(o) + rest;
    if o.kind <= 1 {
      assert bytes[1..] == rest;
    } else {
      var n := 2 + |o.data|;
      assert bytes[0] == o.kind && bytes[1] == n;
      assert bytes[2..n] == o.data;
      assert bytes[n..] == rest;
    }
  }

  /** Encoded options are walked over, whatever follows. */
  lemma {:induction false} WalkPast(os: seq<TcpOption>, rest: seq<byte>)
    requires Canonical(os)
    ensures Walk(OptionsBytes(os) + rest) == Join(os, Walk(rest))
  {
    if os == [] {
      assert OptionsBytes(os) + rest == rest;
      assert Walk(rest).Walked? ==> [] + Walk(rest).options == Walk(rest).options;
    } else {
      WalkPast(os[1..], rest);
      WalkOne(os[0], OptionsBytes(os[1..]) + rest);
      assert OptionsBytes(os) + rest == OptionBytes(os[0]) + (OptionsBytes(os[1..]) + rest);
      if Walk(rest).Walked? {
        HeadFirst(os, Walk(rest).options);
      }
    }
  }

  function Join(os: seq<TcpOption>, w: Walked): Walked {
    if w.Walked? then Walked(os + w.options) else w
  }

  lemma WalkInverts(os: seq<TcpOption>, n: nat)
    requires Canonical(os)
    ensures Walk(OptionsBytes(os) + Zeros(n)) == Walked(os + EndOfList(n))
  {
    WalkPast(os, Zeros(n));
    WalkZeros(n);
  }

  /** There is a whole option at the front. */
  predicate HasHead(rest: seq<byte>) {
    rest != [] && (rest[0] <= 1 || (|rest| >= 2 && 2 <= rest[1] <= |rest|))
  }

  function Head(rest: seq<byte>): TcpOption
    requires HasHead(rest)
  {
    TcpOption(rest[0], if rest[0] <= 1 then [] else rest[2..rest[1]])
  }

  lemma HeadBytes(rest: seq<byte>)
    requires HasHead(rest)
    ensures 0 < OptionLen(Head(rest)) <= |rest| && rest == OptionBytes(Head(rest)) + rest[OptionLen(Head(rest))..]
  {
    var n := OptionLen(Head(rest));
    if rest[0] <= 1 {
      assert rest == rest[..1] + rest[1..];
    } else {
      assert n == rest[1] && rest[..n] == Pair(rest[0], rest[1]) + rest[2..n];
      assert rest == rest[..n] + rest[n..];
    }
  }

  lemma WalkHead(rest: seq<byte>)
    requires HasHead(rest)
    ensures var o, tail := Head(rest), rest[OptionLen(Head(rest))..];
            Walk(rest) == Prepend(o, Walk(tail)) && (o.kind <= 1 ==> o.data == [])
  {
    hide Walk, OptionBytes;
    HeadBytes(rest);
    WalkOne(Head(rest), rest[OptionLen(Head(rest))..]);
  }

  lemma CanonicalCons(o: TcpOption, os: seq<TcpOption>)
    requires Canonical(os) && (o.kind <= 1 ==> o.data == [])
    ensures Canonical([o] + os) && OptionsBytes([o] + os) == OptionBytes(o) + OptionsBytes(os)
  {
    assert ([o] + os)[1..] == os;
  }

  /** What is walked is what was encoded. */
  lemma {:induction false} WalkedWasEncoded(rest: seq<byte>)
    requires Walk(rest).Walked?
    ensures Canonical(Walk(rest).options) && OptionsBytes(Walk(rest).options) == rest
    decreases |rest|
  {
    hide OptionBytes, OptionLen;
    if rest != [] {
      HeadBytes(rest);
      WalkHead(rest);
      var tail := rest[OptionLen(Head(rest))..];
      WalkedWasEncoded(tail);
      CanonicalCons(Head(rest), Walk(tail).options);
    }
  }

  /** Options, and then a kind without its length. */
  ghost predicate CutOff(rest: seq<byte>) {
    exists os: seq<TcpOption>, k: byte :: Canonical(os) && k >= 2 && rest == OptionsBytes(os) + One(k)
  }

  lemma CutOffCons(o: TcpOption, tail: seq<byte>)
    requires CutOff(tail) && (o.kind <= 1 ==> o.data == [])
    ensures CutOff(OptionBytes(o) + tail)
  {
    hide OptionBytes, OptionsBytes;
    var os: seq<TcpOption>, k: byte :| Canonical(os) && k >= 2 && tail == OptionsBytes(os) + One(k);
    CanonicalCons(o, os);
    Associate(OptionBytes(o), OptionsBytes(os), One(k));
  }

  lemma {:induction false} CrashIsCutOff(rest: seq<byte>)
    requires Walk(rest).Crash?
    ensures CutOff(rest)
    decreases |rest|
  {
    hide OptionBytes, OptionLen, CutOff;
    if HasHead(rest) {
      HeadBytes(rest);
      WalkHead(rest);
      var tail := rest[OptionLen(Head(rest))..];
      CrashIsCutOff(tail);
      CutOffCons(Head(rest), tail);
    } else {
      JustCutOff(rest);
    }
  }

  lemma JustCutOff(rest: seq<byte>)
    requires |rest| == 1 && rest[0] >= 2
    ensures CutOff(rest)
  {
    assert rest == OptionsBytes([]) + One(rest[0]);
  }

  lemma {:induction false} CrashIffCutOff(rest: seq<byte>)
    ensures Walk(rest).Crash? <==> CutOff(rest)
  {
    if Walk(rest).Crash? {
      CrashIsCutOff(rest);
    }
    if CutOff(rest) {
      var os: seq<TcpOption>, k: byte :| Canonical(os) && k >= 2 && rest == OptionsBytes(os) + One(k);
      WalkPast(os, One(k));
    }
  }

  /** A host lookup that panics: a hello whose server name cannot be sliced out, or a Host line that has no end. */
  ghost predicate LookupCrashes(port: u16, payload: seq<byte>, beyond: seq<byte>) {
    || (port == 443 && N.Unsliceable(N.Slice(payload + beyond, |payload|)))
    || (port == 80 && H.Unended(payload))
  }

  lemma LookupPanics(port: u16, payload: seq<byte>, beyond: seq<byte>)
    ensures Lookup(port, payload, beyond).Panic? <==> LookupCrashes(port, payload, beyond)
  {
    hide N.Hostname, N.Unsliceable, N.HasHost, H.PlainHost, H.Unended;
    H.PanicsIffUnended(payload);
    N.HostnameIff(N.Slice(payload + beyond, |payload|));
  }

  /** The parser panics exactly on the segments with a whole header in which the host lookup panics, or whose
      option area, as their data offset gives it, is a list of options and then one octet of a kind that has a
      length. */
  lemma {:induction false} ParserCrashes(pkt: seq<byte>, beyond: seq<byte>)
    ensures Parse(pkt, beyond).Crashed? <==>
              && |pkt| >= 20 && 20 <= pkt[12] / 16 * 4 <= |pkt|
              && var start := pkt[12] / 16 * 4;
                 LookupCrashes(Get16(pkt[2], pkt[3]), pkt[start..], beyond) || CutOff(pkt[20..start])
  {
    hide Lookup, LookupCrashes, CutOff;
    if OffsetOk(pkt) {
      CrashIffCutOff(pkt[20..pkt[12] / 16 * 4]);
      LookupPanics(Get16(pkt[2], pkt[3]), pkt[pkt[12] / 16 * 4..], beyond);
    }
  }

  /** A byte determines its eight bits. */
  lemma EightBits(b: byte, f0: bit, f1: bit, f2: bit, f3: bit, f4: bit, f5: bit, f6: bit, f7: bit)
    requires b == Weigh(f0, f1, f2, f3, f4, f5, f6, f7)
    ensures b / 1 % 2 == f0 && b / 2 % 2 == f1 && b / 4 % 2 == f2 && b / 8 % 2 == f3
    ensures b / 16 % 2 == f4 && b / 32 % 2 == f5 && b / 64 % 2 == f6 && b / 128 % 2 == f7
  {
    assert b / 128 == f7;
    assert b / 64 == f6 + 2 * f7;
    assert b / 32 == f5 + 2 * (f6 + 2 * f7);
    assert b / 16 == f4 + 2 * (f5 + 2 * f6 + 4 * f7);
    assert b / 8 == f3 + 2 * (f4 + 2 * f5 + 4 * f6 + 8 * f7);
    assert b / 4 == f2 + 2 * (f3 + 2 * f4 + 4 * f5 + 8 * f6 + 16 * f7);
    assert b / 2 == f1 + 2 * (f2 + 2 * f3 + 4 * f4 + 8 * f5 + 16 * f6 + 32 * f7);
    assert b / 1 == f0 + 2 * (f1 + 2 * f2 + 4 * f3 + 8 * f4 + 16 * f5 + 32 * f6 + 64 * f7);
  }

  lemma EightFlags(b: byte, f0: bool, f1: bool, f2: bool, f3: bool, f4: bool, f5: bool, f6: bool, f7: bool)
    requires b == Weigh(B(f0), B(f1), B(f2), B(f3), B(f4), B(f5), B(f6), B(f7))
    ensures Bit(b, 1) == f0 && Bit(b, 2) == f1 && Bit(b, 4) == f2 && Bit(b, 8) == f3
    ensures Bit(b, 16) == f4 && Bit(b, 32) == f5 && Bit(b, 64) == f6 && Bit(b, 128) == f7
  {
    hide Weigh;
    EightBits(b, B(f0), B(f1), B(f2), B(f3), B(f4), B(f5), B(f6), B(f7));
  }

  lemma OffsetComesBack(dataOffset: byte, f: Flags)
    requires dataOffset < 16
    ensures OffsetByte(dataOffset, f) / 16 == dataOffset
    ensures Bit(OffsetByte(dataOffset, f), 1) == f.NS
  {
    var b := OffsetByte(dataOffset, f);
    if f.NS {
      assert b == 2 * (8 * dataOffset) + 1;
    } else {
      assert b == 2 * (8 * dataOffset);
    }
  }

  lemma FlagsComeBack(f: Flags, b12: byte)
    requires Bit(b12, 1) == f.NS
    ensures DecodeFlags(b12, FlagByte(f)) == f
  {
    hide Bit, Weigh;
    EightFlags(FlagByte(f), f.FIN, f.SYN, f.RST, f.PSH, f.ACK, f.URG, f.ECE, f.CWR);
  }

  lemma PortsDecode(h: Header)
    ensures var p := Ports(h);
            && Get16(p[0], p[1]) == h.srcPort && Get16(p[2], p[3]) == h.dstPort
            && Get32(p[4], p[5], p[6], p[7]) == h.seqNo && Get32(p[8], p[9], p[10], p[11]) == h.ackNo
  {
    Get16Put16(h.srcPort);
    Get16Put16(h.dstPort);
    Get32Put32(h.seqNo);
    Get32Put32(h.ackNo);
  }

  lemma ControlDecode(h: Header)
    ensures var p := Control(h);
            && p[0] == OffsetByte(DataOffsetOf(h.options), h.flags) && p[1] == FlagByte(h.flags)
            && Get16(p[2], p[3]) == h.window && Get16(p[6], p[7]) == h.urgent
  {
    Get16Put16(h.window);
    Get16Put16(h.urgent);
  }

  lemma ChecksumFieldIsZero(h: Header)
    ensures RawHeader(h)[16] == RawHeader(h)[17] == 0
  {
    assert RawHeader(h)[16] == Control(h)[4] && RawHeader(h)[17] == Control(h)[5];
  }

  /** What the parser finds in a serialized segment. */
  predicate LaidOut(s: seq<byte>, h: Header, c: u16, payload: seq<byte>) {
    && |s| == HeaderLen(h.options) + |payload|
    && s[..12] == Ports(h)
    && s[12..16] == Control(h)[..4] && Get16(s[16], s[17]) == c && s[18..20] == Control(h)[6..]
    && s[20..HeaderLen(h.options)] == Tail(h)
    && s[HeaderLen(h.options)..] == payload
  }

  lemma Layout(h: Header, c: u16, payload: seq<byte>)
    ensures LaidOut(WithChecksum(h, c) + payload, h, c, payload)
  {
    var raw := RawHeader(h);
    var s := WithChecksum(h, c) + payload;
    assert raw[..12] == Ports(h) && raw[12..20] == Control(h) && raw[20..] == Tail(h);
    assert s[..12] == raw[..12];
    assert s[12..16] == raw[12..20][..4];
    assert s[18..20] == raw[12..20][6..];
    assert s[20..HeaderLen(h.options)] == raw[20..];
  }

  lemma FieldsComeBack(s: seq<byte>, h: Header, c: u16, payload: seq<byte>)
    requires LaidOut(s, h, c, payload)
    ensures Get16(s[0], s[1]) == h.srcPort && Get16(s[2], s[3]) == h.dstPort
    ensures Get32(s[4], s[5], s[6], s[7]) == h.seqNo && Get32(s[8], s[9], s[10], s[11]) == h.ackNo
    ensures s[12] == OffsetByte(DataOffsetOf(h.options), h.flags) && s[13] == FlagByte(h.flags)
    ensures Get16(s[14], s[15]) == h.window && Get16(s[18], s[19]) == h.urgent
  {
    var p, q := Ports(h), Control(h);
    PortsDecode(h);
    ControlDecode(h);
    assert forall i :: 0 <= i < 12 ==> s[..12][i] == s[i];
    assert s[12..16][0] == s[12] && s[12..16][1] == s[13] && s[12..16][2] == s[14] && s[12..16][3] == s[15];
    assert s[18..20][0] == s[18] && s[18..20][1] == s[19];
    assert q[..4][2] == q[2] && q[..4][3] == q[3] && q[6..][0] == q[6] && q[6..][1] == q[7];
  }

  /** The options the serializer can announce: the data offset has four bits and counts words. */
  predicate Representable(os: seq<TcpOption>) {
    OptionsLen(os) <= 40 && OptionsLen(os) % 4 in {0, 2}
  }

  /** A header of `20 + n + n % 4` bytes, as the four bits of the data offset can announce it. */
  lemma FourBits(n: nat)
    ensures var length := 20 + n + n % 4;
            var offset := length / 4 % 256 % 16;
            && (offset * 4 == length <==> n <= 40 && n % 4 in {0, 2})
            && (n <= 40 ==> offset == length / 4)
  {
    if n > 40 {
      assert (20 + n + n % 4) / 4 % 256 % 16 <= 15;
    }
  }

  /** Where the parser takes the payload from. */
  lemma DataStart(b12: byte, os: seq<TcpOption>, f: Flags)
    requires b12 == OffsetByte(DataOffsetOf(os), f)
    ensures b12 / 16 * 4 == HeaderLen(os) <==> Representable(os)
    ensures Representable(os) ==> b12 / 16 == HeaderLen(os) / 4
    ensures Bit(b12, 1) == f.NS
  {
    hide OptionsLen, Bit;
    FourBits(OptionsLen(os));
    var d := DataOffsetOf(os);
    assert OffsetByte(d, f) == OffsetByte(d % 16, f);
    OffsetComesBack(d % 16, f);
  }

  /** A representable header parses back; padding reads as end-of-list options. */
  lemma RepresentableComesBack(s: seq<byte>, h: Header, c: u16, payload: seq<byte>)
    requires LaidOut(s, h, c, payload) && Canonical(h.options) && Representable(h.options)
    ensures Decode(s)
            == Parsed(h.(options := h.options + EndOfList(OptionsLen(h.options) % 4)),
                      HeaderLen(h.options) / 4, c, payload)
  {
    var n := OptionsLen(h.options);
    FieldsComeBack(s, h, c, payload);
    DataStart(s[12], h.options, h.flags);
    WalkInverts(h.options, n % 4);
    FlagsComeBack(h.flags, s[12]);
  }

  lemma PortsLayout(h: Header)
    ensures var p := Ports(h);
            && Number(p[0..2]) == h.srcPort && Number(p[2..4]) == h.dstPort
            && Number(p[4..8]) == h.seqNo && Number(p[8..12]) == h.ackNo
  {
    hide Put16, Put32, Number;
    var p := Ports(h);
    assert p[0..2] == Put16(h.srcPort) && p[2..4] == Put16(h.dstPort);
    assert p[4..8] == Put32(h.seqNo) && p[8..12] == Put32(h.ackNo);
    NumberOfWord(h.srcPort);
    NumberOfWord(h.dstPort);
    NumberOfLong(h.seqNo);
    NumberOfLong(h.ackNo);
  }

  lemma OffsetLayout(dataOffset: byte, f: Flags)
    ensures OffsetByte(dataOffset, f) % 16 == if f.NS then 1 else 0
  {
    var d := dataOffset % 16;
    assert OffsetByte(dataOffset, f) == d * 16 + B(f.NS);
  }

  lemma FlagLayout(f: Flags)
    ensures FlagByte(f) == (if f.FIN then 1 else 0) + (if f.SYN then 2 else 0)
                           + (if f.RST then 4 else 0) + (if f.PSH then 8 else 0)
                           + (if f.ACK then 16 else 0) + (if f.URG then 32 else 0)
                           + (if f.ECE then 64 else 0) + (if f.CWR then 128 else 0)
  {
  }

  lemma ControlLayout(h: Header)
    requires Representable(h.options)
    ensures var p := Control(h);
            && p[0] / 16 * 4 == HeaderLen(h.options) && p[0] % 16 == (if h.flags.NS then 1 else 0)
            && p[1] == (if h.flags.FIN then 1 else 0) + (if h.flags.SYN then 2 else 0)
                       + (if h.flags.RST then 4 else 0) + (if h.flags.PSH then 8 else 0)
                       + (if h.flags.ACK then 16 else 0) + (if h.flags.URG then 32 else 0)
                       + (if h.flags.ECE then 64 else 0) + (if h.flags.CWR then 128 else 0)
            && Number(p[2..4]) == h.window && Number(p[6..8]) == h.urgent
  {
    hide Put16, Number, OptionsLen, OffsetByte, FlagByte, Representable;
    var p := Control(h);
    OffsetLayout(DataOffsetOf(h.options), h.flags);
    FlagLayout(h.flags);
    DataStart(p[0], h.options, h.flags);
    assert p[2..4] == Put16(h.window) && p[6..8] == Put16(h.urgent);
    NumberOfWord(h.window);
    NumberOfWord(h.urgent);
  }

  /** The header of RFC 793 section 3.1 with the flags of RFC 3168 and RFC 3540, byte for byte. */
  lemma HeaderLayout(h: Header, c: u16)
    requires Representable(h.options)
    ensures var w := WithChecksum(h, c);
            && Number(w[0..2]) == h.srcPort && Number(w[2..4]) == h.dstPort
            && Number(w[4..8]) == h.seqNo && Number(w[8..12]) == h.ackNo
            && w[12] / 16 * 4 == |w| && w[12] % 16 == (if h.flags.NS then 1 else 0)
            && w[13] == (if h.flags.FIN then 1 else 0) + (if h.flags.SYN then 2 else 0)
                        + (if h.flags.RST then 4 else 0) + (if h.flags.PSH then 8 else 0)
                        + (if h.flags.ACK then 16 else 0) + (if h.flags.URG then 32 else 0)
                        + (if h.flags.ECE then 64 else 0) + (if h.flags.CWR then 128 else 0)
            && Number(w[14..16]) == h.window && Number(w[16..18]) == c && Number(w[18..20]) == h.urgent
            && w[20..] == OptionsBytes(h.options) + Zeros(OptionsLen(h.options) % 4)
  {
    hide OptionsLen, OptionsBytes, Representable, Ports, Control, Number;
    var w, p, q := WithChecksum(h, c), Ports(h), Control(h);
    PortsLayout(h);
    ControlLayout(h);
    var raw := RawHeader(h);
    assert raw[..12] == p && raw[12..20] == q && raw[20..] == Tail(h);
    assert w[..12] == raw[..12] && w[12..16] == raw[12..20][..4];
    assert w[18..20] == raw[18..20] && raw[18..20] == raw[12..20][6..8];
    assert w[0..2] == w[..12][0..2] && w[2..4] == w[..12][2..4];
    assert w[4..8] == w[..12][4..8] && w[8..12] == w[..12][8..12];
    assert w[12] == w[12..16][0] == q[0] && w[13] == w[12..16][1] == q[1] && w[14..16] == w[12..16][2..4] == q[2..4];
    assert w[16..18] == Put16(c) && w[18..20] == q[6..8] && w[20..] == raw[20..];
    NumberOfWord(c);
  }

  /** An option on the wire. */
  lemma OptionLayout(o: TcpOption)
    ensures var w := OptionBytes(o);
            && w[0] == o.kind && (o.kind <= 1 ==> |w| == 1)
            && (o.kind >= 2 ==> |w| == 2 + |o.data| && w[1] == |w| && w[2..] == o.data)
  {
  }

  predicate Unpadded(os: seq<TcpOption>) {
    OptionsLen(os) <= 40 && OptionsLen(os) % 4 == 0
  }

  lemma CanonicalRoundTrip(h: Header, c: u16, payload: seq<byte>)
    requires Canonical(h.options)
    ensures var p := Decode(WithChecksum(h, c) + payload);
            && ((p.Parsed? && p.payload == payload) <==> Representable(h.options))
            && ((p.Parsed? && p.header == h && p.payload == payload) <==> Unpadded(h.options))
            && (p.Parsed? && p.payload == payload ==> Canonical(p.header.options))
  {
    var s := WithChecksum(h, c) + payload;
    var n := OptionsLen(h.options);
    if Representable(h.options) {
      Layout(h, c, payload);
      RepresentableComesBack(s, h, c, payload);
      EndOfListLength(n % 4);
      assert |h.options + EndOfList(n % 4)| == |h.options| + n % 4;
      assert n % 4 == 0 ==> h.options + EndOfList(n % 4) == h.options;
    } else {
      Layout(h, c, payload);
      FieldsComeBack(s, h, c, payload);
      DataStart(s[12], h.options, h.flags);
      PayloadLength(s);
    }
  }

  /** What the serializer writes of an option list. */
  function Canon(os: seq<TcpOption>): (cs: seq<TcpOption>)
    ensures Canonical(cs) && |cs| == |os|
  {
    if os == [] then []
    else [if os[0].kind <= 1 then TcpOption(os[0].kind, []) else os[0]] + Canon(os[1..])
  }

  lemma {:induction false} CanonWritesAlike(os: seq<TcpOption>)
    ensures OptionsBytes(Canon(os)) == OptionsBytes(os) && OptionsLen(Canon(os)) == OptionsLen(os)
    ensures Canon(os) == os <==> Canonical(os)
  {
    if os != [] {
      CanonWritesAlike(os[1..]);
      assert Canon(os)[1..] == Canon(os[1..]);
      if Canonical(os) {
        assert forall i :: 0 <= i < |os| - 1 ==> os[1..][i] == os[i + 1];
        assert os == [os[0]] + os[1..];
      }
    }
  }

  /** Reading a header inverts writing it, exactly: the payload comes back if and only if the option list is
      representable; then so does every field, and the padding reads as end-of-list options, so the
      whole header comes back if and only if no padding was needed and no one-byte option carried data. */
  lemma HeaderRoundTrip(h: Header, c: u16, payload: seq<byte>)
    ensures var p := Decode(WithChecksum(h, c) + payload);
            && ((p.Parsed? && p.payload == payload) <==> Representable(h.options))
            && ((p.Parsed? && p.header == h && p.payload == payload) <==> Unpadded(h.options) && Canonical(h.options))
  {
    hide Decode, OptionsLen, OptionsBytes;
    var h' := h.(options := Canon(h.options));
    CanonWritesAlike(h.options);
    assert WithChecksum(h', c) == WithChecksum(h, c);
    CanonicalRoundTrip(h', c, payload);
  }

  /** The port and the payload that the parser looks at. */
  lemma LooksAt(h: Header, c: u16, payload: seq<byte>)
    ensures var s := WithChecksum(h, c) + payload;
            && |s| >= 20 && Get16(s[2], s[3]) == h.dstPort
            && (Representable(h.options) ==> OffsetOk(s) && s[s[12] / 16 * 4..] == payload)
  {
    hide OptionsLen, OptionsBytes, WithChecksum;
    var s := WithChecksum(h, c) + payload;
    Layout(h, c, payload);
    FieldsComeBack(s, h, c, payload);
    DataStart(s[12], h.options, h.flags);
  }

  /** Round trip of one segment through the parser: as reading it, if and only if in addition no host lookup
      panics over the payload; otherwise a readable segment is a panic. */
  lemma SegmentRoundTrip(h: Header, c: u16, payload: seq<byte>, beyond: seq<byte>)
    ensures var p := Parse(WithChecksum(h, c) + payload, beyond);
            var crashes := LookupCrashes(h.dstPort, payload, beyond);
            && ((p.Parsed? && p.payload == payload) <==> Representable(h.options) && !crashes)
            && ((p.Parsed? && p.header == h && p.payload == payload)
                <==> Unpadded(h.options) && Canonical(h.options) && !crashes)
            && (Representable(h.options) && crashes ==> p == Crashed)
  {
    hide Decode, OptionsLen, OptionsBytes, WithChecksum, Lookup, LookupCrashes, OffsetOk, Canonical;
    HeaderRoundTrip(h, c, payload);
    LooksAt(h, c, payload);
    LookupPanics(h.dstPort, payload, beyond);
  }

  /** To port 80: any request that ends with its Host line. */
  lemma HostLineCrashes(h: Header, c: u16, before: seq<byte>, name: seq<byte>, beyond: seq<byte>)
    requires h.dstPort == 80 && Representable(h.options)
    requires forall i :: 0 <= i < |before| ==> !H.At(before + H.HOST + name + H.CRLF, H.HOST, i)
    requires forall i :: 0 <= i < |name| ==> !H.At(name + H.CRLF, H.CRLF, i)
    ensures Parse(WithChecksum(h, c) + (before + H.HOST + name + H.CRLF), beyond) == Crashed
  {
    hide Representable, WithChecksum, Parse, H.PlainHost, H.Unended;
    var data := before + H.HOST + name + H.CRLF;
    assert data + [] == data;
    H.HostLine(before, name, []);
    H.PanicsIffUnended(data);
    SegmentRoundTrip(h, c, data, beyond);
  }

  /** To port 443: any hello whose first server_name extension has a body of one or two bytes in reach. */
  lemma CutNameCrashes(h: Header, c: u16, hello: N.Hello, beyond: seq<byte>)
    requires h.dstPort == 443 && Representable(h.options)
    requires N.WellFormed(hello) && |hello.ciphers| < 0x100 && N.ShortBodies(hello.extensions)
    requires var first := N.FirstServerName(hello.extensions); first.Ok? && |first.value| in {1, 2}
    requires N.FirstHeader(hello.extensions) <= |N.EncodeAll(hello.extensions)| % 0x100
    ensures Parse(WithChecksum(h, c) + N.EncodeHello(hello), beyond) == Crashed
  {
    hide Representable, WithChecksum, Parse, N.Hostname, N.EncodeHello, N.Unsliceable, N.HasHost;
    var data := N.EncodeHello(hello);
    assert data + [] == data;
    N.CutNamePanics(hello, [], beyond);
    N.HostnameIff(N.Slice(data + beyond, |data|));
    SegmentRoundTrip(h, c, data, beyond);
  }

  /** No lookup panics over less than seven bytes, or to any port but 80 over bytes that are no handshake record. */
  lemma NoHelloIsSafe(port: u16, payload: seq<byte>, beyond: seq<byte>)
    requires payload == [] || (payload[0] != 0x16 && (port != 80 || |payload| < 7))
    ensures !LookupCrashes(port, payload, beyond)
  {
    var d := N.Slice(payload + beyond, |payload|);
    assert payload != [] ==> d.mem[0] == payload[0];
  }

  /** A SYN, a bare acknowledgement, and whatever else has no payload or none that is a handshake record, parses
      to port 443 as to any other; so does a hello that is cut off before its extensions. */
  lemma NoHelloParses(h: Header, c: u16, payload: seq<byte>, beyond: seq<byte>)
    requires payload == [] || (payload[0] != 0x16 && h.dstPort != 80)
    ensures Parse(WithChecksum(h, c) + payload, beyond) == Crashed ==> !Representable(h.options)
    ensures Representable(h.options) ==>
              Parse(WithChecksum(h, c) + payload, beyond) == Decode(WithChecksum(h, c) + payload)
  {
    hide Decode, OptionsLen, OptionsBytes, WithChecksum, Lookup, LookupCrashes, OffsetOk, Canonical;
    NoHelloIsSafe(h.dstPort, payload, beyond);
    SegmentRoundTrip(h, c, payload, beyond);
    HeaderRoundTrip(h, c, payload);
  }

  lemma CutHelloParses(h: Header, c: u16, hello: N.Hello, k: nat, beyond: seq<byte>)
    requires h.dstPort == 443 && Representable(h.options)
    requires N.WellFormed(hello) && |hello.ciphers| < 0x100
    requires k <= |N.EncodeHello(hello)| && k < N.Start(hello) + 2 + |N.EncodeAll(hello.extensions)| % 256
    ensures var p := Parse(WithChecksum(h, c) + N.EncodeHello(hello)[..k], beyond);
            p.Parsed? && p.payload == N.EncodeHello(hello)[..k]
  {
    hide Representable, WithChecksum, Parse, N.Hostname, N.EncodeHello, N.EncodeAll, N.Unsliceable, N.HasHost;
    N.CutHello(hello, k, beyond);
    N.HostnameIff(N.Slice(N.EncodeHello(hello)[..k] + beyond, k));
    SegmentRoundTrip(h, c, N.EncodeHello(hello)[..k], beyond);
  }

  lemma PayloadLength(s: seq<byte>)
    ensures Decode(s).Parsed? ==> |s| >= 20 && |Decode(s).payload| == |s| - s[12] / 16 * 4
  {
  }

  lemma {:induction false} EndOfListLength(n: nat)
    ensures |EndOfList(n)| == n
  {
    if n > 0 {
      EndOfListLength(n - 1);
    }
  }

  lemma PaddingFills(os: seq<TcpOption>, padding: seq<byte>)
    requires padding == Zeros(OptionsLen(os) % 4)
    ensures 20 + OptionsLen(os) + |padding| == HeaderLen(os)
  {
  }

  lemma OtherOptions(pkt: seq<byte>, was: seq<TcpOption>, now: seq<TcpOption>)
    requires |pkt| >= 20
    ensures DecodeHeader(pkt, was).(options := now) == DecodeHeader(pkt, now)
  {
  }

  class TCP {
    var SrcPort: u16
    var DstPort: u16
    var Seq: u32
    var Ack: u32
    var DataOffset: byte
    var FIN: bool
    var SYN: bool
    var RST: bool
    var PSH: bool
    var ACK: bool
    var URG: bool
    var ECE: bool
    var CWR: bool
    var NS: bool
    var Window: u16
    var Checksum: u16
    var Urgent: u16
    var Options: seq<TcpOption>
    var Padding: seq<byte>
    var Payload: seq<byte>
    var headerLength: nat

    function FlagView(): Flags
      reads this`FIN, this`SYN, this`RST, this`PSH, this`ACK, this`URG, this`ECE, this`CWR, this`NS
    {
      Flags(FIN, SYN, RST, PSH, ACK, URG, ECE, CWR, NS)
    }

    function View(): Header
      reads this`SrcPort, this`DstPort, this`Seq, this`Ack, this`Window, this`Urgent, this`Options
      reads this`FIN, this`SYN, this`RST, this`PSH, this`ACK, this`URG, this`ECE, this`CWR, this`NS
    {
      Header(SrcPort, DstPort, Seq, Ack, FlagView(), Window, Urgent, Options)
    }

    /** The cached header length, if any, is right for the options. */
    predicate Cached()
      reads this
    {
      && headerLength == HeaderLen(Options)
      && DataOffset == DataOffsetOf(Options)
      && Padding == Zeros(OptionsLen(Options) % 4)
    }

    /** `NewTCP` returns a zeroed header. */
    constructor ()
      ensures View()
              == Header(0, 0, 0, 0, Flags(false, false, false, false, false, false, false, false, false), 0, 0, [])
      ensures Payload == [] && headerLength == 0
    {
      SrcPort, DstPort, Seq, Ack, DataOffset := 0, 0, 0, 0, 0;
      FIN, SYN, RST, PSH, ACK := false, false, false, false, false;
      URG, ECE, CWR, NS := false, false, false, false;
      Window, Checksum, Urgent, headerLength := 0, 0, 0, 0;
      Options, Padding, Payload := [], [], [];
    }

    /** `crashed` stands for a panic; `beyond` is what the buffer of the packet holds behind it. */
    method ParseTCP(pkt: seq<byte>, beyond: seq<byte>) returns (ok: bool, crashed: bool)
      modifies this
      ensures ok == Parse(pkt, beyond).Parsed? && crashed == Parse(pkt, beyond).Crashed?
      ensures ok ==> Parsed(View(), DataOffset, Checksum, Payload) == Parse(pkt, beyond)
      ensures ok ==> headerLength == DataOffset * 4
    {
      hide Get16, DecodeHeader, Walk, Lookup;
      if |pkt| < 20 {
        return false, false;
      }
      ReadFixed(pkt);
      ghost var h := View();
      Options := [];
      var dataStart := DataOffset * 4;
      if DataOffset < 5 || dataStart > |pkt| {
        return false, false;
      }
      Payload := pkt[dataStart..];
      var found := LookUp(beyond);
      if found.Panic? {
        return false, true;
      }
      ok, crashed := ParseOptions(pkt[20..dataStart]);
      if ok {
        headerLength := DataOffset * 4;
        assert View() == h.(options := Options);
        OtherOptions(pkt, old(Options), Options);
      }
    }

    /** The host lookup of `ParseTCP`. */
    method LookUp(beyond: seq<byte>) returns (r: Result<seq<byte>>)
      ensures r == Lookup(DstPort, Payload, beyond)
    {
      hide N.Hostname, H.PlainHost;
      if DstPort == 443 {
        r := N.GetHostnameTls(N.Slice(Payload + beyond, |Payload|));
      } else if DstPort == 80 {
        r := H.GetHostnamePlainHttp(Payload);
      } else {
        r := Error;
      }
    }

    /** The statements of `ParseTCP` up to the options. */
    method ReadFixed(pkt: seq<byte>)
      requires |pkt| >= 20
      modifies this
      ensures View() == DecodeHeader(pkt, old(Options))
      ensures DstPort == Get16(pkt[2], pkt[3])
      ensures DataOffset == pkt[12] / 16 && Checksum == Get16(pkt[16], pkt[17])
    {
      ReadWords(pkt);
      ReadFlags(pkt[12], pkt[13]);
    }

    method ReadWords(pkt: seq<byte>)
      requires |pkt| >= 20
      modifies this`SrcPort, this`DstPort, this`Seq, this`Ack, this`DataOffset, this`Window, this`Checksum, this`Urgent
      ensures SrcPort == Get16(pkt[0], pkt[1]) && DstPort == Get16(pkt[2], pkt[3])
      ensures Seq == Get32(pkt[4], pkt[5], pkt[6], pkt[7]) && Ack == Get32(pkt[8], pkt[9], pkt[10], pkt[11])
      ensures Window == Get16(pkt[14], pkt[15]) && Urgent == Get16(pkt[18], pkt[19])
      ensures DataOffset == pkt[12] / 16 && Checksum == Get16(pkt[16], pkt[17])
    {
      SrcPort := Get16(pkt[0], pkt[1]);
      DstPort := Get16(pkt[2], pkt[3]);
      Seq := Get32(pkt[4], pkt[5], pkt[6], pkt[7]);
      Ack := Get32(pkt[8], pkt[9], pkt[10], pkt[11]);
      DataOffset := pkt[12] / 16;
      Window := Get16(pkt[14], pkt[15]);
      Checksum := Get16(pkt[16], pkt[17]);
      Urgent := Get16(pkt[18], pkt[19]);
    }

    method ReadFlags(b12: byte, b13: byte)
      modifies this`FIN, this`SYN, this`RST, this`PSH, this`ACK, this`URG, this`ECE, this`CWR, this`NS
      ensures FlagView() == DecodeFlags(b12, b13)
    {
      FIN, SYN, RST, PSH := Bit(b13, 1), Bit(b13, 2), Bit(b13, 4), Bit(b13, 8);
      ACK, URG, ECE, CWR := Bit(b13, 16), Bit(b13, 32), Bit(b13, 64), Bit(b13, 128);
      NS := Bit(b12, 1);
    }

    /** The loop of `ParseTCP` over the option bytes. */
    method ParseOptions(bytes: seq<byte>) returns (ok: bool, crashed: bool)
      requires Options == []
      modifies this`Options
      ensures ok == Walk(bytes).Walked? && crashed == Walk(bytes).Crash?
      ensures ok ==> Options == Walk(bytes).options
    {
      var rest: seq<byte> := bytes;
      while |rest| > 0
        invariant Walk(bytes) == Join(Options, Walk(rest))
        decreases |rest|
      {
        var w := Walk(rest);
        if rest[0] <= 1 {
          JoinStep(Options, TcpOption(rest[0], []), Walk(rest[1..]));
          Options := Options + [TcpOption(rest[0], [])];
          rest := rest[1..];
        } else {
          if |rest| < 2 {
            return false, true;
          }
          if rest[1] < 2 || rest[1] > |rest| {
            return false, false;
          }
          var o := TcpOption(rest[0], rest[2..rest[1]]);
          JoinStep(Options, o, Walk(rest[rest[1]..]));
          Options := Options + [o];
          rest := rest[rest[1]..];
        }
      }
      ok, crashed := true, false;
    }

    method HeaderLength() returns (n: nat)
      requires headerLength == 0 || Cached()
      modifies this`Padding, this`headerLength, this`DataOffset
      ensures Cached() && n == HeaderLen(Options) && View() == old(View())
    {
      if headerLength == 0 {
        var optionLength := 0;
        for i := 0 to |Options|
          invariant optionLength + OptionsLen(Options[i..]) == OptionsLen(Options)
        {
          assert Options[i..][1..] == Options[i + 1..];
          var o := Options[i];
          optionLength := optionLength + if o.kind <= 1 then 1 else 2 + |o.data|;
        }
        assert Options[|Options|..] == [];
        Padding := Zeros(optionLength % 4);
        headerLength := |Padding| + optionLength + 20;
        DataOffset := headerLength / 4 % 256;
      }
      n := headerLength;
    }

    /** Writes the header into `buf[lo..hi]`. The checksum covers `buf[from..to]`, which contains it. */
    method Serialize(buf: array<byte>, lo: nat, hi: nat, from: nat, to: nat) returns (ok: bool)
      requires from <= lo <= hi <= to <= buf.Length
      requires Cached()
      modifies this`Checksum, buf
      ensures View() == old(View())
      ensures ok == (hi - lo == HeaderLen(Options))
      ensures !ok ==> buf[..] == old(buf[..])
      ensures ok ==> buf[..lo] == old(buf[..lo]) && buf[hi..] == old(buf[hi..])
      ensures ok ==> Checksum == InternetChecksum.Of([old(buf[from..lo]) + RawHeader(View()) + old(buf[hi..to])])
      ensures ok ==> buf[lo..hi] == WithChecksum(View(), Checksum)
    {
      if headerLength != hi - lo {
        return false;
      }
      WriteHeader(buf, lo, hi);
      Splice(buf[..], old(buf[..]), from, lo, hi, to);
      Checksum := InternetChecksum.Checksum([buf[from..to]]);
      PutUint16(buf, lo, hi, 16, Checksum);
      ok := true;
    }

    /** The statements of `Serialize` before the checksum. */
    method WriteHeader(buf: array<byte>, lo: nat, hi: nat)
      requires lo + HeaderLen(Options) == hi <= buf.Length
      requires Cached()
      modifies buf
      ensures buf[lo..hi] == RawHeader(View())
      ensures buf[..lo] == old(buf[..lo]) && buf[hi..] == old(buf[hi..])
    {
      ghost var s0 := buf[..];
      WritePorts(buf, lo, hi);
      ghost var s1 := buf[..];
      WriteControl(buf, lo, hi);
      ghost var s2 := buf[..];
      WriteOptions(buf, lo, hi);
      ghost var s3 := buf[..];
      Keep(s2, s1, lo + 12, lo, lo + 12);
      Keep(s3, s2, lo + 20, lo, lo + 12);
      Keep(s3, s2, lo + 20, lo + 12, lo + 20);
      Thirds(s3, lo, lo + 12, lo + 20, hi);
      Keep(s2, s1, lo + 12, 0, lo);
      Keep(s3, s2, lo + 20, 0, lo);
    }

    method WritePorts(buf: array<byte>, lo: nat, hi: nat)
      requires lo + 20 <= hi <= buf.Length
      modifies buf
      ensures buf[lo..lo + 12] == Ports(View())
      ensures buf[..lo] == old(buf[..lo]) && buf[hi..] == old(buf[hi..])
    {
      Put(buf, lo, hi, lo, Put16(SrcPort));
      Put(buf, lo, hi, lo + 2, Put16(DstPort));
      Put(buf, lo, hi, lo + 4, Put32(Seq));
      Put(buf, lo, hi, lo + 8, Put32(Ack));
    }

    method WriteControl(buf: array<byte>, lo: nat, hi: nat)
      requires lo + 20 <= hi <= buf.Length
      requires DataOffset == DataOffsetOf(Options)
      modifies buf
      ensures buf[lo + 12..lo + 20] == Control(View())
      ensures buf[..lo + 12] == old(buf[..lo + 12]) && buf[hi..] == old(buf[hi..])
    {
      hide Put16, Pair, OffsetByte, FlagByte, DataOffsetOf;
      Put(buf, lo + 12, hi, lo + 12, Pair(OffsetByte(DataOffset, FlagView()), FlagByte(FlagView())));
      Put(buf, lo + 12, hi, lo + 14, Put16(Window));
      Put(buf, lo + 12, hi, lo + 16, Pair(0, 0));
      Put(buf, lo + 12, hi, lo + 18, Put16(Urgent));
    }

    /** The option loop of `Serialize` and the padding after it. */
    method WriteOptions(buf: array<byte>, lo: nat, hi: nat)
      requires lo + HeaderLen(Options) == hi <= buf.Length
      requires Padding == Zeros(OptionsLen(Options) % 4)
      modifies buf
      ensures buf[lo + 20..hi] == Tail(View())
      ensures buf[..lo + 20] == old(buf[..lo + 20]) && buf[hi..] == old(buf[hi..])
    {
      hide OptionsBytes, OptionsLen, HeaderLen;
      PaddingFills(Options, Padding);
      var start := WriteOptionList(buf, lo + 20, hi);
      Put(buf, lo + 20, hi, start, Padding);
      assert buf[lo + 20..start + |Padding|] == Tail(View());
    }

    method WriteOptionList(buf: array<byte>, first: nat, hi: nat) returns (start: nat)
      requires first + OptionsLen(Options) <= hi <= buf.Length
      modifies buf
      ensures start == first + OptionsLen(Options)
      ensures buf[first..start] == OptionsBytes(Options)
      ensures buf[..first] == old(buf[..first]) && buf[hi..] == old(buf[hi..])
    {
      hide OptionBytes, OptionLen, OptionsLen;
      start := first;
      ghost var all, done: seq<byte> := OptionsBytes(Options), [];
      for i := 0 to |Options|
        invariant start == first + |done| <= first + |all|
        invariant done + OptionsBytes(Options[i..]) == all
        invariant buf[first..start] == done
        invariant buf[..first] == old(buf[..first]) && buf[hi..] == old(buf[hi..])
      {
        var o := Options[i];
        ghost var rest := OptionsBytes(Options[i + 1..]);
        assert Options[i..][1..] == Options[i + 1..];
        Associate(done, OptionBytes(o), rest);
        done := done + OptionBytes(o);
        assert |done + rest| == |all|;
        Put(buf, first, hi, start, OptionBytes(o));
        start := start + OptionLen(o);
      }
      assert Options[|Options|..] == [];
      assert done + [] == done;
    }
  }

  lemma JoinStep(os: seq<TcpOption>, o: TcpOption, w: Walked)
    ensures Join(os, Prepend(o, w)) == Join(os + [o], w)
  {
    if w.Walked? {
      assert os + ([o] + w.options) == os + [o] + w.options;
    }
  }
}
