/** The SOCKS5 messages of `gosocks/basic.go` (RFC 1928 sections 4, 6 and 7). A host is a text; the library's
    functions between texts and addresses are a parameter. */
module SocksCodec {
  import opened Bytes
  import opened Buffers
  import opened Wrappers
  import opened AddressText

  const VERSION: byte := 5
  const IPV4: byte := 1
  const DOMAIN: byte := 3
  const IPV6: byte := 4
  const SMALL_BUF: nat := 0x200

  datatype Common = Common(flag: byte, hostType: byte, host: Text, port: u16)

  datatype UDPRequest = UDPRequest(frag: byte, hostType: byte, host: Text, port: u16, data: seq<byte>)

  // ---- packing

  function PackHost(t: Texts, hostType: byte, host: Text): (r: Result<seq<byte>>) {
    if hostType == IPV4 then (if t.parse(host).Some? then Ok(To4(t.parse(host).value)) else Error)
    else if hostType == IPV6 then (if t.parse(host).Some? then Ok(t.parse(host).value) else Error)
    else if hostType == DOMAIN then Ok([|host| % 256] + host)
    else Error
  }

  function Prefix(a: byte, b: byte, c: byte, d: byte): (s: seq<byte>)
    ensures |s| == 4
  {
    Pair(a, b) + Pair(c, d)
  }

  function CommBytes(c: Common, h: seq<byte>): seq<byte> {
    Prefix(VERSION, c.flag, 0, c.hostType) + h + Put16(c.port)
  }

  /** `writeSocksComm` builds the message in 512 bytes. */
  function WriteComm(t: Texts, c: Common): Result<seq<byte>> {
    match PackHost(t, c.hostType, c.host)
    case Ok(h) => if 4 + |h| + 2 > SMALL_BUF then Panic else Ok(CommBytes(c, h))
    case _ => Error
  }

  /** `PackUDPRequest` ignores a host that cannot be packed. */
  function PackUDP(t: Texts, u: UDPRequest): seq<byte> {
    var h := PackHost(t, u.hostType, u.host);
    Prefix(0, 0, u.frag, u.hostType) + (if h.Ok? then h.value else []) + Put16(u.port) + u.data
  }

  // ---- reading; every function returns what it leaves

  /** `io.ReadFull`: too few bytes are consumed all the same. */
  function TakeFull(r: seq<byte>, n: nat): (Result<seq<byte>>, seq<byte>) {
    if n <= |r| then (Ok(r[..n]), r[n..]) else (Error, [])
  }

  function ReadIPv4Host(t: Texts, r: seq<byte>): (Result<Text>, seq<byte>) {
    var (buf, r) := TakeFull(r, 4);
    (if buf.Ok? then Ok(t.show(Mapped(buf.value))) else Error, r)
  }

  function ReadIPv6Host(t: Texts, r: seq<byte>): (Result<Text>, seq<byte>) {
    var (buf, r) := TakeFull(r, 16);
    (if buf.Ok? then Ok(t.show(buf.value)) else Error, r)
  }

  /** The bound `1 + length` is computed in a byte: for a length of 255 the slice ends before it begins. */
  function ReadDomainHost(r: seq<byte>): (Result<Text>, seq<byte>) {
    if r == [] then (Error, []) else
    if r[0] == 255 then (Panic, r[1..]) else
    var (buf, rest) := TakeFull(r[1..], r[0]);
    (if buf.Ok? then Ok(buf.value) else Error, rest)
  }

  function ReadHost(t: Texts, r: seq<byte>, hostType: byte): (Result<Text>, seq<byte>) {
    if hostType == IPV4 then ReadIPv4Host(t, r)
    else if hostType == IPV6 then ReadIPv6Host(t, r)
    else if hostType == DOMAIN then ReadDomainHost(r)
    else (Error, r)
  }

  function ReadPort(r: seq<byte>): (Result<u16>, seq<byte>) {
    var (buf, r) := TakeFull(r, 2);
    (if buf.Ok? then Ok(Get16(buf.value[0], buf.value[1])) else Error, r)
  }

  function ReadComm(t: Texts, r: seq<byte>): Result<Common> {
    var (h, r) := TakeFull(r, 4);
    if !h.Ok? then Error else
    if h.value[0] != VERSION then Error else
    var (host, r) := ReadHost(t, r, h.value[3]);
    if host.Panic? then Panic else if host.Error? then Error else
    var (port, r) := ReadPort(r);
    if !port.Ok? then Error else Ok(Common(h.value[1], h.value[3], host.value, port.value))
  }

  /** `ParseUDPRequest` looks at the wrong error, so an unreadable host is empty and an unreadable port 0. */
  function ParseUDP(t: Texts, data: seq<byte>): Result<UDPRequest> {
    if |data| <= 8 then Error else
    var (host, r) := ReadHost(t, data[4..], data[3]);
    if host.Panic? then Panic else
    var (port, r) := ReadPort(r);
    Ok(UDPRequest(data[2], data[3], if host.Ok? then host.value else [], if port.Ok? then port.value else 0, r))
  }

  // ---- round trips

  /** The text that its address has. */
  predicate Canonical(t: Texts, host: Text) {
    t.parse(host).Some? && t.show(t.parse(host).value) == host
  }

  /** The hosts that come back. */
  predicate Codable(t: Texts, hostType: byte, host: Text) {
    if hostType == IPV4 then Canonical(t, host) && To4(t.parse(host).value) != []
    else if hostType == IPV6 then Canonical(t, host)
    else hostType == DOMAIN && |host| <= 254
  }

  lemma TakeFullOf(a: seq<byte>, more: seq<byte>)
    ensures TakeFull(a + more, |a|) == (Ok(a), more)
  {
    assert (a + more)[..|a|] == a && (a + more)[|a|..] == more;
  }

  /** A host that is packed is read back from the front of any stream exactly if it is codable. */
  lemma HostRoundTrip(t: Texts, hostType: byte, host: Text, more: seq<byte>)
    requires Lawful(t) && PackHost(t, hostType, host).Ok?
    ensures var h := PackHost(t, hostType, host).value;
            && (Codable(t, hostType, host) ==> ReadHost(t, h + more, hostType) == (Ok(host), more))
            && (!Codable(t, hostType, host) ==> ReadHost(t, h + more, hostType).0 != Ok(host))
  {
    var h := PackHost(t, hostType, host).value;
    if hostType == DOMAIN {
      assert (h + more)[0] == |host| % 256 && (h + more)[1..] == host + more;
      if Codable(t, hostType, host) {
        TakeFullOf(host, more);
      }
    } else {
      if hostType == IPV4 {
        To4Length(t.parse(host).value);
        MappedTo4(t.parse(host).value);
      }
      if Codable(t, hostType, host) {
        TakeFullOf(h, more);
      }
    }
  }

  lemma PortRoundTrip(port: u16, more: seq<byte>)
    ensures ReadPort(Put16(port) + more) == (Ok(port), more)
  {
    TakeFullOf(Put16(port), more);
    Get16Put16(port);
  }

  /** `readSocksComm` gives back every field of what `writeSocksComm` wrote if and only if the host is codable. */
  lemma CommRoundTrip(t: Texts, c: Common, more: seq<byte>)
    requires Lawful(t)
    ensures (WriteComm(t, c).Ok? && ReadComm(t, WriteComm(t, c).value + more) == Ok(c))
            <==> Codable(t, c.hostType, c.host)
  {
    hide ReadHost, ReadPort, TakeFull, To4;
    if Codable(t, c.hostType, c.host) { PackableHost(t, c.hostType, c.host); }
    if WriteComm(t, c).Ok? {
      var h := PackHost(t, c.hostType, c.host).value;
      var head := Prefix(VERSION, c.flag, 0, c.hostType);
      var rest := h + (Put16(c.port) + more);
      assert WriteComm(t, c).value + more == head + rest;
      TakeFullOf(head, rest);
      HostRoundTrip(t, c.hostType, c.host, Put16(c.port) + more);
      PortRoundTrip(c.port, more);
    }
  }

  /** And what `readSocksComm` accepts is what `writeSocksComm` writes for it, but for the reserved byte. */
  lemma ReadWasWritten(t: Texts, r: seq<byte>)
    requires Lawful(t) && ReadComm(t, r).Ok?
    ensures var c := ReadComm(t, r).value;
            && Codable(t, c.hostType, c.host) && WriteComm(t, c).Ok?
            && SameButReserved(WriteComm(t, c).value, r)
  {
    hide ReadComm, ReadHost, ReadPort, SameButReserved, Prefix, Codable;
    CommParts(t, r);
    var c := ReadComm(t, r).value;
    HostWasPacked(t, r[4..], r[3]);
    PackableHost(t, c.hostType, c.host);
    var h, rest := PackHost(t, c.hostType, c.host).value, ReadHost(t, r[4..], r[3]).1;
    PortWasPut(rest);
    Whole(r, c, h, rest);
  }

  /** `w` is a prefix of `r`, except for its third byte. */
  predicate SameButReserved(w: seq<byte>, r: seq<byte>) {
    2 < |w| <= |r| && r[..2] == w[..2] && r[3..|w|] == w[3..]
  }

  lemma CommParts(t: Texts, r: seq<byte>)
    requires ReadComm(t, r).Ok?
    ensures |r| >= 4 && ReadHost(t, r[4..], r[3]).0.Ok?
    ensures var c, (host, rest) := ReadComm(t, r).value, ReadHost(t, r[4..], r[3]);
            && r[0] == VERSION && r[1] == c.flag && r[3] == c.hostType && host == Ok(c.host)
            && |rest| >= 2 && ReadPort(rest).0 == Ok(c.port)
  {
    hide ReadHost;
  }

  lemma Whole(r: seq<byte>, c: Common, h: seq<byte>, rest: seq<byte>)
    requires |r| >= 4 && r[0] == VERSION && r[1] == c.flag && r[3] == c.hostType
    requires r[4..] == h + rest && |rest| >= 2 && Put16(c.port) == rest[..2]
    ensures SameButReserved(CommBytes(c, h), r)
  {
    hide Put16;
    var w := CommBytes(c, h);
    var n := |w|;
    assert r[4..][..|h| + 2] == h + rest[..2];
    assert r[4..n] == w[4..];
    assert r[3..n] == r[3..4] + r[4..n];
  }

  lemma HostWasPacked(t: Texts, r: seq<byte>, hostType: byte)
    requires Lawful(t) && ReadHost(t, r, hostType).0.Ok?
    ensures var (host, rest) := ReadHost(t, r, hostType);
            && Codable(t, hostType, host.value) && PackHost(t, hostType, host.value).Ok?
            && r == PackHost(t, hostType, host.value).value + rest
  {
    if hostType == IPV4 {
      var a: IP4 := r[..4];
      MappedTo4(Mapped(a));
    }
  }

  lemma PortWasPut(r: seq<byte>)
    requires ReadPort(r).0.Ok?
    ensures |r| >= 2 && Put16(ReadPort(r).0.value) == r[..2]
  {
  }

  lemma PackableHost(t: Texts, hostType: byte, host: Text)
    requires Codable(t, hostType, host)
    ensures PackHost(t, hostType, host).Ok? && |PackHost(t, hostType, host).value| <= 255
  {
  }

  /** What `ParseUDPRequest` gives back of what `PackUDPRequest` made: the codable hosts and, because both
      ignore errors, the empty name under an unknown type; nothing of eight bytes or fewer. */
  predicate UDPCodable(t: Texts, u: UDPRequest) {
    if u.hostType in {IPV4, IPV6, DOMAIN}
    then Codable(t, u.hostType, u.host) && (u.hostType == DOMAIN ==> |u.host| + |u.data| > 1)
    else u.host == [] && |u.data| > 2
  }

  lemma UDPRoundTrip(t: Texts, u: UDPRequest)
    requires Lawful(t)
    ensures ParseUDP(t, PackUDP(t, u)) == Ok(u) <==> UDPCodable(t, u)
  {
    hide ReadHost, ReadPort, To4, TakeFull;
    var p := PackHost(t, u.hostType, u.host);
    var h := if p.Ok? then p.value else [];
    var rest := h + (Put16(u.port) + u.data);
    assert PackUDP(t, u) == Prefix(0, 0, u.frag, u.hostType) + rest;
    assert PackUDP(t, u)[4..] == rest;
    PortRoundTrip(u.port, u.data);
    if p.Ok? {
      HostRoundTrip(t, u.hostType, u.host, Put16(u.port) + u.data);
      PackedLength(t, u.hostType, u.host);
    } else {
      assert rest == Put16(u.port) + u.data;
      ReadsNothing(t, rest, u.hostType);
    }
    if u.hostType in {IPV4, IPV6} {
      ReadsAddress(t, rest, u.hostType);
    }
  }

  lemma PackedLength(t: Texts, hostType: byte, host: Text)
    requires PackHost(t, hostType, host).Ok?
    ensures var n := |PackHost(t, hostType, host).value|;
            && (hostType == DOMAIN ==> n == 1 + |host|)
            && (hostType != DOMAIN && Codable(t, hostType, host) ==> n >= 4)
            && (hostType in {IPV4, IPV6, DOMAIN})
  {
  }

  lemma ReadsNothing(t: Texts, r: seq<byte>, hostType: byte)
    ensures hostType !in {IPV4, IPV6, DOMAIN} ==> ReadHost(t, r, hostType) == (Error, r)
  {
  }

  /** An address that cannot be read leaves nothing for the port and the data. */
  lemma ReadsAddress(t: Texts, r: seq<byte>, hostType: byte)
    requires Lawful(t) && hostType in {IPV4, IPV6}
    ensures ReadHost(t, r, hostType).0.Ok? ==> t.parse(ReadHost(t, r, hostType).0.value).Some?
    ensures !ReadHost(t, r, hostType).0.Ok? ==> ReadHost(t, r, hostType) == (Error, []) && ReadPort([]) == (Error, [])
  {
  }

  /** `ParseUDPRequest` reports an error for short datagrams only. */
  lemma ParseUDPErrors(t: Texts, data: seq<byte>)
    ensures ParseUDP(t, data) == Error <==> |data| <= 8
    ensures ParseUDP(t, data) == Panic <==> |data| > 8 && data[3] == DOMAIN && data[4] == 255
  {
    if |data| > 8 {
      assert data[4..][0] == data[4];
    }
  }

  /** `ReplyGeneralFailure`: an IPv4 reply with the unspecified host of the request's type. */
  function GeneralFailure(t: Texts, requestType: byte): Common {
    Common(1, IPV4, t.show(if requestType == IPV6 then Zeros(16) else Mapped([0, 0, 0, 0])), 0)
  }

  lemma UnspecifiedHosts()
    ensures To4(Zeros(16)) == [] && To4(Mapped([0, 0, 0, 0])) != []
  {
    assert Zeros(16)[..12][11] != V4Prefix()[11];
    assert Mapped([0, 0, 0, 0])[..12] == V4Prefix();
  }

  /** The refusal of an IPv6 request has no address in it and cannot be read. */
  lemma FailureReply(t: Texts, requestType: byte)
    requires Lawful(t)
    ensures (WriteComm(t, GeneralFailure(t, requestType)).Ok?
             && ReadComm(t, WriteComm(t, GeneralFailure(t, requestType)).value) == Ok(GeneralFailure(t, requestType)))
            <==> requestType != IPV6
  {
    hide ReadComm, WriteComm, To4, Mapped;
    var c := GeneralFailure(t, requestType);
    CommRoundTrip(t, c, []);
    UnspecifiedHosts();
    if WriteComm(t, c).Ok? {
      assert WriteComm(t, c).value + [] == WriteComm(t, c).value;
    }
  }

  // ---- on the wire

  /** A message of RFC 1928, byte for byte. */
  lemma MessageLayout(t: Texts, c: Common)
    requires WriteComm(t, c).Ok?
    ensures var w := WriteComm(t, c).value;
            var n := |w|;
            && n >= 6 && w[0] == 5 && w[1] == c.flag && w[2] == 0 && w[3] == c.hostType
            && Number(w[n - 2..]) == c.port
            && (c.hostType == 1 ==> t.parse(c.host).Some? && w[4..n - 2] == To4(t.parse(c.host).value))
            && (c.hostType == 4 ==> t.parse(c.host).Some? && w[4..n - 2] == t.parse(c.host).value)
            && (c.hostType == 3 ==> w[4] == |c.host| % 256 && w[5..n - 2] == c.host)
  {
    hide Put16, Number, To4;
    var w, h := WriteComm(t, c).value, PackHost(t, c.hostType, c.host).value;
    NumberOfWord(c.port);
    assert w[|w| - 2..] == Put16(c.port) && w[4..|w| - 2] == h;
    assert c.hostType == 3 ==> w[5..|w| - 2] == h[1..] && w[4] == h[0];
  }

  /** What cannot be written: an unknown type, an address type with a text that is none, and a name that is too
      long for the buffer. */
  lemma WriteOutcome(t: Texts, c: Common)
    ensures WriteComm(t, c).Error? <==> c.hostType !in {1, 3, 4} || (c.hostType != 3 && t.parse(c.host).None?)
    ensures WriteComm(t, c).Panic? <==> c.hostType == 3 && |c.host| > 505
  {
  }

  /** What can be read: the version, a known type, and all the bytes that it asks for. */
  lemma ReadOutcome(t: Texts, r: seq<byte>)
    ensures ReadComm(t, r).Panic? <==> |r| >= 5 && r[0] == 5 && r[3] == 3 && r[4] == 255
    ensures ReadComm(t, r).Ok? <==>
              && |r| >= 5 && r[0] == 5
              && ((r[3] == 1 && |r| >= 10) || (r[3] == 4 && |r| >= 22)
                  || (r[3] == 3 && r[4] < 255 && |r| >= 7 + r[4] as int))
  {
    hide Get16;
    if |r| >= 5 {
      assert r[..4][0] == r[0] && r[..4][3] == r[3] && r[4..][0] == r[4];
      assert r[4..][1..] == r[5..];
    }
  }

  /** A UDP request of RFC 1928 section 7, byte for byte; a host that cannot be packed is left out. */
  lemma DatagramLayout(t: Texts, u: UDPRequest)
    ensures var w, h := PackUDP(t, u), PackHost(t, u.hostType, u.host);
            var n := 4 + if h.Ok? then |h.value| else 0;
            && |w| == n + 2 + |u.data| && w[0] == 0 && w[1] == 0 && w[2] == u.frag && w[3] == u.hostType
            && (h.Ok? ==> w[4..n] == h.value) && Number(w[n..n + 2]) == u.port && w[n + 2..] == u.data
  {
    hide Put16, Number, PackHost;
    NumberOfWord(u.port);
    var w, h := PackUDP(t, u), PackHost(t, u.hostType, u.host);
    var n := 4 + if h.Ok? then |h.value| else 0;
    assert w[n..n + 2] == Put16(u.port) && w[n + 2..] == u.data;
    assert h.Ok? ==> w[4..n] == h.value;
  }

  /** What `ParseUDPRequest` reads. What is not there is an empty host, a zero port and no data. */
  lemma DatagramRead(t: Texts, data: seq<byte>)
    requires |data| > 8 && !(data[3] == 3 && data[4] == 255)
    ensures ParseUDP(t, data).Ok?
    ensures var u, n := ParseUDP(t, data).value, |data|;
            var hostEnd := match data[3] case 1 => 8 case 4 => 20 case 3 => 5 + data[4] as int case _ => 4;
            && u.frag == data[2] && u.hostType == data[3]
            && (n < hostEnd ==> u.host == [] && u.port == 0 && u.data == [])
            && (n >= hostEnd ==> u.host == match data[3]
                                           case 1 => t.show(Mapped(data[4..8]))
                                           case 4 => t.show(data[4..20])
                                           case 3 => data[5..hostEnd]
                                           case _ => [])
            && (hostEnd <= n < hostEnd + 2 ==> u.port == 0 && u.data == [])
            && (n >= hostEnd + 2 ==> u.port == Number(data[hostEnd..hostEnd + 2]) && u.data == data[hostEnd + 2..])
  {
    hide Mapped, Number;
    var r := data[4..];
    var hostEnd := match data[3] case 1 => 8 case 4 => 20 case 3 => 5 + data[4] as int case _ => 4;
    var (host, rest) := ReadHost(t, r, data[3]);
    assert r[0] == data[4] && r[1..] == data[5..] && r[..4] == data[4..8];
    if |data| >= hostEnd {
      assert data[3] == 4 ==> r[..16] == data[4..20];
      assert data[3] == 3 ==> r[1..][..data[4]] == data[5..hostEnd];
      assert rest == data[hostEnd..];
      if |data| >= hostEnd + 2 {
        assert rest[..2] == data[hostEnd..hostEnd + 2] && rest[2..] == data[hostEnd + 2..];
        NumberOfTwo(rest[0], rest[1]);
        assert rest[..2] == [rest[0], rest[1]];
      }
    }
  }

  /** The general failure reply, byte for byte. */
  lemma FailureBytes(t: Texts, requestType: byte)
    requires Lawful(t)
    ensures WriteComm(t, GeneralFailure(t, requestType))
            == Ok([5, 1, 0, 1] + (if requestType == 4 then [] else [0, 0, 0, 0]) + [0, 0])
  {
    hide To4, Mapped;
    UnspecifiedHosts();
    MappedTo4(Mapped([0, 0, 0, 0]));
    var c := GeneralFailure(t, requestType);
    var h := if requestType == 4 then [] else [0, 0, 0, 0];
    assert PackHost(t, 1, c.host) == Ok(h);
    assert CommBytes(c, h) == [5, 1, 0, 1] + h + [0, 0];
  }

  // ---- the reader and the buffer

  /** An `io.Reader` over the bytes that remain. */
  class Reader {
    var rest: seq<byte>

    constructor (rest: seq<byte>)
      ensures this.rest == rest
    {
      this.rest := rest;
    }

    method ReadFull(n: nat) returns (buf: Result<seq<byte>>)
      modifies `rest
      ensures (buf, rest) == TakeFull(old(rest), n)
    {
      if |rest| < n {
        rest := [];
        return Error;
      }
      buf := Ok(rest[..n]);
      rest := rest[n..];
    }

    method ReadSocksIPv4Host(t: Texts) returns (host: Result<Text>)
      modifies `rest
      ensures (host, rest) == ReadIPv4Host(t, old(rest))
    {
      var buf := ReadFull(4);
      if !buf.Ok? {
        return Error;
      }
      return Ok(t.show(Mapped(buf.value)));
    }

    method ReadSocksIPv6Host(t: Texts) returns (host: Result<Text>)
      modifies `rest
      ensures (host, rest) == ReadIPv6Host(t, old(rest))
    {
      var buf := ReadFull(16);
      if !buf.Ok? {
        return Error;
      }
      return Ok(t.show(buf.value));
    }

    method ReadSocksDomainHost() returns (host: Result<Text>)
      modifies `rest
      ensures (host, rest) == ReadDomainHost(old(rest))
    {
      var first := ReadFull(1);
      if !first.Ok? {
        return Error;
      }
      var length := first.value[0];
      var end := (1 + (length as int)) % 256;
      if end < 1 {
        return Panic;
      }
      var buf := ReadFull(end - 1);
      if !buf.Ok? {
        return Error;
      }
      return Ok(buf.value);
    }

    method ReadSocksHost(t: Texts, hostType: byte) returns (host: Result<Text>)
      modifies `rest
      ensures (host, rest) == ReadHost(t, old(rest), hostType)
    {
      if hostType == IPV4 {
        host := ReadSocksIPv4Host(t);
      } else if hostType == IPV6 {
        host := ReadSocksIPv6Host(t);
      } else if hostType == DOMAIN {
        host := ReadSocksDomainHost();
      } else {
        return Error;
      }
    }

    method ReadSocksPort() returns (port: Result<u16>)
      modifies `rest
      ensures (port, rest) == ReadPort(old(rest))
    {
      var buf := ReadFull(2);
      if !buf.Ok? {
        return Error;
      }
      return Ok(Get16(buf.value[0], buf.value[1]));
    }

    method ReadSocksComm(t: Texts) returns (data: Result<Common>)
      modifies `rest
      ensures data == ReadComm(t, old(rest))
    {
      var h := ReadFull(4);
      if !h.Ok? {
        return Error;
      }
      if h.value[0] != VERSION {
        return Error;
      }
      var host := ReadSocksHost(t, h.value[3]);
      if !host.Ok? {
        return if host.Panic? then Panic else Error;
      }
      var port := ReadSocksPort();
      if !port.Ok? {
        return Error;
      }
      return Ok(Common(h.value[1], h.value[3], host.value, port.value));
    }
  }

  method ParseUDPRequest(t: Texts, data: seq<byte>) returns (u: Result<UDPRequest>)
    ensures u == ParseUDP(t, data)
  {
    var total := |data|;
    if total <= 8 {
      return Error;
    }
    var r := new Reader(data[4..]);
    var host := r.ReadSocksHost(t, data[3]);
    if host.Panic? {
      return Panic;
    }
    var port := r.ReadSocksPort();
    LeavesSuffix(t, data[4..], data[3]);
    assert data[total - |r.rest|..] == r.rest;
    return Ok(UDPRequest(data[2], data[3],
                         if host.Ok? then host.value else [], if port.Ok? then port.value else 0,
                         data[total - |r.rest|..]));
  }

  predicate Suffix(a: seq<byte>, r: seq<byte>) {
    |a| <= |r| && a == r[|r| - |a|..]
  }

  lemma TakeLeavesSuffix(r: seq<byte>, n: nat)
    ensures Suffix(TakeFull(r, n).1, r)
  {
  }

  lemma HostLeavesSuffix(t: Texts, r: seq<byte>, hostType: byte)
    ensures Suffix(ReadHost(t, r, hostType).1, r)
  {
    hide Mapped;
    TakeLeavesSuffix(r, 4);
    TakeLeavesSuffix(r, 16);
    if r != [] {
      TakeLeavesSuffix(r[1..], r[0]);
      assert r == One(r[0]) + r[1..];
    }
  }

  /** Reading leaves a suffix. */
  lemma LeavesSuffix(t: Texts, r: seq<byte>, hostType: byte)
    ensures Suffix(ReadPort(ReadHost(t, r, hostType).1).1, r)
  {
    hide ReadHost;
    HostLeavesSuffix(t, r, hostType);
    TakeLeavesSuffix(ReadHost(t, r, hostType).1, 2);
  }

  /** `writeSocksComm`; nothing is written after an error or a panic. */
  method WriteSocksComm(t: Texts, data: Common) returns (wire: Result<seq<byte>>)
    ensures wire == WriteComm(t, data)
  {
    var buf := new byte[SMALL_BUF](_ => 0);
    Put(buf, 0, SMALL_BUF, 0, Prefix(VERSION, data.flag, 0, data.hostType));
    var h := PackHost(t, data.hostType, data.host);
    if !h.Ok? {
      return Error;
    }
    if 4 + |h.value| + 2 > SMALL_BUF {
      return Panic;
    }
    Put(buf, 0, SMALL_BUF, 4, h.value);
    Put(buf, 0, SMALL_BUF, 4 + |h.value|, Put16(data.port));
    wire := Ok(buf[0..4 + |h.value| + 2]);
  }
}
