/** The address codec of `shadowsocks/socks.go` (RFC 1928 section 5). */
module SocksAddr {
  import opened Bytes
  import opened Buffers
  import opened Wrappers
  import opened AddressText
  import S = SocksCodec

  /** Type, length octet, the longest name and a port. */
  const MAX_ADDR_LEN: nat := 259

  /** The length of the address at the head of `b`, as far as its first two bytes tell. */
  function AddrLen(b: seq<byte>): Result<nat> {
    if |b| < 1 then Error
    else if b[0] == S.DOMAIN then (if |b| < 2 then Error else Ok(4 + (b[1] as int)))
    else if b[0] == S.IPV4 then Ok(7)
    else if b[0] == S.IPV6 then Ok(19)
    else Error
  }

  /** `SplitAddr`; nothing for `nil`. */
  function SplitAddr(b: seq<byte>): seq<byte> {
    var n := AddrLen(b);
    if !n.Ok? || |b| < n.value then [] else b[..n.value]
  }

  /** A whole address and nothing behind it. */
  predicate IsAddr(a: seq<byte>) {
    a != [] && SplitAddr(a) == a
  }

  // ---- host and port as one text

  const COLON: byte := 58
  const OPENING: byte := 91
  const CLOSING: byte := 93

  function First(s: Text, b: byte): (i: int)
    ensures -1 <= i < |s| && (i < 0 <==> b !in s)
    ensures i >= 0 ==> s[i] == b && b !in s[..i]
  {
    if s == [] then -1 else if s[0] == b then 0 else
    var i := First(s[1..], b);
    if i < 0 then -1 else
    assert s[..i + 1] == [s[0]] + s[1..][..i];
    i + 1
  }

  function Last(s: Text, b: byte): (i: int)
    ensures -1 <= i < |s| && (i < 0 <==> b !in s)
    ensures i >= 0 ==> s[i] == b && b !in s[i + 1..]
  {
    if s == [] then -1 else
    var n := |s| - 1;
    if s[n] == b then n else
    var i := Last(s[..n], b);
    assert s == s[..n] + [s[n]];
    assert i >= 0 ==> s[i + 1..] == s[..n][i + 1..] + [s[n]];
    i
  }

  /** `net.JoinHostPort` */
  function JoinHostPort(host: Text, port: Text): Text {
    if COLON in host then [OPENING] + host + [CLOSING] + [COLON] + port else host + [COLON] + port
  }

  /** `net.SplitHostPort` */
  function SplitHostPort(s: Text): Option<(Text, Text)> {
    var i := Last(s, COLON);
    if i < 0 then None
    else if s[0] == OPENING then
      var end := First(s, CLOSING);
      if end < 0 || end + 1 != i || OPENING in s[1..] || CLOSING in s[end + 1..] then None
      else Some((s[1..end], s[i + 1..]))
    else if COLON in s[..i] || OPENING in s || CLOSING in s then None
    else Some((s[..i], s[i + 1..]))
  }

  predicate Digits(s: Text) {
    forall i :: 0 <= i < |s| ==> 48 <= s[i] < 58
  }

  /** `strconv.Itoa` */
  function Decimal(n: nat): (s: Text)
    ensures s != [] && Digits(s)
  {
    (if n < 10 then [] else Decimal(n / 10)) + [48 + n % 10]
  }

  function Value(s: Text): nat
    requires Digits(s)
  {
    if s == [] then 0 else
    Value(s[..|s| - 1]) * 10 + (s[|s| - 1] as int - 48)
  }

  /** `strconv.ParseUint` with base 10 and 16 bits. */
  function ParsePort(s: Text): Option<u16> {
    if s == [] || !Digits(s) || Value(s) >= 0x1_0000 then None else Some(Value(s))
  }

  lemma {:induction false} DecimalComesBack(n: nat)
    ensures Value(Decimal(n)) == n
  {
    var s := Decimal(n);
    if n >= 10 {
      assert s[..|s| - 1] == Decimal(n / 10);
      DecimalComesBack(n / 10);
    }
  }

  /** A text in brackets without others. */
  predicate Bracketed(host: Text) {
    |host| >= 2 && host[0] == OPENING && host[|host| - 1] == CLOSING && Plain(host[1..|host| - 1])
  }

  lemma LastIs(s: Text, b: byte, i: nat)
    requires i < |s| && s[i] == b && b !in s[i + 1..]
    ensures Last(s, b) == i
  {
    var j := Last(s, b);
    assert forall k :: i < k < |s| ==> s[i + 1..][k - i - 1] == s[k];
    assert forall k :: j < k < |s| ==> s[j + 1..][k - j - 1] == s[k];
  }

  lemma FirstIs(s: Text, b: byte, i: nat)
    requires i < |s| && s[i] == b && b !in s[..i]
    ensures First(s, b) == i
  {
    var j := First(s, b);
    assert forall k :: 0 <= k < i ==> s[..i][k] == s[k];
    assert forall k :: 0 <= k < j ==> s[..j][k] == s[k];
  }

  /** A text that begins with a bracket and has its first closing one behind `inner`. */
  lemma SplitsBracketed(s: Text, inner: Text, tail: Text)
    requires s == [OPENING] + inner + [CLOSING] + tail && CLOSING !in inner && COLON in s
    ensures SplitHostPort(s)
            == if Last(s, COLON) != |inner| + 2 || OPENING in inner || OPENING in tail || CLOSING in tail then None
               else Some((inner, s[|inner| + 3..]))
  {
    hide First, Last;
    assert s[..|inner| + 1] == [OPENING] + inner;
    FirstIs(s, CLOSING, |inner| + 1);
    assert s[1..] == inner + [CLOSING] + tail && s[1..|inner| + 1] == inner && s[|inner| + 2..] == tail;
  }

  /** A host with a colon is put in brackets, and a colon comes before the port. */
  lemma JoinLayout(host: Text, port: Text)
    ensures var s, n := JoinHostPort(host, port), |host|;
            if 58 in host then |s| == n + 3 + |port| && s[0] == 91 && s[1..n + 1] == host && s[n + 1] == 93
                               && s[n + 2] == 58 && s[n + 3..] == port
            else |s| == n + 1 + |port| && s[..n] == host && s[n] == 58 && s[n + 1..] == port
  {
  }

  /** What becomes of a host that is joined with a port and split off again: a pair of brackets around it is lost
      if there is no colon inside, and any other bracket is an error. */
  lemma JoinSplits(host: Text, port: Text)
    requires Digits(port)
    ensures SplitHostPort(JoinHostPort(host, port))
            == if Plain(host) then Some((host, port))
               else if COLON !in host && Bracketed(host) then Some((host[1..|host| - 1], port))
               else None
  {
    if COLON in host {
      JoinSplitsAfterColon(host, port);
    } else if host != [] && host[0] == OPENING {
      JoinSplitsAfterBracket(host, port);
    } else {
      JoinSplitsBare(host, port);
    }
  }

  lemma LastOf(a: Text, port: Text)
    requires Digits(port)
    ensures var s := a + [COLON] + port;
            COLON in s && Last(s, COLON) == |a| && s[|a| + 1..] == port
    ensures OPENING !in [COLON] + port && CLOSING !in [COLON] + port
  {
    hide Last;
    var s := a + [COLON] + port;
    assert s[|a| + 1..] == port;
    LastIs(s, COLON, |a|);
  }

  lemma Regroup(host: Text, i: nat, more: Text)
    requires i < |host| && host[i] == CLOSING
    ensures [OPENING] + host == [OPENING] + host[..i] + [CLOSING] + host[i + 1..]
    ensures [OPENING] + host + more == [OPENING] + host[..i] + [CLOSING] + (host[i + 1..] + more)
  {
    assert host == host[..i] + [CLOSING] + host[i + 1..];
  }

  lemma JoinSplitsAfterColon(host: Text, port: Text)
    requires Digits(port) && COLON in host
    ensures SplitHostPort(JoinHostPort(host, port)) == if Plain(host) then Some((host, port)) else None
  {
    hide First, Last, SplitHostPort, Digits;
    var s := JoinHostPort(host, port);
    LastOf([OPENING] + host + [CLOSING], port);
    Associate([OPENING] + host + [CLOSING], [COLON], port);
    if CLOSING in host {
      var i := First(host, CLOSING);
      Associate([OPENING] + host, [CLOSING], [COLON] + port);
      Regroup(host, i, [CLOSING] + ([COLON] + port));
      SplitsBracketed(s, host[..i], host[i + 1..] + ([CLOSING] + ([COLON] + port)));
    } else {
      SplitsBracketed(s, host, [COLON] + port);
    }
  }

  lemma JoinSplitsAfterBracket(host: Text, port: Text)
    requires Digits(port) && COLON !in host && host != [] && host[0] == OPENING
    ensures SplitHostPort(JoinHostPort(host, port))
            == if Bracketed(host) then Some((host[1..|host| - 1], port)) else None
  {
    hide First, Last, SplitHostPort, Bracketed, Digits;
    var s, rest := JoinHostPort(host, port), host[1..];
    assert host == [OPENING] + rest;
    LastOf(host, port);
    Associate(host, [COLON], port);
    if CLOSING in rest {
      var i := First(rest, CLOSING);
      Regroup(rest, i, [COLON] + port);
      SplitsBracketed(s, rest[..i], rest[i + 1..] + ([COLON] + port));
      BracketedIff(host, rest[..i], rest[i + 1..]);
    } else {
      Unclosed(s, host, rest, port);
    }
  }

  lemma BracketedIff(host: Text, inner: Text, tail: Text)
    requires host == [OPENING] + inner + [CLOSING] + tail && CLOSING !in inner
    ensures Bracketed(host) <==> tail == [] && OPENING !in inner
    ensures tail == [] ==> host[1..|host| - 1] == inner
  {
    if tail != [] {
      assert host[1..|host| - 1][|inner|] == CLOSING;
    } else {
      assert host[1..|host| - 1] == inner;
    }
  }

  lemma Unclosed(s: Text, host: Text, rest: Text, port: Text)
    requires host == [OPENING] + rest && CLOSING !in rest && Digits(port) && s == host + [COLON] + port
    ensures SplitHostPort(s) == None && !Bracketed(host)
  {
    assert CLOSING !in s;
    assert rest != [] ==> host[|host| - 1] == rest[|rest| - 1];
  }

  lemma JoinSplitsBare(host: Text, port: Text)
    requires Digits(port) && COLON !in host && (host != [] ==> host[0] != OPENING)
    ensures SplitHostPort(JoinHostPort(host, port)) == if Plain(host) then Some((host, port)) else None
  {
    hide First, Last;
    var s := JoinHostPort(host, port);
    assert s[..|host|] == host && s[|host| + 1..] == port;
    LastIs(s, COLON, |host|);
    assert s[0] == if host == [] then COLON else host[0];
  }

  // ---- addresses and texts

  /** `ParseAddr`; nothing for `nil`. */
  function ParseAddr(t: Texts, s: Text): seq<byte> {
    match SplitHostPort(s)
    case None => []
    case Some((host, port)) => if ParsePort(port).None? then [] else Encode(t, host, ParsePort(port).value)
  }

  function Encode(t: Texts, host: Text, port: u16): seq<byte> {
    match t.parse(host)
    case Some(b) => if To4(b) != [] then One(S.IPV4) + To4(b) + Put16(port) else One(S.IPV6) + b + Put16(port)
    case None => if |host| > 255 then [] else Pair(S.DOMAIN, |host|) + host + Put16(port)
  }

  function HostOf(t: Texts, a: seq<byte>): Text
    requires IsAddr(a)
  {
    if a[0] == S.DOMAIN then a[2..|a| - 2]
    else if a[0] == S.IPV4 then t.show(Mapped(a[1..5]))
    else t.show(a[1..17])
  }

  function PortOf(a: seq<byte>): u16
    requires IsAddr(a)
  {
    Get16(a[|a| - 2], a[|a| - 1])
  }

  /** `String` */
  function String(t: Texts, a: seq<byte>): Text
    requires IsAddr(a)
  {
    JoinHostPort(HostOf(t, a), Decimal(PortOf(a)))
  }

  /** Every host and port has a form, unless the host is a name of more than 255 bytes, and that is split whole off
      any stream that starts with it, and gives back the port and the host, an address in the text of its own. */
  lemma EncodeRoundTrip(t: Texts, host: Text, port: u16, more: seq<byte>)
    ensures var a := Encode(t, host, port);
            && (a == [] <==> t.parse(host).None? && |host| > 255)
            && (a != [] ==>
                  && SplitAddr(a + more) == a && IsAddr(a) && PortOf(a) == port
                  && HostOf(t, a) == if t.parse(host).Some? then t.show(t.parse(host).value) else host)
  {
    hide Put16, Get16, To4, Mapped;
    var a := Encode(t, host, port);
    if a != [] {
      var n := |a|;
      assert (a + more)[0] == a[0] && (a + more)[1] == a[1] && (a + more)[..n] == a;
      assert a[n - 2..] == Put16(port) && a[n - 2] == Put16(port)[0] && a[n - 1] == Put16(port)[1];
      Get16Put16(port);
      match t.parse(host) {
        case Some(b) =>
          MappedTo4(b);
          To4Length(b);
          if To4(b) != [] {
            assert a[1..5] == To4(b);
          } else {
            assert a[1..17] == b;
          }
        case None => assert a[2..n - 2] == host;
      }
    }
  }

  /** The forms of RFC 1928 section 5, byte for byte. */
  lemma AddressLayout(t: Texts, host: Text, port: u16)
    ensures var a, ip := Encode(t, host, port), t.parse(host);
            a != [] ==>
              && |a| >= 4 && Number(a[|a| - 2..]) == port
              && (if ip.None? then a[0] == 3 && a[1] == |host| && a[2..|a| - 2] == host
                  else if To4(ip.value) != [] then a[0] == 1 && a[1..|a| - 2] == To4(ip.value)
                  else a[0] == 4 && a[1..|a| - 2] == ip.value)
  {
    hide Put16, Number, To4;
    NumberOfWord(port);
    var a, ip := Encode(t, host, port), t.parse(host);
    if a != [] {
      assert a[|a| - 2..] == Put16(port);
      if ip.None? {
        assert a[2..|a| - 2] == host;
      } else {
        To4Length(ip.value);
        assert To4(ip.value) == [] ==> a[1..|a| - 2] == ip.value;
        assert To4(ip.value) != [] ==> a[1..|a| - 2] == To4(ip.value);
      }
    }
  }

  /** A length octet, a type and a port, in place. */
  lemma Pieces(a: seq<byte>)
    requires IsAddr(a)
    ensures var n := |a|;
            && n >= 4 && Put16(PortOf(a)) == a[n - 2..]
            && (a[0] == S.DOMAIN ==> n == 4 + a[1] as int && a == Pair(a[0], a[1]) + a[2..n - 2] + a[n - 2..])
            && (a[0] == S.IPV4 ==> n == 7 && a == One(a[0]) + a[1..5] + a[5..])
            && (a[0] == S.IPV6 ==> n == 19 && a == One(a[0]) + a[1..17] + a[17..])
            && a[0] in {S.DOMAIN, S.IPV4, S.IPV6}
  {
    PutGet(a[|a| - 2], a[|a| - 1]);
  }

  lemma PutGet(x: byte, y: byte)
    ensures Put16(Get16(x, y)) == Pair(x, y)
  {
  }

  /** The addresses whose text is read as the same form: an IPv4 address has a shorter one than under the IPv6
      type, and a name must have no brackets and not be the text of an address. */
  predicate OwnText(t: Texts, a: seq<byte>)
    requires IsAddr(a)
  {
    && (a[0] == S.IPV6 ==> To4(a[1..17]) == [])
    && (a[0] == S.DOMAIN ==> Plain(HostOf(t, a)) && t.parse(HostOf(t, a)).None?)
  }

  lemma EncodedHost(t: Texts, a: seq<byte>)
    requires Lawful(t) && IsAddr(a)
    ensures a[0] == S.DOMAIN && t.parse(HostOf(t, a)).Some? ==> Encode(t, HostOf(t, a), PortOf(a)) != a
    ensures a[0] == S.DOMAIN && t.parse(HostOf(t, a)).None? ==> Encode(t, HostOf(t, a), PortOf(a)) == a
    ensures a[0] == S.IPV4 ==> Encode(t, HostOf(t, a), PortOf(a)) == a
    ensures a[0] == S.IPV6 ==> (Encode(t, HostOf(t, a), PortOf(a)) == a <==> To4(a[1..17]) == [])
  {
    hide To4, Mapped, IsAddr, Put16, Get16;
    Pieces(a);
    if a[0] == S.IPV4 {
      MappedTo4(Mapped(a[1..5]));
    } else if a[0] == S.IPV6 {
      To4Length(a[1..17]);
    }
  }

  /** Reading the text of an address inverts writing it if and only if the address has its own text. */
  lemma TextRoundTrip(t: Texts, a: seq<byte>)
    requires Lawful(t) && IsAddr(a)
    ensures ParseAddr(t, String(t, a)) == a <==> OwnText(t, a)
  {
    hide To4, Mapped, IsAddr, SplitHostPort, JoinHostPort, Encode, Value, Decimal;
    var host, port := HostOf(t, a), Decimal(PortOf(a));
    JoinSplits(host, port);
    DecimalComesBack(PortOf(a));
    Pieces(a);
    EncodedHost(t, a);
    if !Plain(host) && COLON !in host && Bracketed(host) {
      Unbracketed(t, a, host[1..|host| - 1]);
    }
  }

  lemma Unbracketed(t: Texts, a: seq<byte>, inner: Text)
    requires IsAddr(a) && a[0] == S.DOMAIN && |inner| == |HostOf(t, a)| - 2
    ensures Encode(t, inner, PortOf(a)) != a
  {
    if t.parse(inner).None? {
      assert Encode(t, inner, PortOf(a))[1] == |inner|;
    }
  }

  /** No address is a proper prefix of another. */
  lemma PrefixFree(a: seq<byte>, b: seq<byte>)
    requires IsAddr(a) && IsAddr(b) && a <= b
    ensures a == b
  {
    assert a[0] == b[0] && (|a| >= 2 ==> a[1] == b[1]);
  }

  /** The first one or two bytes, and how many are still to come. */
  method ReadHead(r: S.Reader, b: array<byte>) returns (ok: bool, at: nat, length: nat)
    requires b.Length >= 2
    modifies r, b
    ensures ok <==> AddrLen(old(r.rest)).Ok?
    ensures !ok ==> r.rest == if |old(r.rest)| > 1 && old(r.rest)[0] !in {1, 3, 4} then old(r.rest)[1..] else []
    ensures ok ==> AddrLen(old(r.rest)) == Ok(at + length) && at <= 2 && b[..at] + r.rest == old(r.rest)
  {
    ok, at, length := false, 0, 0;
    var first := r.ReadFull(1);
    if !first.Ok? {
      return;
    }
    b[0] := first.value[0];
    if b[0] == S.DOMAIN {
      var second := r.ReadFull(1);
      if !second.Ok? {
        return;
      }
      b[1] := second.value[0];
      at, length := 2, (b[1] as int) + 2;
    } else if b[0] == S.IPV4 {
      at, length := 1, 6;
    } else if b[0] == S.IPV6 {
      at, length := 1, 18;
    } else {
      return;
    }
    ok := true;
  }

  /** `readAddr` into a buffer with room for the longest address: it succeeds exactly when `SplitAddr` does, with
      the same bytes, and consumes no more than these. It has consumed an unknown type, or all there was, when it
      fails. */
  method ReadAddr(r: S.Reader, b: array<byte>) returns (n: Result<nat>)
    modifies r, b
    ensures b.Length < 259 ==> n == Error && r.rest == old(r.rest)
    ensures b.Length >= 259 ==> (n.Ok? <==> SplitAddr(old(r.rest)) != [])
    ensures b.Length >= 259 && !n.Ok? ==>
              r.rest == if |old(r.rest)| > 1 && old(r.rest)[0] !in {1, 3, 4} then old(r.rest)[1..] else []
    ensures n.Ok? ==> n.value <= b.Length && b[..n.value] == SplitAddr(old(r.rest))
                      && b[..n.value] + r.rest == old(r.rest)
  {
    if b.Length < MAX_ADDR_LEN {
      return Error;
    }
    ghost var all := r.rest;
    var ok, at, length := ReadHead(r, b);
    if !ok {
      return Error;
    }
    ghost var head, rest := b[..at], r.rest;
    LongestAddr(all);
    var body := r.ReadFull(length);
    if !body.Ok? {
      return Error;
    }
    Put(b, 0, b.Length, at, body.value);
    n := Ok(at + length);
    assert b[..at + length] == head + body.value;
    assert head + body.value + r.rest == all;
  }

  lemma LongestAddr(b: seq<byte>)
    ensures AddrLen(b).Ok? ==> 0 < AddrLen(b).value <= MAX_ADDR_LEN
  {
  }
}
