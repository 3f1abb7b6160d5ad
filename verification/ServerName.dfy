/** The server name of a TLS ClientHello, as `packet/tls.go` finds it (RFC 5246 section 7.4.1.2, RFC 6066
    section 3). */
module ServerName {
  import opened Bytes
  import opened Wrappers

  /** A Go slice: the memory from its first byte to its capacity, and its length. An index stops at the
      length, the upper bound of a slice of it only at the capacity. */
  datatype Slice_ = Slice(mem: seq<byte>, len: nat)
  type Slice = s: Slice_ | s.len <= |s.mem| witness Slice([], 0)

  function Contents(s: Slice): seq<byte> {
    s.mem[..s.len]
  }

  const HANDSHAKE: byte := 0x16
  const SESSION: nat := 43

  /** Two length bytes, the first of which is shifted out of its byte. */
  function Length(hi: byte, lo: byte): byte {
    ((hi as int) * 256 % 256 + lo) % 256
  }

  // ---- what the walks find

  /** `d[from:]` */
  function From(d: Slice, from: nat): Slice
    requires from <= d.len
  {
    Slice(d.mem[from..], d.len - from)
  }

  /** `d[from:to]` */
  function Cut(d: Slice, from: nat, to: nat): Result<Slice>
    requires from <= to
  {
    if to <= |d.mem| then Ok(Slice(d.mem[from..], to - from)) else Panic
  }

  /** The extension block of a hello. */
  function ExtensionBlock(d: Slice): (r: Result<Slice>)
    ensures !r.Panic?
  {
    if d.len <= SESSION + 1 then Error else
    var ciphers := SESSION + 1 + d.mem[SESSION];
    if ciphers + 2 >= d.len then Error else
    var compression := ciphers + 2 + Length(d.mem[ciphers], d.mem[ciphers + 1]);
    if compression + 1 >= d.len then Error else
    var extensions := compression + 1 + d.mem[compression];
    if extensions >= d.len then Error else Ok(From(d, extensions))
  }

  /** The walk over extensions from `index`: the body of the first of type 0. */
  function WalkExtensions(d: Slice, index: nat): Result<Slice>
    decreases d.len - index
  {
    if index + 3 >= d.len then Error else
    var end := index + 4 + Length(d.mem[index + 2], d.mem[index + 3]);
    if d.mem[index] == 0 && d.mem[index + 1] == 0 then Cut(d, index + 4, end) else WalkExtensions(d, end)
  }

  function SNBlock(d: Slice): Result<Slice> {
    if d.len < 2 then Error else
    var n := Length(d.mem[0], d.mem[1]);
    if n + 2 > d.len then Error else WalkExtensions(Slice(d.mem[2..], n), 0)
  }

  /** The walk over the server name list from `index`: the first name of type 0. */
  function WalkNames(d: Slice, index: nat): Result<Slice>
    decreases d.len - index
  {
    if index >= d.len then Error else
    if index + 2 >= d.len then Panic else
    if d.mem[index + 2] == 0 then
      if index + 4 >= d.len then Panic else
      Cut(d, index + 5, index + 5 + Length(d.mem[index + 3], d.mem[index + 4]))
    else WalkNames(d, index + 2 + Length(d.mem[index], d.mem[index + 1]))
  }

  function Hostname(d: Slice): Result<seq<byte>> {
    if d.len == 0 || d.mem[0] != HANDSHAKE then Error else
    match ExtensionBlock(d)
    case Error => Error
    case Panic => Panic
    case Ok(extensions) =>
      match SNBlock(extensions)
      case Error => Error
      case Panic => Panic
      case Ok(sn) =>
        match WalkNames(sn, 0)
        case Error => Error
        case Panic => Panic
        case Ok(sni) => Ok(Contents(sni))
  }

  // ---- the loops

  method GetExtensionBlock(data: Slice) returns (r: Result<Slice>)
    ensures r == ExtensionBlock(data)
  {
    var index := SESSION;
    if data.len <= index + 1 {
      return Error;
    }
    var newIndex := index + 1 + data.mem[index];
    if newIndex + 2 < data.len {
      index := newIndex;
    } else {
      return Error;
    }
    newIndex := index + 2 + Length(data.mem[index], data.mem[index + 1]);
    if newIndex + 1 < data.len {
      index := newIndex;
    } else {
      return Error;
    }
    newIndex := index + 1 + data.mem[index];
    if newIndex < data.len {
      index := newIndex;
    } else {
      return Error;
    }
    if From(data, index).len == 0 {
      return Error;
    }
    return Ok(From(data, index));
  }

  method GetSNBlock(data: Slice) returns (r: Result<Slice>)
    ensures r == SNBlock(data)
  {
    var index := 0;
    if data.len < 2 {
      return Error;
    }
    var extensionLength := Length(data.mem[index], data.mem[index + 1]);
    if extensionLength + 2 > data.len {
      return Error;
    }
    var block := Slice(data.mem[2..], extensionLength);
    while true
      invariant 0 <= index && WalkExtensions(block, index) == WalkExtensions(block, 0)
      decreases block.len - index
    {
      if index + 3 >= block.len {
        break;
      }
      var length := Length(block.mem[index + 2], block.mem[index + 3]);
      var endIndex := index + 4 + length;
      if block.mem[index] == 0 && block.mem[index + 1] == 0 {
        return Cut(block, index + 4, endIndex);
      }
      index := endIndex;
    }
    return Error;
  }

  method GetSNIBlock(data: Slice) returns (r: Result<Slice>)
    ensures r == WalkNames(data, 0)
  {
    var index := 0;
    while true
      invariant 0 <= index && WalkNames(data, index) == WalkNames(data, 0)
      decreases data.len - index
    {
      if index >= data.len {
        break;
      }
      if index + 2 >= data.len {
        return Panic;
      }
      var length := Length(data.mem[index], data.mem[index + 1]);
      var endIndex := index + 2 + length;
      if data.mem[index + 2] == 0 {
        var sni := From(data, index + 3);
        if sni.len < 2 {
          return Panic;
        }
        var sniLength: nat := Length(sni.mem[0], sni.mem[1]);
        assert sni.mem[2..] == data.mem[index + 5..];
        return Cut(sni, 2, sniLength + 2);
      }
      index := endIndex;
    }
    return Error;
  }

  method GetHostnameTls(data: Slice) returns (r: Result<seq<byte>>)
    ensures r == Hostname(data)
  {
    if data.len == 0 || data.mem[0] != HANDSHAKE {
      return Error;
    }
    var extensions := GetExtensionBlock(data);
    if !extensions.Ok? {
      return Error;
    }
    var sn := GetSNBlock(extensions.value);
    if !sn.Ok? {
      return if sn.Panic? then Panic else Error;
    }
    var sni := GetSNIBlock(sn.value);
    if !sni.Ok? {
      return if sni.Panic? then Panic else Error;
    }
    return Ok(Contents(sni.value));
  }

  // ---- the same in bytes

  /** The extensions of what may be a hello begin at `e`: behind a session id, a cipher list, of the length of
      which only the low byte counts, and compression methods, all of them there. */
  predicate ExtensionsAt(d: Slice, e: nat) {
    && 44 < d.len
    && var c: nat := 44 + (d.mem[43] as int);
    && c + 2 < d.len
    && var k: nat := c + 2 + d.mem[c + 1];
    && k + 1 < d.len && e == k + 1 + d.mem[k] && e < d.len
  }

  /** From an entry of another kind at `j` to the one at `i`, in an extension block of which `n` bytes count. */
  predicate Passes(block: seq<byte>, n: nat, j: nat, i: nat)
    requires n <= |block|
  {
    j + 4 <= n && (block[j] != 0 || block[j + 1] != 0) && i == j + 4 + block[j + 3]
  }

  /** Going from entry to entry one comes to `i`. */
  ghost predicate ReachesExtension(block: seq<byte>, n: nat, i: nat)
    requires n <= |block|
    decreases i
  {
    i == 0 || exists j: nat :: j < i && ReachesExtension(block, n, j) && Passes(block, n, j, i)
  }

  /** The entry at `i` is the first server_name extension that is looked at. */
  ghost predicate FirstAt(block: seq<byte>, n: nat, i: nat)
    requires n <= |block|
  {
    ReachesExtension(block, n, i) && i + 4 <= n && block[i] == 0 && block[i + 1] == 0
  }

  /** The same in a server name list of `n` bytes. */
  ghost predicate ReachesName(names: seq<byte>, n: nat, i: nat)
    requires n <= |names|
    decreases i
  {
    i == 0 || exists j: nat :: j < i && ReachesName(names, n, j) && j + 3 <= n
                               && names[j + 2] != 0 && i == j + 2 + names[j + 1]
  }

  /** An entry that is reached is cut off in its first three bytes, or is a host name that is cut off in its first
      five or goes on beyond the buffer. */
  ghost predicate NameStuck(names: seq<byte>, n: nat)
    requires n <= |names|
  {
    exists i: nat :: ReachesName(names, n, i) && i < n
                     && (i + 3 > n || (names[i + 2] == 0 && (i + 5 > n || i + 5 + names[i + 4] > |names|)))
  }

  ghost predicate NameIs(names: seq<byte>, n: nat, host: seq<byte>)
    requires n <= |names|
  {
    exists i: nat :: ReachesName(names, n, i) && i + 5 <= n && names[i + 2] == 0
                     && i + 5 + names[i + 4] <= |names| && host == names[i + 5..i + 5 + names[i + 4]]
  }

  /** A handshake record in which a whole extension block, `n` bytes of which count, follows at `e`. */
  predicate Complete(d: Slice, e: nat, n: nat) {
    && d.len > 0 && d.mem[0] == 0x16
    && ExtensionsAt(d, e) && e + 2 <= d.len && n == d.mem[e + 1] && e + 2 + n <= d.len
  }

  /** The header of the first server_name extension lies `i` bytes behind the length of the block. */
  ghost predicate ServerNameAt(d: Slice, e: nat, n: nat, i: nat) {
    Complete(d, e, n) && FirstAt(d.mem[e + 2..], n, i)
  }

  /** The server name cannot be sliced out. */
  ghost predicate Unsliceable(d: Slice) {
    exists e: nat, n: nat, i: nat :: ServerNameAt(d, e, n, i)
      && var body, length := d.mem[e + 6 + i..], d.mem[e + 5 + i];
         length > |body| || NameStuck(body, length)
  }

  ghost predicate HasHost(d: Slice, host: seq<byte>) {
    exists e: nat, n: nat, i: nat :: ServerNameAt(d, e, n, i)
      && var body, length := d.mem[e + 6 + i..], d.mem[e + 5 + i];
         length <= |body| && NameIs(body, length, host)
  }

  lemma LowByte(hi: byte, lo: byte)
    ensures Length(hi, lo) == lo
  {
  }

  lemma {:induction false} NamesFrom(d: Slice, i: nat)
    requires ReachesName(d.mem, d.len, i)
    ensures WalkNames(d, 0) == WalkNames(d, i)
    decreases i
  {
    hide Length;
    if i > 0 {
      var j: nat :| j < i && ReachesName(d.mem, d.len, j) && j + 3 <= d.len
                    && d.mem[j + 2] != 0 && i == j + 2 + d.mem[j + 1];
      LowByte(d.mem[j], d.mem[j + 1]);
      NamesFrom(d, j);
    }
  }

  lemma {:induction false} NamesEnd(d: Slice, i: nat)
    requires ReachesName(d.mem, d.len, i)
    ensures var r := WalkNames(d, i);
            && (r.Panic? ==> NameStuck(d.mem, d.len))
            && (r.Ok? ==> NameIs(d.mem, d.len, Contents(r.value)))
    decreases d.len - i
  {
    hide Length;
    if i + 3 <= d.len {
      LowByte(d.mem[i], d.mem[i + 1]);
      if d.mem[i + 2] != 0 {
        NamesEnd(d, i + 2 + d.mem[i + 1]);
      } else if i + 5 <= d.len {
        LowByte(d.mem[i + 3], d.mem[i + 4]);
        var n := d.mem[i + 4];
        if i + 5 + n <= |d.mem| {
          assert d.mem[i + 5..][..n] == d.mem[i + 5..i + 5 + n];
        }
      }
    }
  }

  lemma NamesIff(d: Slice)
    ensures var r := WalkNames(d, 0);
            && (r.Panic? <==> NameStuck(d.mem, d.len))
            && (forall host :: r.Ok? && Contents(r.value) == host <==> NameIs(d.mem, d.len, host))
  {
    hide Length, WalkNames;
    NamesEnd(d, 0);
    if NameStuck(d.mem, d.len) {
      var i: nat :| ReachesName(d.mem, d.len, i) && i < d.len
        && (i + 3 > d.len
            || (d.mem[i + 2] == 0 && (i + 5 > d.len || i + 5 + d.mem[i + 4] > |d.mem|)));
      NamesFrom(d, i);
      StuckThere(d, i);
    }
    forall host | NameIs(d.mem, d.len, host)
      ensures WalkNames(d, 0).Ok? && Contents(WalkNames(d, 0).value) == host
    {
      var i: nat :| ReachesName(d.mem, d.len, i) && i + 5 <= d.len && d.mem[i + 2] == 0
        && i + 5 + d.mem[i + 4] <= |d.mem| && host == d.mem[i + 5..i + 5 + d.mem[i + 4]];
      NamesFrom(d, i);
      HostThere(d, i);
    }
  }

  lemma StuckThere(d: Slice, i: nat)
    requires i < d.len
    requires i + 3 > d.len || (d.mem[i + 2] == 0 && (i + 5 > d.len || i + 5 + d.mem[i + 4] > |d.mem|))
    ensures WalkNames(d, i).Panic?
  {
    hide Length;
    if i + 5 <= d.len { LowByte(d.mem[i + 3], d.mem[i + 4]); }
  }

  lemma HostThere(d: Slice, i: nat)
    requires i + 5 <= d.len && d.mem[i + 2] == 0 && i + 5 + d.mem[i + 4] <= |d.mem|
    ensures var r := WalkNames(d, i); r.Ok? && Contents(r.value) == d.mem[i + 5..i + 5 + d.mem[i + 4]]
  {
    hide Length;
    LowByte(d.mem[i + 3], d.mem[i + 4]);
    var n := d.mem[i + 4];
    assert d.mem[i + 5..][..n] == d.mem[i + 5..i + 5 + n];
  }

  lemma PassesOn(d: Slice, j: nat, i: nat)
    requires Passes(d.mem, d.len, j, i)
    ensures j < i && WalkExtensions(d, j) == WalkExtensions(d, i)
  {
    hide Length, WalkExtensions;
    LowByte(d.mem[j + 2], d.mem[j + 3]);
    WalkPasses(d, j, d.mem[j + 3]);
  }

  lemma {:induction false} ExtensionsFrom(d: Slice, i: nat)
    requires ReachesExtension(d.mem, d.len, i)
    ensures WalkExtensions(d, 0) == WalkExtensions(d, i)
    decreases i
  {
    hide WalkExtensions, Passes;
    if i > 0 {
      var j: nat :| j < i && ReachesExtension(d.mem, d.len, j) && Passes(d.mem, d.len, j, i);
      PassesOn(d, j, i);
      ExtensionsFrom(d, j);
    }
  }

  lemma {:induction false} ExtensionsEnd(d: Slice, i: nat)
    requires ReachesExtension(d.mem, d.len, i)
    ensures WalkExtensions(d, i).Error? || exists k: nat :: FirstAt(d.mem, d.len, k)
    decreases d.len - i
  {
    hide WalkExtensions;
    if i + 4 > d.len {
      WalkEnds(d, i);
    } else if d.mem[i] == 0 && d.mem[i + 1] == 0 {
      assert FirstAt(d.mem, d.len, i);
    } else {
      var next := i + 4 + d.mem[i + 3];
      PassesOn(d, i, next);
      JustReached(d.mem, d.len, i, next);
      ExtensionsEnd(d, next);
    }
  }

  lemma JustReached(block: seq<byte>, n: nat, j: nat, i: nat)
    requires n <= |block| && ReachesExtension(block, n, j) && Passes(block, n, j, i)
    ensures ReachesExtension(block, n, i)
  {
  }

  lemma FirstThere(d: Slice, i: nat)
    requires FirstAt(d.mem, d.len, i)
    ensures WalkExtensions(d, 0) == Cut(d, i + 4, i + 4 + d.mem[i + 3])
  {
    hide Length;
    ExtensionsFrom(d, i);
    LowByte(d.mem[i + 2], d.mem[i + 3]);
  }

  /** The extensions, and the part of them that counts. */
  lemma BlockIff(d: Slice)
    ensures ExtensionBlock(d).Ok? <==> exists e: nat :: ExtensionsAt(d, e)
    ensures forall e: nat :: ExtensionsAt(d, e) ==> ExtensionBlock(d) == Ok(From(d, e))
  {
    hide Length;
    if 44 < d.len {
      var c: nat := 44 + (d.mem[43] as int);
      if c + 2 < d.len {
        LowByte(d.mem[c], d.mem[c + 1]);
        var k: nat := c + 2 + d.mem[c + 1];
        assert k + 1 < d.len && k + 1 + d.mem[k] < d.len ==> ExtensionsAt(d, k + 1 + d.mem[k]);
      }
    }
  }

  lemma CompleteBlock(d: Slice, e: nat, n: nat)
    requires Complete(d, e, n)
    ensures ExtensionBlock(d) == Ok(From(d, e))
    ensures SNBlock(From(d, e)) == WalkExtensions(Slice(d.mem[e + 2..], n), 0)
  {
    hide Length, WalkExtensions, ExtensionsAt, ExtensionBlock;
    BlockIff(d);
    LowByte(d.mem[e], d.mem[e + 1]);
    assert d.mem[e..][2..] == d.mem[e + 2..];
  }

  /** The lookup from where a server name extension has been reached. */
  lemma HostnameThere(d: Slice, e: nat, n: nat, i: nat)
    requires ServerNameAt(d, e, n, i)
    ensures var body, length := d.mem[e + 6 + i..], d.mem[e + 5 + i];
            && (Hostname(d).Panic? <==> length > |body| || NameStuck(body, length))
            && (forall host :: Hostname(d) == Ok(host) <==> length <= |body| && NameIs(body, length, host))
  {
    hide Length, WalkExtensions, WalkNames, ExtensionBlock, SNBlock, NameStuck, NameIs;
    CompleteBlock(d, e, n);
    var block := Slice(d.mem[e + 2..], n);
    FirstThere(block, i);
    assert block.mem[i + 3] == d.mem[e + 5 + i] && block.mem[i + 4..] == d.mem[e + 6 + i..];
    var body, length := d.mem[e + 6 + i..], d.mem[e + 5 + i];
    if length <= |body| {
      NamesIff(Slice(body, length));
    }
  }

  /** Without one there is an error. */
  lemma HostnameNowhere(d: Slice)
    requires !exists e: nat, n: nat, i: nat :: ServerNameAt(d, e, n, i)
    ensures Hostname(d) == Error
  {
    hide Length, WalkExtensions, WalkNames, ExtensionBlock, ExtensionsAt, FirstAt;
    BlockIff(d);
    if d.len > 0 && d.mem[0] == HANDSHAKE && ExtensionBlock(d).Ok? {
      var e: nat :| ExtensionsAt(d, e);
      Inside(d, e);
      if e + 2 <= d.len && e + 2 + d.mem[e + 1] <= d.len {
        var n := d.mem[e + 1];
        CompleteBlock(d, e, n);
        ReachesFirst(d.mem[e + 2..], n);
        var block := Slice(d.mem[e + 2..], n);
        ExtensionsEnd(block, 0);
        forall k: nat ensures FirstAt(block.mem, block.len, k) ==> ServerNameAt(d, e, n, k) {
        }
      } else if e + 2 <= d.len {
        LowByte(d.mem[e], d.mem[e + 1]);
      }
    }
  }

  lemma Inside(d: Slice, e: nat)
    ensures ExtensionsAt(d, e) ==> e < d.len
  {
  }

  lemma ReachesFirst(block: seq<byte>, n: nat)
    requires n <= |block|
    ensures ReachesExtension(block, n, 0)
  {
  }

  /** What the lookup makes of any bytes in any buffer: a panic if and only if the server name cannot be sliced out,
      a host if and only if that is the first host name of the first server_name extension, and an error
      otherwise. */
  lemma HostnameIff(d: Slice)
    ensures Hostname(d) == Panic <==> Unsliceable(d)
    ensures forall host :: Hostname(d) == Ok(host) <==> HasHost(d, host)
  {
    hide Hostname, ExtensionsAt, ReachesExtension, NameStuck, NameIs;
    if exists e: nat, n: nat, i: nat :: ServerNameAt(d, e, n, i) {
      forall e: nat, n: nat, i: nat | ServerNameAt(d, e, n, i)
        ensures var body, length := d.mem[e + 6 + i..], d.mem[e + 5 + i];
                && (Hostname(d).Panic? <==> length > |body| || NameStuck(body, length))
                && (forall host :: Hostname(d) == Ok(host) <==> length <= |body| && NameIs(body, length, host))
      {
        HostnameThere(d, e, n, i);
      }
    } else {
      HostnameNowhere(d);
    }
  }

  // ---- encodings

  datatype Extension = Extension(kind: u16, body: seq<byte>)

  function Encode(e: Extension): seq<byte>
    requires |e.body| < 0x1_0000
  {
    Put16(e.kind) + Put16(|e.body|) + e.body
  }

  predicate Encodable(es: seq<Extension>) {
    forall e <- es :: |e.body| < 0x1_0000
  }

  function EncodeAll(es: seq<Extension>): seq<byte>
    requires Encodable(es)
  {
    if es == [] then [] else Encode(es[0]) + EncodeAll(es[1..])
  }

  /** The record and handshake headers, version and random take 43 bytes; then come a session id, a cipher
      list, the compression methods and the extensions. */
  datatype Hello = Hello(head: seq<byte>, session: seq<byte>, ciphers: seq<byte>, compression: seq<byte>,
                         extensions: seq<Extension>)

  predicate WellFormed(h: Hello) {
    && |h.head| == SESSION && h.head[0] == HANDSHAKE
    && |h.session| < 0x100 && |h.ciphers| < 0x1_0000 && |h.compression| < 0x100
    && Encodable(h.extensions) && |EncodeAll(h.extensions)| < 0x1_0000
  }

  function EncodeHello(h: Hello): seq<byte>
    requires WellFormed(h)
  {
    var block := EncodeAll(h.extensions);
    h.head + One(|h.session|) + h.session + Put16(|h.ciphers|) + h.ciphers + One(|h.compression|) + h.compression
    + Put16(|block|) + block
  }

  /** A server name list that starts with a host name. */
  function NameList(name: seq<byte>, others: seq<byte>): seq<byte>
    requires |name| < 0x1_0000 && 3 + |name| + |others| < 0x1_0000
  {
    Put16(3 + |name| + |others|) + [0] + Put16(|name|) + name + others
  }

  /** The body of the first server_name extension. */
  function FirstServerName(es: seq<Extension>): Result<seq<byte>> {
    if es == [] then Error
    else if es[0].kind == 0 then Ok(es[0].body)
    else FirstServerName(es[1..])
  }

  // ---- decodings

  lemma ShortLength(n: nat)
    requires n < 0x100
    ensures Length(Put16(n)[0], Put16(n)[1]) == n
  {
  }

  lemma LowLength(n: u16)
    ensures Length(Put16(n)[0], Put16(n)[1]) == n % 256
  {
  }

  lemma ZeroKind(n: u16)
    ensures Put16(n)[0] == 0 && Put16(n)[1] == 0 <==> n == 0
  {
  }

  /** Four bytes of header and a body, in the middle of other bytes. */
  lemma InTheMiddle(before: seq<byte>, a: seq<byte>, b: seq<byte>, body: seq<byte>, rest: seq<byte>)
    requires |a| == |b| == 2
    ensures var d, i := before + (a + b + body + rest), |before|;
            && |d| == i + 4 + |body| + |rest|
            && d[i] == a[0] && d[i + 1] == a[1] && d[i + 2] == b[0] && d[i + 3] == b[1]
            && d[i + 4..i + 4 + |body|] == body
            && d == (before + (a + b + body)) + rest
  {
  }

  lemma WalkEnds(d: Slice, index: nat)
    requires index + 4 > d.len
    ensures WalkExtensions(d, index) == Error
  {
  }

  lemma WalkPasses(d: Slice, index: nat, n: nat)
    requires index + 4 <= d.len && Length(d.mem[index + 2], d.mem[index + 3]) == n
    ensures WalkExtensions(d, index)
            == if d.mem[index] == 0 && d.mem[index + 1] == 0 then Cut(d, index + 4, index + 4 + n)
               else WalkExtensions(d, index + 4 + n)
  {
  }

  /** The bytes up to the body of the first server_name extension. */
  function FirstHeader(es: seq<Extension>): nat
    requires Encodable(es)
  {
    if es == [] then 0 else 4 + if es[0].kind == 0 then 0 else |es[0].body| + FirstHeader(es[1..])
  }

  predicate ShortBodies(es: seq<Extension>) {
    forall e <- es :: |e.body| < 0x100
  }

  /** From any position in the list of extensions, cut anywhere, the walk finds the first server_name
      extension exactly if the cut leaves its header; the body may lie behind the cut. */
  lemma {:induction false} WalkFinds(before: seq<byte>, es: seq<Extension>, after: seq<byte>, cut: nat)
    requires ShortBodies(es) && Encodable(es) && cut <= |before| + |EncodeAll(es)|
    ensures var r := WalkExtensions(Slice(before + (EncodeAll(es) + after), cut), |before|);
            var first := FirstServerName(es);
            if first.Ok? && |before| + FirstHeader(es) <= cut then r.Ok? && Contents(r.value) == first.value
            else r == Error
    decreases |es|
  {
    hide Length, Put16, WalkExtensions;
    var mem, index := before + (EncodeAll(es) + after), |before|;
    var d := Slice(mem, cut);
    if es == [] || index + 4 > cut {
      WalkEnds(d, index);
    } else {
      var e, rest := es[0], EncodeAll(es[1..]) + after;
      assert EncodeAll(es) + after == Encode(e) + rest;
      InTheMiddle(before, Put16(e.kind), Put16(|e.body|), e.body, rest);
      ShortLength(|e.body|);
      ZeroKind(e.kind);
      WalkPasses(d, index, |e.body|);
      if e.kind != 0 {
        WalkFinds(before + Encode(e), es[1..], after, cut);
      } else {
        assert mem[index + 4..][..|e.body|] == mem[index + 4..index + 4 + |e.body|];
      }
    }
  }

  lemma {:induction false} NeverPanics(es: seq<Extension>)
    requires Encodable(es)
    ensures !FirstServerName(es).Panic? && FirstHeader(es) <= |EncodeAll(es)|
  {
    hide Put16;
    if es != [] { NeverPanics(es[1..]); }
  }

  /** Headers are searched up to the low byte of the length of the extension block. */
  lemma BlockIsCut(block: seq<byte>, more: seq<byte>, beyond: seq<byte>)
    requires |block| < 0x1_0000
    ensures var tail := Put16(|block|) + block + more;
            SNBlock(Slice(tail + beyond, |tail|)) == WalkExtensions(Slice(block + (more + beyond), |block| % 256), 0)
  {
    hide Length, Put16, WalkExtensions;
    var tail, n := Put16(|block|) + block + more, |block| % 256;
    LowLength(|block|);
    assert (tail + beyond)[0] == Put16(|block|)[0] && (tail + beyond)[1] == Put16(|block|)[1];
    assert (tail + beyond)[2..] == block + (more + beyond);
  }

  /** What follows the fixed part of a hello. */
  function Tail(h: Hello, more: seq<byte>): seq<byte>
    requires WellFormed(h)
  {
    Put16(|EncodeAll(h.extensions)|) + EncodeAll(h.extensions) + more
  }

  /** A counted field at `at`. */
  lemma SkipField(d: seq<byte>, at: nat, count: seq<byte>, field: seq<byte>, rest: seq<byte>)
    requires at <= |d| && d[at..] == count + field + rest && 0 < |count| <= 2
    ensures at + |count| + |field| <= |d| && d[at + |count| + |field|..] == rest
    ensures d[at] == count[0] && (|count| == 2 ==> d[at + 1] == count[1])
  {
    assert d[at..][|count| + |field|..] == rest;
    assert d[at..][0] == d[at];
    if |count| == 2 {
      assert d[at..][1] == d[at + 1];
    }
  }

  /** The three hops of `GetExtensionBlock`. */
  lemma Hops(d: Slice, session: nat, ciphers: nat, compression: nat)
    requires SESSION < d.len && d.mem[SESSION] == session
    requires var a := SESSION + 1 + session; a + 2 < d.len && Length(d.mem[a], d.mem[a + 1]) == ciphers
    requires var b := SESSION + 3 + session + ciphers; b + 1 < d.len && d.mem[b] == compression
    requires SESSION + 4 + session + ciphers + compression < d.len
    ensures ExtensionBlock(d) == Ok(From(d, SESSION + 4 + session + ciphers + compression))
  {
    hide Length;
  }

  /** Three counted fields, one after the other. */
  lemma FieldsAt(d: seq<byte>, c1: seq<byte>, f1: seq<byte>, c2: seq<byte>, f2: seq<byte>, c3: seq<byte>, f3: seq<byte>,
                 tail: seq<byte>)
    requires |c1| == |c3| == 1 && |c2| == 2 && |tail| >= 2
    requires SESSION <= |d| && d[SESSION..] == c1 + f1 + (c2 + f2 + (c3 + f3 + tail))
    ensures var a := SESSION + 1 + |f1|;
            var b := a + 2 + |f2|;
            && b + 3 + |f3| <= |d|
            && d[SESSION] == c1[0] && d[a] == c2[0] && d[a + 1] == c2[1] && d[b] == c3[0]
            && d[SESSION + 4 + |f1| + |f2| + |f3|..] == tail
  {
    SkipField(d, SESSION, c1, f1, c2 + f2 + (c3 + f3 + tail));
    SkipField(d, SESSION + 1 + |f1|, c2, f2, c3 + f3 + tail);
    SkipField(d, SESSION + 3 + |f1| + |f2|, c3, f3, tail);
  }

  /** What follows the cipher list, and what follows the session id. */
  function FromCompression(h: Hello, more: seq<byte>): seq<byte>
    requires WellFormed(h)
  {
    One(|h.compression|) + h.compression + Tail(h, more)
  }

  function FromCiphers(h: Hello, more: seq<byte>): seq<byte>
    requires WellFormed(h)
  {
    Put16(|h.ciphers|) + h.ciphers + FromCompression(h, more)
  }

  lemma FromSession(h: Hello, more: seq<byte>)
    requires WellFormed(h)
    ensures |EncodeHello(h)| > SESSION
    ensures (EncodeHello(h) + more)[SESSION..] == One(|h.session|) + h.session + FromCiphers(h, more)
  {
    hide Put16, EncodeAll;
  }

  /** A hello at the head of what was received, in a buffer that goes on. */
  function Received(h: Hello, more: seq<byte>, beyond: seq<byte>): Slice
    requires WellFormed(h)
  {
    Slice(EncodeHello(h) + more + beyond, |EncodeHello(h) + more|)
  }

  /** The extension block is found for every session id and every list of compression methods. */
  lemma ExtensionsFound(h: Hello, more: seq<byte>, beyond: seq<byte>)
    requires WellFormed(h) && |h.ciphers| < 0x100
    ensures ExtensionBlock(Received(h, more, beyond)) == Ok(Slice(Tail(h, more) + beyond, |Tail(h, more)|))
  {
    hide Length, Put16, EncodeAll, EncodeHello, ExtensionBlock;
    var d := EncodeHello(h) + more;
    FromSession(h, more);
    FieldsAt(d, One(|h.session|), h.session, Put16(|h.ciphers|), h.ciphers, One(|h.compression|), h.compression,
             Tail(h, more));
    ShortLength(|h.ciphers|);
    var start := SESSION + 4 + |h.session| + |h.ciphers| + |h.compression|;
    Hops(Received(h, more, beyond), |h.session|, |h.ciphers|, |h.compression|);
    assert (d + beyond)[start..] == d[start..] + beyond;
  }

  /** Where the extensions of a hello begin. */
  function Start(h: Hello): nat {
    47 + |h.session| + |h.ciphers| + |h.compression|
  }

  lemma StartsThere(h: Hello)
    requires WellFormed(h) && |h.ciphers| < 0x100
    ensures var d := EncodeHello(h);
            && |d| == Start(h) + 2 + |EncodeAll(h.extensions)|
            && d[43] == |h.session| && d[45 + |h.session|] == |h.ciphers|
            && d[46 + |h.session| + |h.ciphers|] == |h.compression|
            && d[Start(h) + 1] == |EncodeAll(h.extensions)| % 256
  {
    hide EncodeAll, EncodeHello, Put16;
    var d, more := EncodeHello(h), [];
    assert d + more == d;
    FromSession(h, more);
    FieldsAt(d, One(|h.session|), h.session, Put16(|h.ciphers|), h.ciphers, One(|h.compression|), h.compression,
             Tail(h, more));
    assert Tail(h, more)[1] == d[Start(h) + 1];
    LowBytes(|h.ciphers|);
    LowBytes(|EncodeAll(h.extensions)|);
  }

  lemma LowBytes(n: u16)
    ensures Put16(n)[1] == n % 256
  {
  }

  /** A hello that is cut off before all of its extensions that count are there is not looked into. */
  lemma CutHello(h: Hello, k: nat, beyond: seq<byte>)
    requires WellFormed(h) && |h.ciphers| < 0x100
    requires k <= |EncodeHello(h)| && k < Start(h) + 2 + |EncodeAll(h.extensions)| % 256
    ensures Hostname(Slice(EncodeHello(h)[..k] + beyond, k)) == Error
  {
    hide EncodeAll, EncodeHello, Hostname, FirstAt;
    var all := EncodeHello(h);
    var d := Slice(all[..k] + beyond, k);
    StartsThere(h);
    assert forall i :: 0 <= i < k ==> d.mem[i] == all[i];
    HostnameIff(d);
    forall e: nat, n: nat, i: nat ensures !ServerNameAt(d, e, n, i) {
    }
    assert Hostname(d).Ok? ==> HasHost(d, Hostname(d).value);
  }

  /** In a list that starts with a host name, that name is found. */
  lemma NameFound(sn: Slice, name: seq<byte>, others: seq<byte>)
    requires |name| < 0x100 && 3 + |name| + |others| < 0x1_0000 && Contents(sn) == NameList(name, others)
    ensures var r := WalkNames(sn, 0); r.Ok? && Contents(r.value) == name
  {
    hide Length, Put16;
    var d, n := NameList(name, others), Put16(|name|);
    ShortLength(|name|);
    assert forall i :: 0 <= i < sn.len ==> sn.mem[i] == d[i];
    assert d[2] == 0 && d[3] == n[0] && d[4] == n[1];
    assert d[5..5 + |name|] == name;
    assert sn.mem[5..][..|name|] == d[5..5 + |name|];
  }

  /** What the extension walk of a received hello comes to, whatever the first server_name extension holds. */
  lemma HelloReaches(h: Hello, more: seq<byte>, beyond: seq<byte>)
    requires WellFormed(h) && |h.ciphers| < 0x100 && ShortBodies(h.extensions)
    ensures var first, n := FirstServerName(h.extensions), |EncodeAll(h.extensions)|;
            var extensions := ExtensionBlock(Received(h, more, beyond));
            && extensions.Ok?
            && var r := SNBlock(extensions.value);
               && (if first.Ok? && FirstHeader(h.extensions) <= n % 0x100
                   then r.Ok? && Contents(r.value) == first.value
                   else r == Error)
               && (n < 0x100 ==> FirstHeader(h.extensions) <= n % 0x100)
  {
    hide Length, Put16, WalkExtensions, ExtensionBlock, SNBlock, EncodeAll;
    var block := EncodeAll(h.extensions);
    ExtensionsFound(h, more, beyond);
    BlockIsCut(block, more, beyond);
    var nothing: seq<byte> := [];
    assert nothing + (block + (more + beyond)) == block + (more + beyond);
    WalkFinds(nothing, h.extensions, more + beyond, |block| % 256);
    NeverPanics(h.extensions);
  }

  /** For every hello with a cipher list and extension bodies of less than 256 bytes, any session id and any
      extensions, in any buffer: the host name of the first server_name extension is found if and only if the
      header of that extension ends within the low byte of the length of the extension block, as it always
      does when the block is shorter than 256 bytes. Otherwise, and without such an extension, there is an
      error. */
  lemma HostnameIsFirstServerName(h: Hello, name: seq<byte>, others: seq<byte>, more: seq<byte>, beyond: seq<byte>)
    requires WellFormed(h) && |h.ciphers| < 0x100 && ShortBodies(h.extensions)
    requires |name| < 0x100 && 3 + |name| + |others| < 0x1_0000
    ensures var first, n := FirstServerName(h.extensions), |EncodeAll(h.extensions)|;
            var r := Hostname(Received(h, more, beyond));
            && (first == Error ==> r == Error)
            && (first == Ok(NameList(name, others)) ==>
                  r == if FirstHeader(h.extensions) <= n % 0x100 then Ok(name) else Error)
            && (n < 0x100 ==> FirstHeader(h.extensions) <= n % 0x100)
  {
    hide Put16, ExtensionBlock, SNBlock, WalkNames, EncodeAll, NameList;
    HelloReaches(h, more, beyond);
    NeverPanics(h.extensions);
    var r := SNBlock(ExtensionBlock(Received(h, more, beyond)).value);
    if r.Ok? && Contents(r.value) == NameList(name, others) {
      NameFound(r.value, name, others);
    }
  }

  /** The name walk reads three bytes of an entry without looking whether they are there: a first server_name
      extension whose body has one or two bytes is a panic, if its header is reached. */
  lemma CutNamePanics(h: Hello, more: seq<byte>, beyond: seq<byte>)
    requires WellFormed(h) && |h.ciphers| < 0x100 && ShortBodies(h.extensions)
    ensures var first, n := FirstServerName(h.extensions), |EncodeAll(h.extensions)|;
            first.Ok? && |first.value| in {1, 2} ==>
              Hostname(Received(h, more, beyond))
              == if FirstHeader(h.extensions) <= n % 0x100 then Panic else Error
  {
    hide Put16, ExtensionBlock, SNBlock, EncodeAll;
    HelloReaches(h, more, beyond);
  }

  const PADDING: u16 := 21

  /** A name that fits is found in front of padding, though its body lies wholly behind the low byte of the
      length of the block, and missed behind the same padding. */
  lemma LongBlock(h: Hello, name: seq<byte>, more: seq<byte>, beyond: seq<byte>)
    requires |name| <= 247
    requires var padding, sn := Extension(PADDING, Zeros(247 - |name|)), Extension(0, NameList(name, []));
             && WellFormed(h) && |h.ciphers| < 0x100
             && (h.extensions == [sn, padding] || h.extensions == [padding, sn])
    ensures |EncodeAll(h.extensions)| == 0x104
    ensures Hostname(Received(h, more, beyond)) == if h.extensions[0].kind == 0 then Ok(name) else Error
  {
    hide Put16, Hostname, Received, NameList, Zeros;
    var padding, sn := Extension(PADDING, Zeros(247 - |name|)), Extension(0, NameList(name, []));
    TwoExtensions(sn, padding);
    TwoExtensions(padding, sn);
    NameListLength(name);
    HostnameIsFirstServerName(h, name, [], more, beyond);
  }

  lemma TwoExtensions(a: Extension, b: Extension)
    requires |a.body| < 0x1_0000 && |b.body| < 0x1_0000
    ensures |EncodeAll([a, b])| == 8 + |a.body| + |b.body|
    ensures [a, b][1..] == [b]
  {
    hide Put16;
    assert [a, b][1..] == [b];
    assert EncodeAll([b]) == Encode(b) + EncodeAll([]);
  }

  lemma NameListLength(name: seq<byte>)
    requires |name| < 0x100
    ensures |NameList(name, [])| == 5 + |name|
  {
  }
}
