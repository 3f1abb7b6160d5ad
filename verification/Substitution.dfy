/** The substitution cipher of `kcp/cipher/little/cipher.go`, and the stream that `pipe` of
    `kcp/service/conn.go` makes of it. */
module Substitution {
  import opened Bytes

  type Table = s: seq<byte> | |s| == 256 witness Zeros(256)

  predicate Injective(t: Table) {
    forall i, j :: 0 <= i < j < 256 ==> t[i] != t[j]
  }

  function Apply(t: Table, bs: seq<byte>): (r: seq<byte>)
    ensures |r| == |bs|
  {
    seq(|bs|, i requires 0 <= i < |bs| => t[bs[i]])
  }

  /** The table that `NewCipher` fills: the last index wins, and a value that is missing decodes to 0. */
  predicate Decodes(encode: Table, decode: Table, n: nat)
    requires n <= 256
  {
    forall v: byte ::
      && (forall i :: 0 <= i < n && encode[i] == v ==> i <= decode[v] < n && encode[decode[v]] == v)
      && ((forall i :: 0 <= i < n ==> encode[i] != v) ==> decode[v] == 0)
  }

  class Cipher {
    const encodePassword: array<byte>
    const decodePassword: array<byte>

    /** `NewCipher` */
    constructor (encodePassword: array<byte>)
      requires encodePassword.Length == 256
      modifies encodePassword
      ensures this.encodePassword == encodePassword && encodePassword[..] == old(encodePassword[..])
      ensures fresh(decodePassword) && decodePassword.Length == 256
      ensures Decodes(encodePassword[..], decodePassword[..], 256)
    {
      var decode := new byte[256](_ => 0);
      var i := 0;
      while i < 256
        invariant 0 <= i <= 256
        invariant encodePassword[..] == old(encodePassword[..])
        invariant Decodes(encodePassword[..], decode[..], i)
      {
        var v := encodePassword[i];
        encodePassword[i] := v;
        decode[v] := i;
        i := i + 1;
      }
      this.encodePassword := encodePassword;
      this.decodePassword := decode;
    }

    /** In place, on the first `n` bytes of a buffer. */
    method Encrypt(bs: array<byte>, n: nat)
      requires encodePassword.Length == 256 && bs != encodePassword && n <= bs.Length
      modifies bs
      ensures bs[..] == Apply(encodePassword[..], old(bs[..n])) + old(bs[n..])
    {
      Substitute(encodePassword, bs, n);
    }

    method Decrypt(bs: array<byte>, n: nat)
      requires decodePassword.Length == 256 && bs != decodePassword && n <= bs.Length
      modifies bs
      ensures bs[..] == Apply(decodePassword[..], old(bs[..n])) + old(bs[n..])
    {
      Substitute(decodePassword, bs, n);
    }
  }

  /** The loop of both. */
  method Substitute(t: array<byte>, bs: array<byte>, n: nat)
    requires t.Length == 256 && bs != t && n <= bs.Length
    modifies bs
    ensures bs[..] == Apply(t[..], old(bs[..n])) + old(bs[n..])
  {
    ghost var was := bs[..];
    var i := 0;
    while i < n
      invariant 0 <= i <= n
      invariant forall k :: 0 <= k < i ==> bs[k] == t[was[k]]
      invariant forall k :: i <= k < bs.Length ==> bs[k] == was[k]
    {
      bs[i] := t[bs[i]];
      i := i + 1;
    }
    assert bs[..n] == Apply(t[..], was[..n]);
    assert bs[n..] == was[n..];
  }

  // ---- the inverse

  function Image(t: Table, n: nat): set<byte>
    requires n <= 256
  {
    set i | 0 <= i < n :: t[i]
  }

  function Below(n: nat): set<byte>
    requires n <= 256
  {
    if n == 0 then {} else Below(n - 1) + {n - 1}
  }

  lemma {:induction false} InBelow(n: nat, b: byte)
    requires b < n <= 256
    ensures b in Below(n)
  {
    if b < n - 1 {
      InBelow(n - 1, b);
    }
  }

  lemma {:induction false} BelowBounds(n: nat)
    requires n <= 256
    ensures forall b <- Below(n) :: b < n
  {
    if n > 0 {
      BelowBounds(n - 1);
    }
  }

  lemma {:induction false} BelowSize(n: nat)
    requires n <= 256
    ensures |Below(n)| == n
  {
    if n > 0 {
      BelowSize(n - 1);
      if n - 1 in Below(n - 1) {
        BelowBounds(n - 1);
      }
    }
  }

  lemma {:induction false} ImageSize(t: Table, n: nat)
    requires n <= 256 && Injective(t)
    ensures |Image(t, n)| == n
  {
    if n > 0 {
      ImageSize(t, n - 1);
      assert Image(t, n) == Image(t, n - 1) + {t[n - 1]};
      assert t[n - 1] !in Image(t, n - 1);
    }
  }

  lemma SubsetOfSameSize(a: set<byte>, b: set<byte>)
    requires a <= b && |a| == |b|
    ensures a == b
  {
    if x :| x in b && x !in a {
      assert a <= b - {x};
      SubsetSize(a, b - {x});
    }
  }

  lemma {:induction false} SubsetSize(a: set<byte>, b: set<byte>)
    requires a <= b
    ensures |a| <= |b|
    decreases a
  {
    if x :| x in a {
      SubsetSize(a - {x}, b - {x});
    }
  }

  /** A table without repetitions takes every value. */
  lemma Pigeonhole(t: Table, v: byte)
    requires Injective(t)
    ensures exists i: byte :: t[i] == v
  {
    ImageSize(t, 256);
    BelowSize(256);
    forall i | 0 <= i < 256 ensures t[i] in Below(256) {
      InBelow(256, t[i]);
    }
    SubsetOfSameSize(Image(t, 256), Below(256));
    InBelow(256, v);
    assert v in Image(t, 256);
  }

  /** The table that `NewCipher` builds decodes every message if and only if the given one has no
      repetitions, and then it is inverse on both sides. */
  lemma TwoSidedInverse(encode: Table, decode: Table)
    requires Decodes(encode, decode, 256)
    ensures (forall bs :: Apply(decode, Apply(encode, bs)) == bs) <==> Injective(encode)
    ensures (forall bs :: Apply(encode, Apply(decode, bs)) == bs) <==> Injective(encode)
  {
    if Injective(encode) {
      forall bs: seq<byte> ensures Apply(decode, Apply(encode, bs)) == bs && Apply(encode, Apply(decode, bs)) == bs {
        forall k | 0 <= k < |bs|
          ensures Apply(decode, Apply(encode, bs))[k] == bs[k] && Apply(encode, Apply(decode, bs))[k] == bs[k]
        {
          Pigeonhole(encode, bs[k]);
        }
      }
    } else {
      var i, j :| 0 <= i < j < 256 && encode[i] == encode[j];
      OneValueTwice(encode, decode, i, j);
      MissesOne(encode, decode);
    }
  }

  lemma OneValueTwice(encode: Table, decode: Table, i: byte, j: byte)
    requires i < j && encode[i] == encode[j]
    ensures !forall bs :: Apply(decode, Apply(encode, bs)) == bs
  {
    var a: seq<byte>, b: seq<byte> := [i], [j];
    assert Apply(encode, a) == Apply(encode, b);
    assert a[0] != b[0];
  }

  /** A table with repetitions misses a value. */
  lemma MissesOne(encode: Table, decode: Table)
    requires !Injective(encode)
    ensures !forall bs :: Apply(encode, Apply(decode, bs)) == bs
  {
    if forall bs :: Apply(encode, Apply(decode, bs)) == bs {
      forall v: byte ensures encode[decode[v]] == v {
        var bs: seq<byte> := [v];
        assert Apply(encode, Apply(decode, bs))[0] == v;
      }
      assert forall v: byte, w: byte :: decode[v] == decode[w] ==> v == w;
      assert Injective(decode);
      var i, j :| 0 <= i < j < 256 && encode[i] == encode[j];
      Pigeonhole(decode, i);
      Pigeonhole(decode, j);
    }
  }

  // ---- the stream

  /** A pipe that reads these chunks, applies the table to each and writes all of it. */
  function Piped(t: Table, chunks: seq<seq<byte>>): (out: seq<byte>)
  {
    if chunks == [] then [] else Apply(t, chunks[0]) + Piped(t, chunks[1..])
  }

  lemma {:induction false} PipedIsApply(t: Table, chunks: seq<seq<byte>>)
    ensures Piped(t, chunks) == Apply(t, Flatten(chunks))
  {
    if chunks != [] {
      PipedIsApply(t, chunks[1..]);
      assert Apply(t, chunks[0] + Flatten(chunks[1..])) == Apply(t, chunks[0]) + Apply(t, Flatten(chunks[1..]));
    }
  }

  /** However the bytes are cut on the way in and, encrypted, on the way out, the stream comes back. */
  lemma StreamRoundTrip(encode: Table, decode: Table, sent: seq<seq<byte>>, received: seq<seq<byte>>)
    requires Decodes(encode, decode, 256) && Injective(encode)
    requires Flatten(received) == Piped(encode, sent)
    ensures Piped(decode, received) == Flatten(sent)
  {
    TwoSidedInverse(encode, decode);
    PipedIsApply(encode, sent);
    PipedIsApply(decode, received);
  }

  /** One pass of a loop of `pipe` over `n` bytes read, of which the first write takes `wn`. The client side
      encrypts towards the server and decrypts from it, the server side the other way round. What is left to
      write is cut by the length read, not by the length written, so a short write loses the rest. */
  method CopyChunk(cipher: Cipher, encrypt: bool, buf: array<byte>, n: nat, wn: nat) returns (written: seq<byte>)
    requires cipher.encodePassword.Length == cipher.decodePassword.Length == 256
    requires buf != cipher.encodePassword && buf != cipher.decodePassword
    requires wn <= n <= buf.Length
    modifies buf
    ensures var t := if encrypt then cipher.encodePassword else cipher.decodePassword;
            var whole := Apply(t[..], old(buf[..n]));
            written == whole[..wn] && (written == whole <==> wn == n)
  {
    if encrypt {
      cipher.Encrypt(buf, n);
    } else {
      cipher.Decrypt(buf, n);
    }
    var pack := buf[..n];
    written := pack[..wn];
    if wn < |pack| {
      pack := pack[n..];
      written := written + pack;
    }
  }
}
