/** Machine integers of the source as ranges of `int`, and big-endian words. */
module Bytes {
  type byte = b: int | 0 <= b < 0x100
  type u16 = x: int | 0 <= x < 0x1_0000
  type u32 = x: int | 0 <= x < 0x1_0000_0000

  /** The four bytes of an IPv4 address. */
  type IP4 = s: seq<byte> | |s| == 4 witness [0, 0, 0, 0]

  const TWO32: int := 0x1_0000_0000

  /** The size of a pooled buffer, and of the largest packet. */
  const MTU: nat := 15000

  function Get16(hi: byte, lo: byte): u16 {
    hi * 256 + lo
  }

  function Get32(a: byte, b: byte, c: byte, d: byte): u32 {
    (a * 256 + b) * 0x1_0000 + (c * 256 + d)
  }

  function One(a: byte): (s: seq<byte>)
    ensures |s| == 1 && s[0] == a
  {
    [a]
  }

  function Pair(a: byte, b: byte): (s: seq<byte>)
    ensures |s| == 2
  {
    [a, b]
  }

  /** Big-endian encodings. */
  function Put16(x: u16): (s: seq<byte>)
    ensures |s| == 2
  {
    Pair(x / 256, x % 256)
  }

  function Put32(x: u32): (s: seq<byte>)
    ensures |s| == 4
  {
    Put16(x / 0x1_0000) + Put16(x % 0x1_0000)
  }

  /** Bytes as one big-endian number. */
  function Number(f: seq<byte>): nat {
    if f == [] then 0 else Number(f[..|f| - 1]) * 256 + f[|f| - 1]
  }

  lemma NumberOfTwo(a: byte, b: byte)
    ensures Number([a, b]) == (a as int) * 256 + b
  {
    assert [a, b][..1] == [a] && [a][..0] == [] && Number([]) == 0;
    assert Number([a]) == a;
  }

  lemma NumberOfWord(x: u16)
    ensures Number(Put16(x)) == x
  {
    NumberOfTwo(x / 256, x % 256);
  }

  lemma NumberOfLong(x: u32)
    ensures Number(Put32(x)) == x
  {
    var s := Put32(x);
    assert s[..3][..2] == s[..2] == Put16(x / 0x1_0000) && s[..3] == s[..2] + [s[2]];
    NumberOfWord(x / 0x1_0000);
    NumberOfWord(x % 0x1_0000);
    assert s[2] == x % 0x1_0000 / 256 && s[3] == x % 0x1_0000 % 256;
  }

  lemma Get16Put16(x: u16)
    ensures Get16(Put16(x)[0], Put16(x)[1]) == x
  {
  }

  lemma Get32Put32(x: u32)
    ensures var s := Put32(x); Get32(s[0], s[1], s[2], s[3]) == x
  {
  }

  /** Go's `uint32` addition. */
  function Add32(x: u32, n: nat): u32 {
    (x + n) % TWO32
  }

  /** Multiples of the modulus do not matter; for the two moduli of the source's arithmetic. */
  lemma Mod32Shift(x: int, q: int)
    ensures (TWO32 * q + x) % TWO32 == x % TWO32
  {
    var y := TWO32 * q + x;
    var d, k := y / TWO32, x / TWO32;
    assert TWO32 * (d - q - k) == x % TWO32 - y % TWO32;
  }

  lemma Mod32Add(x: int, n: int)
    ensures (x % TWO32 + n) % TWO32 == (x + n) % TWO32
  {
    var q := x / TWO32;
    assert x + n == TWO32 * q + (x % TWO32 + n);
    Mod32Shift(x % TWO32 + n, q);
  }

  lemma Small16(n: nat)
    requires n < 0x1_0000
    ensures n % 0x1_0000 == n
  {
  }

  function Zeros(n: nat): (s: seq<byte>)
    ensures |s| == n && forall i :: 0 <= i < n ==> s[i] == 0
  {
    seq(n, _ => 0)
  }

  lemma HeadFirst<T>(s: seq<T>, t: seq<T>)
    requires s != []
    ensures s + t == [s[0]] + (s[1..] + t)
  {
  }

  lemma Associate<T>(a: seq<T>, b: seq<T>, c: seq<T>)
    ensures a + (b + c) == a + b + c
  {
  }

  lemma Halves<T>(s: seq<T>, a: nat, b: nat)
    requires a <= b <= |s|
    ensures s[a..] == s[a..b] + s[b..]
  {
  }

  lemma Thirds<T>(s: seq<T>, a: nat, b: nat, c: nat, d: nat)
    requires a <= b <= c <= d <= |s|
    ensures s[a..d] == s[a..b] + s[b..c] + s[c..d]
  {
  }

  lemma Keep<T>(s: seq<T>, t: seq<T>, k: nat, a: nat, b: nat)
    requires a <= b <= k <= |s| && k <= |t| && s[..k] == t[..k]
    ensures s[a..b] == t[a..b]
  {
    assert forall i :: a <= i < b ==> s[i] == s[..k][i] && t[i] == t[..k][i];
  }

  lemma KeepTail<T>(s: seq<T>, t: seq<T>, a: nat, b: nat)
    requires a <= b <= |s| == |t| && s[a..] == t[a..]
    ensures s[b..] == t[b..]
  {
    assert forall i :: 0 <= i < |s| - a ==> s[a..][i] == s[a + i] && t[a..][i] == t[a + i];
  }

  /** Changing only `s[lo..hi]` changes a wider window only there. */
  lemma Splice<T>(s: seq<T>, t: seq<T>, from: nat, lo: nat, hi: nat, to: nat)
    requires from <= lo <= hi <= to <= |s| == |t|
    requires s[..lo] == t[..lo] && s[hi..] == t[hi..]
    ensures s[from..to] == t[from..lo] + s[lo..hi] + t[hi..to]
  {
    assert forall i :: from <= i < lo ==> s[i] == s[..lo][i] && t[i] == t[..lo][i];
    assert forall i :: 0 <= i < to - hi ==> s[hi + i] == s[hi..][i] && t[hi + i] == t[hi..][i];
    assert s[from..lo] == t[from..lo];
    assert s[hi..to] == t[hi..to];
  }

  /** Concatenation of the chunks of a stream. */
  function Flatten<T>(chunks: seq<seq<T>>): seq<T> {
    if chunks == [] then [] else chunks[0] + Flatten(chunks[1..])
  }

  lemma {:induction false} FlattenAppend<T>(a: seq<seq<T>>, b: seq<seq<T>>)
    ensures Flatten(a + b) == Flatten(a) + Flatten(b)
  {
    if a == [] {
      assert a + b == b;
    } else {
      assert (a + b)[1..] == a[1..] + b;
      FlattenAppend(a[1..], b);
    }
  }

  lemma FlattenSnoc<T>(a: seq<seq<T>>, x: seq<T>)
    ensures Flatten(a + [x]) == Flatten(a) + x
  {
    FlattenAppend(a, [x]);
    assert Flatten([x]) == x + Flatten<T>([]);
  }
}
