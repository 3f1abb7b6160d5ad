/** The Internet checksum of `packet/common.go` (RFC 1071). */
module InternetChecksum {
  import opened Bytes

  /** Sum of the big-endian 16-bit words of one field; a last odd byte is padded on the right. */
  function FieldSum(f: seq<byte>): nat {
    if |f| == 0 then 0
    else if |f| == 1 then f[0] * 256
    else f[0] * 256 + f[1] + FieldSum(f[2..])
  }

  function Sum(fields: seq<seq<byte>>): nat {
    if fields == [] then 0 else FieldSum(fields[0]) + Sum(fields[1..])
  }

  /** The end-around-carry residue of a sum: congruent to it modulo 65535, in 1..65535
      unless the sum is 0. */
  function Fold(n: nat): u16 {
    if n == 0 then 0 else (n - 1) % 0xffff + 1
  }

  /** The checksum the code computes for these fields: the sum is a uint32. */
  function Of(fields: seq<seq<byte>>): u16 {
    0xffff - Fold(Sum(fields) % TWO32)
  }

  lemma CarryKeepsFold(n: nat)
    ensures Fold(n / 0x1_0000 + n % 0x1_0000) == Fold(n)
    ensures n > 0xffff ==> n / 0x1_0000 + n % 0x1_0000 < n
  {
    var q, r := n / 0x1_0000, n % 0x1_0000;
    assert n == 0x1_0000 * q + r;
    if n > 0 {
      ModShift(q + r - 1, q);
    }
  }

  lemma ModShift(a: nat, q: nat)
    ensures (a + 0xffff * q) % 0xffff == a % 0xffff
  {
    var k := (a + 0xffff * q) / 0xffff;
    var k' := a / 0xffff;
    assert a + 0xffff * q == 0xffff * k + (a + 0xffff * q) % 0xffff;
    assert a == 0xffff * k' + a % 0xffff;
    assert 0xffff * (k - k' - q) == a % 0xffff - (a + 0xffff * q) % 0xffff;
  }

  lemma AddsWrap(total: nat, high: nat, low: nat)
    ensures Add32(total % TWO32, high) == (total + high) % TWO32
    ensures Add32(Add32(total % TWO32, high), low) == (total + high + low) % TWO32
  {
    Mod32Add(total, high);
    Mod32Add(total + high, low);
  }

  lemma NextWord(f: seq<byte>, i: nat)
    requires i <= |f|
    ensures i + 1 < |f| ==> FieldSum(f[i..]) == f[i] * 256 + f[i + 1] + FieldSum(f[i + 2..])
    ensures i + 1 == |f| ==> FieldSum(f[i..]) == (f[i] as int) * 256
    ensures i == |f| ==> FieldSum(f[i..]) == 0
  {
    if i + 1 < |f| {
      assert f[i..][2..] == f[i + 2..];
    }
  }

  /** The inner loop: the words of one field. */
  method AddField(start: u32, field: seq<byte>, ghost before: nat) returns (csum: u32)
    requires start == before % TWO32
    ensures csum == (before + FieldSum(field)) % TWO32
  {
    csum := start;
    ghost var total: nat := before;
    var length := |field| - 1;
    var i := 0;
    assert field[0..] == field;
    while i < length
      invariant 0 <= i <= |field| && i % 2 == 0
      invariant csum == total % TWO32
      invariant total + FieldSum(field[i..]) == before + FieldSum(field)
    {
      NextWord(field, i);
      var high: nat := (field[i] as int) * 256;
      AddsWrap(total, high, field[i + 1]);
      csum := Add32(csum, high);
      csum := Add32(csum, field[i + 1]);
      total := total + high + field[i + 1];
      i := i + 2;
    }
    NextWord(field, i);
    if |field| % 2 == 1 {
      AddsWrap(total, (field[length] as int) * 256, 0);
      csum := Add32(csum, (field[length] as int) * 256);
    }
  }

  method Checksum(fields: seq<seq<byte>>) returns (c: u16)
    ensures c == Of(fields)
  {
    var csum: u32 := 0;
    ghost var total: nat := 0;
    for k := 0 to |fields|
      invariant csum == total % TWO32 && total + Sum(fields[k..]) == Sum(fields)
    {
      assert fields[k..][0] == fields[k] && fields[k..][1..] == fields[k + 1..];
      csum := AddField(csum, fields[k], total);
      total := total + FieldSum(fields[k]);
    }
    assert fields[|fields|..] == [];
    while csum > 0xffff
      invariant Fold(csum) == Fold(Sum(fields) % TWO32)
    {
      CarryKeepsFold(csum);
      csum := csum / 0x1_0000 + csum % 0x1_0000;
    }
    c := 0xffff - (csum + csum / 0x1_0000) % 0x1_0000;
  }

  /** A field contributes less than 2^16 per started word, so the uint32 never wraps on
      anything that fits an IPv4 datagram with its pseudo-header. */
  lemma {:induction false} SumBound(f: seq<byte>)
    ensures 0 <= FieldSum(f) <= 0xffff * ((|f| + 1) / 2)
  {
    if |f| >= 2 {
      SumBound(f[2..]);
    }
  }

  lemma {:induction false} SumConcat(a: seq<byte>, b: seq<byte>, words: nat)
    requires |a| == 2 * words
    ensures FieldSum(a + b) == FieldSum(a) + FieldSum(b)
  {
    if words == 0 {
      assert a + b == b;
    } else {
      assert (a + b)[2..] == a[2..] + b;
      SumConcat(a[2..], b, words - 1);
    }
  }

  /** Splitting data over two fields is irrelevant if the first one has even length. */
  lemma SumOfTwo(a: seq<byte>, b: seq<byte>, words: nat)
    requires |a| == 2 * words
    ensures Sum([a, b]) == FieldSum(a + b) == Sum([a + b])
    ensures Of([a, b]) == Of([a + b])
  {
    SumConcat(a, b, words);
    SumOne(a + b);
    SumOne(b);
    assert [a, b][1..] == [b];
  }

  /** Writing a word over two zero bytes at an even offset adds it to the sum. */
  lemma {:induction false} SumFill(f: seq<byte>, word: nat, c: u16)
    requires 2 * word + 1 < |f| && f[2 * word] == f[2 * word + 1] == 0
    ensures FieldSum(f[2 * word := c / 256][2 * word + 1 := c % 256]) == FieldSum(f) + c
  {
    var k := 2 * word;
    var g := f[k := c / 256][k + 1 := c % 256];
    if word == 0 {
      assert g[2..] == f[2..];
    } else {
      assert g[2..] == f[2..][k - 2 := c / 256][k - 1 := c % 256];
      SumFill(f[2..], word - 1, c);
    }
  }

  /** RFC 1071: filling in the computed checksum makes the data verify, that is, the checksum
      recomputed over the filled-in data is 0. */
  lemma SelfVerifying(f: seq<byte>, word: nat)
    requires 2 * word + 1 < |f| <= 0x1_0010 && f[2 * word] == f[2 * word + 1] == 0
    ensures var c := Of([f]);
            Of([f[2 * word := c / 256][2 * word + 1 := c % 256]]) == 0
  {
    var c := Of([f]);
    var g := f[2 * word := c / 256][2 * word + 1 := c % 256];
    SumFill(f, word, c);
    OfOne(f);
    OfOne(g);
    FoldComplement(FieldSum(f));
  }

  /** The same for a checksum field inside a header that follows a pseudo-header. */
  lemma SelfVerifyingInside(pseudo: seq<byte>, raw: seq<byte>, payload: seq<byte>, word: nat)
    requires |pseudo| == 12 && |pseudo| + |raw| + |payload| <= 0x1_0010
    requires 2 * word + 1 < |raw| && raw[2 * word] == raw[2 * word + 1] == 0
    ensures var c := Of([pseudo + raw + payload]);
            Of([pseudo + (raw[2 * word := c / 256][2 * word + 1 := c % 256] + payload)]) == 0
  {
    var k := 2 * word;
    var covered := pseudo + raw + payload;
    var c := Of([covered]);
    assert covered[12 + k] == raw[k] && covered[12 + k + 1] == raw[k + 1];
    SelfVerifying(covered, 6 + word);
    assert covered[12 + k := c / 256][12 + k + 1 := c % 256]
           == pseudo + (raw[k := c / 256][k + 1 := c % 256] + payload);
  }

  /** Sums of datagram size do not wrap. */
  lemma OfSmall(fields: seq<seq<byte>>, n: nat)
    requires Sum(fields) == n <= 0xffff * 0x8010
    ensures Of(fields) == 0xffff - Fold(n)
  {
    assert n < TWO32;
  }

  lemma OfOne(f: seq<byte>)
    requires |f| <= 0x1_0010
    ensures Of([f]) == 0xffff - Fold(FieldSum(f))
  {
    SumBound(f);
    SumOne(f);
    assert (|f| + 1) / 2 <= 0x8010;
    OfSmall([f], FieldSum(f));
  }

  lemma SumOne(f: seq<byte>)
    ensures Sum([f]) == FieldSum(f)
  {
    assert [f][1..] == [];
  }

  lemma FoldComplement(n: nat)
    ensures Fold(n + 0xffff - Fold(n)) == 0xffff
  {
    if n > 0 {
      var q := (n - 1) / 0xffff;
      assert n + 0xffff - Fold(n) == 0xffff * (q + 1);
      ModShift(0xfffe, q);
      assert 0xffff * (q + 1) - 1 == 0xfffe + 0xffff * q;
    }
  }

  // ---- what the sum is

  lemma TwoMore(f: seq<byte>)
    requires |f| >= 2
    ensures Number(f) == Number(f[..|f| - 2]) * 0x1_0000 + (f[|f| - 2] as int) * 256 + f[|f| - 1]
  {
    assert f[..|f| - 1][..|f| - 2] == f[..|f| - 2];
  }

  lemma OneWord(a: byte, b: byte)
    ensures FieldSum([a, b]) == a * 256 + b && FieldSum([a]) == (a as int) * 256 && FieldSum([]) == 0
  {
  }

  /** The sum of the words of a field is the big-endian number that it is, modulo 65535. */
  lemma {:induction false} SumIsNumber(f: seq<byte>, words: nat)
    requires |f| == 2 * words
    ensures FieldSum(f) % 0xffff == Number(f) % 0xffff
  {
    if words > 0 {
      var before, word := f[..|f| - 2], f[|f| - 2..];
      SumIsNumber(before, words - 1);
      SumConcat(before, word, words - 1);
      assert f == before + word && word == [f[|f| - 2], f[|f| - 1]];
      OneWord(f[|f| - 2], f[|f| - 1]);
      TwoMore(f);
      var w := (f[|f| - 2] as int) * 256 + f[|f| - 1];
      ModShift(Number(before) + w, Number(before));
      SameResidue(FieldSum(before), Number(before), w);
    }
  }

  lemma SameResidue(a: nat, b: nat, w: nat)
    requires a % 0xffff == b % 0xffff
    ensures (a + w) % 0xffff == (b + w) % 0xffff
  {
    var d := a / 0xffff - b / 0xffff;
    assert a + w == b + w + 0xffff * d;
    if d >= 0 {
      ModShift(b + w, d);
    } else {
      ModShift(a + w, -d);
    }
  }

  /** A last odd byte counts as if a zero byte followed. */
  lemma {:induction false} PaddedOnTheRight(f: seq<byte>, words: nat)
    requires |f| == 2 * words + 1
    ensures FieldSum(f) == FieldSum(f + [0])
  {
    if words == 0 {
      OneWord(f[0], 0);
      assert f + [0] == [f[0], 0] && f == [f[0]];
    } else {
      assert (f + [0])[2..] == f[2..] + [0];
      PaddedOnTheRight(f[2..], words - 1);
    }
  }

  lemma FoldIs(n: nat)
    ensures n > 0 ==> n == 0xffff * ((n - 1) / 0xffff) + Fold(n) && 1 <= Fold(n) <= 0xffff
    ensures n % 0xffff == Fold(n) % 0xffff
  {
    if n > 0 {
      ModShift(Fold(n), (n - 1) / 0xffff);
    }
  }

  /** The checksum is what makes the sum a multiple of 65535, in the representation that is 0 for all others. */
  lemma OfComplements(fields: seq<seq<byte>>)
    requires Sum(fields) < TWO32
    ensures (Sum(fields) + Of(fields)) % 0xffff == 0 && (Of(fields) == 0xffff <==> Sum(fields) == 0)
  {
    hide Sum, Fold;
    var n := Sum(fields);
    FoldIs(n);
    FoldIs(0);
    if n > 0 {
      var q := (n - 1) / 0xffff;
      assert n + Of(fields) == 0 + 0xffff * (q + 1);
      ModShift(0, q + 1);
    } else {
      FoldOfNothing();
    }
  }

  lemma FoldOfNothing()
    ensures Fold(0) == 0
  {
  }

  /** When data verifies. */
  lemma VerifiesIff(f: seq<byte>)
    requires |f| <= 0x1_0010
    ensures Of([f]) == 0 <==> FieldSum(f) > 0 && FieldSum(f) % 0xffff == 0
  {
    hide Fold, FieldSum;
    OfOne(f);
    FoldIs(FieldSum(f));
    FoldOfNothing();
    SumBound(f);
  }
}
