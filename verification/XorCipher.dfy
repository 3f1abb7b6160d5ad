/** `XORCipher` of `kcp/cipher/oor.go`: a keystream that grows with the longest message seen. */
module XorCipher {
  import opened Bytes

  const FIRST: nat := 8192

  /** `byte(i % 255)` */
  function Mask(i: nat): bv8 {
    (i % 255) as bv8
  }

  /** One byte of a message under one character of the keystream. */
  function Mix(b: bv8, i: nat, c: bv8): bv8 {
    b ^ Mask(i) ^ c
  }

  lemma MixTwice(b: bv8, i: nat, c: bv8)
    ensures Mix(Mix(b, i, c), i, c) == b
  {
    hide Mask;
    var m := Mask(i);
    assert b ^ m ^ c ^ m ^ c == b;
  }

  lemma MixSame(b: bv8, i: nat, c: bv8, d: bv8)
    ensures Mix(b, i, c) == Mix(b, i, d) <==> c == d
  {
    hide Mask;
    var m := Mask(i);
    assert b ^ m ^ c == b ^ m ^ d <==> c == d;
  }

  function HexDigit(d: bv8): bv8 {
    if d < 10 then 48 + d else 87 + d
  }

  /** `hex.EncodeToString` */
  function Hex(key: seq<bv8>): (s: seq<bv8>)
    ensures |s| == 2 * |key|
  {
    if key == [] then [] else [HexDigit(key[0] >> 4), HexDigit(key[0] & 15)] + Hex(key[1..])
  }

  /** The characters of the key that are used: the last one never is. */
  function Pattern(password: seq<bv8>, n: nat): (s: seq<bv8>)
    requires |password| > 1
    ensures |s| == n && forall i :: 0 <= i < n ==> s[i] == password[i % (|password| - 1)]
  {
    seq(n, i requires 0 <= i => password[i % (|password| - 1)])
  }

  /** What a cipher object has grown to. */
  datatype Keystream = Keystream(remainder: seq<bv8>, maxLen: nat)

  function Initial(password: seq<bv8>): Keystream
    requires |password| > 1
  {
    Keystream(Pattern(password, FIRST), FIRST)
  }

  /** `trySelfUpdate`: growth starts the pattern again. */
  function Grow(password: seq<bv8>, k: Keystream, length: nat): Keystream
    requires |password| > 1
  {
    if length < FIRST || length <= k.maxLen then k
    else Keystream(k.remainder + Pattern(password, length), length)
  }

  /** The keystream of an object that has been given messages of these lengths. */
  function After(password: seq<bv8>, lengths: seq<nat>): Keystream
    requires |password| > 1
  {
    if lengths == [] then Initial(password)
    else Grow(password, After(password, lengths[..|lengths| - 1]), lengths[|lengths| - 1])
  }

  predicate Covers(k: Keystream) {
    FIRST <= k.maxLen <= |k.remainder|
  }

  lemma {:induction false} AfterCovers(password: seq<bv8>, lengths: seq<nat>)
    requires |password| > 1
    ensures Covers(After(password, lengths))
    ensures lengths != [] ==> After(password, lengths).maxLen >= lengths[|lengths| - 1]
  {
    if lengths != [] {
      AfterCovers(password, lengths[..|lengths| - 1]);
    }
  }

  /** `Encrypt` and `Decrypt` are the same function. */
  function Crypt(k: Keystream, src: seq<bv8>): (r: seq<bv8>)
    requires |src| <= |k.remainder|
    ensures |r| == |src|
  {
    seq(|src|, i requires 0 <= i < |src| => Mix(src[i], i, k.remainder[i]))
  }

  /** The keystream is append-only. */
  lemma {:induction false} AppendOnly(password: seq<bv8>, lengths: seq<nat>, more: seq<nat>)
    requires |password| > 1
    ensures After(password, lengths).remainder <= After(password, lengths + more).remainder
    decreases |more|
  {
    if more == [] {
      assert lengths + more == lengths;
    } else {
      var rest := more[..|more| - 1];
      AppendOnly(password, lengths, rest);
      assert (lengths + more)[..|lengths + more| - 1] == lengths + rest;
    }
  }

  lemma CryptTwice(k: Keystream, k': Keystream, src: seq<bv8>)
    requires |src| <= |k.remainder| && k.remainder <= k'.remainder
    ensures Crypt(k', Crypt(k, src)) == src
  {
    hide Mix;
    forall i | 0 <= i < |src| ensures Crypt(k', Crypt(k, src))[i] == src[i] {
      MixTwice(src[i], i, k.remainder[i]);
    }
  }

  /** What an object has encrypted it decrypts at any later time, whatever it has been given before and since. */
  lemma DecryptInverts(password: seq<bv8>, before: seq<nat>, src: seq<bv8>, since: seq<nat>)
    requires |password| > 1
    ensures var k, k' := After(password, before + [|src|]), After(password, before + [|src|] + since + [|src|]);
            && |src| <= |k.remainder| && |src| <= |k'.remainder|
            && Crypt(k', Crypt(k, src)) == src
  {
    var sent := before + [|src|];
    AfterCovers(password, sent);
    AfterCovers(password, sent + since + [|src|]);
    assert sent + since + [|src|] == sent + (since + [|src|]);
    AppendOnly(password, sent, since + [|src|]);
    CryptTwice(After(password, sent), After(password, sent + (since + [|src|])), src);
  }

  /** The pattern, started again after the first 8192 characters. */
  predicate Restarts(password: seq<bv8>, k: Keystream, n: nat)
    requires |password| > 1
  {
    && n <= |k.remainder|
    && (forall i :: 0 <= i < n && i < FIRST ==> k.remainder[i] == password[i % (|password| - 1)])
    && (forall i :: FIRST <= i < n ==> k.remainder[i] == password[(i - FIRST) % (|password| - 1)])
  }

  /** Whatever its history, an object's first growth is by at least 8193 characters. */
  lemma {:induction false} GrowsAlike(password: seq<bv8>, lengths: seq<nat>)
    requires |password| > 1
    ensures var k := After(password, lengths);
            if k.maxLen == FIRST then k == Initial(password)
            else |k.remainder| >= 2 * FIRST + 1 && Restarts(password, k, 2 * FIRST + 1)
  {
    if lengths != [] {
      GrowsAlike(password, lengths[..|lengths| - 1]);
      AfterCovers(password, lengths[..|lengths| - 1]);
    }
  }

  // ---- what the keystream is

  /** The lengths that were longer than the first growth and than all before them. */
  function Records(lengths: seq<nat>): seq<nat> {
    if lengths == [] then [] else
    var before, n := lengths[..|lengths| - 1], lengths[|lengths| - 1];
    Records(before) + if n > 8192 && (forall i :: 0 <= i < |before| ==> before[i] < n) then [n] else []
  }

  /** The used characters of the key over and over again, started afresh for every one of these lengths. */
  function Restarted(password: seq<bv8>, ns: seq<nat>): seq<bv8>
    requires |password| > 1
  {
    if ns == [] then [] else
    Restarted(password, ns[..|ns| - 1]) + seq(ns[|ns| - 1], i requires 0 <= i => password[i % (|password| - 1)])
  }

  lemma {:induction false} MaxLenIs(password: seq<bv8>, lengths: seq<nat>)
    requires |password| > 1
    ensures var m := After(password, lengths).maxLen;
            && m >= 8192 && (forall i :: 0 <= i < |lengths| ==> lengths[i] <= m)
            && (m > 8192 ==> exists i :: 0 <= i < |lengths| && lengths[i] == m)
  {
    if lengths != [] {
      var before := lengths[..|lengths| - 1];
      MaxLenIs(password, before);
      assert forall i :: 0 <= i < |before| ==> lengths[i] == before[i];
      assert lengths[|lengths| - 1] == After(password, lengths).maxLen
             || After(password, lengths) == After(password, before);
    }
  }

  /** The keystream of an object with any history. */
  lemma {:induction false} KeystreamIs(password: seq<bv8>, lengths: seq<nat>)
    requires |password| > 1
    ensures After(password, lengths).remainder == Restarted(password, [8192] + Records(lengths))
  {
    if lengths == [] {
      assert [8192] + Records(lengths) == [8192] && [8192][..0] == [];
      assert Restarted(password, [8192]) == Pattern(password, 8192);
    } else {
      var before, n := lengths[..|lengths| - 1], lengths[|lengths| - 1];
      KeystreamIs(password, before);
      MaxLenIs(password, before);
      var ns := [8192] + Records(before);
      if After(password, before).maxLen < n {
        assert [8192] + Records(lengths) == ns + [n] && (ns + [n])[..|ns|] == ns;
      } else {
        assert Records(lengths) == Records(before);
      }
    }
  }

  /** So the first 8192 bytes of a message meet the same characters whatever came before. */
  lemma FirstBytes(password: seq<bv8>, history: seq<nat>, src: seq<bv8>, i: nat)
    requires |password| > 1 && i < |src| && i < 8192
    ensures var k := After(password, history + [|src|]);
            |src| <= |k.remainder|
            && Crypt(k, src)[i] == src[i] ^ ((i % 255) as bv8) ^ password[i % (|password| - 1)]
  {
    AfterCovers(password, history + [|src|]);
    AppendOnly(password, [], history + [|src|]);
    assert [] + (history + [|src|]) == history + [|src|];
    assert After(password, []).remainder[i] == password[i % (|password| - 1)];
  }

  /** A digit, or a small letter. */
  function HexValue(c: bv8): bv8 {
    if 48 <= c < 58 then c - 48 else c - 87
  }

  /** Two characters for every byte of the key. */
  lemma {:induction false} HexDecodes(key: seq<bv8>, i: nat)
    requires i < |key|
    ensures var hi, lo := Hex(key)[2 * i], Hex(key)[2 * i + 1];
            && (48 <= hi < 58 || 97 <= hi < 103) && (48 <= lo < 58 || 97 <= lo < 103)
            && HexValue(hi) < 16 && HexValue(lo) < 16 && (HexValue(hi) << 4) | HexValue(lo) == key[i]
  {
    if i == 0 {
      Nibbles(key[0]);
    } else {
      HexDecodes(key[1..], i - 1);
    }
  }

  lemma Nibbles(b: bv8)
    ensures b >> 4 < 16 && b & 15 < 16 && ((b >> 4) << 4) | (b & 15) == b
  {
  }

  /** Two objects with the same key agree on every message of at most 16385 bytes, whatever their histories. */
  lemma ObjectsAgree(password: seq<bv8>, here: seq<nat>, there: seq<nat>, src: seq<bv8>)
    requires |password| > 1 && |src| <= 2 * FIRST + 1
    ensures var k, k' := After(password, here + [|src|]), After(password, there + [|src|]);
            && |src| <= |k.remainder| && |src| <= |k'.remainder|
            && Crypt(k, src) == Crypt(k', src)
  {
    AfterCovers(password, here + [|src|]);
    AfterCovers(password, there + [|src|]);
    GrowsAlike(password, here + [|src|]);
    GrowsAlike(password, there + [|src|]);
  }

  lemma GrowCovers(password: seq<bv8>, k: Keystream, length: nat)
    requires |password| > 1 && Covers(k)
    ensures length <= |Grow(password, k, length).remainder| && Covers(Grow(password, k, length))
  {
  }

  /** A first growth of `a`, and then a message of `n`, against that message alone. */
  lemma TwoHistories(password: seq<bv8>, a: nat, n: nat)
    requires |password| > 1 && FIRST < a < n
    ensures After(password, [a, n]).remainder == Pattern(password, FIRST) + Pattern(password, a) + Pattern(password, n)
    ensures After(password, [n]).remainder == Pattern(password, FIRST) + Pattern(password, n)
  {
    hide Pattern;
    assert [n][..0] == [] && [a, n][..1] == [a] && [a][..0] == [];
    assert After(password, []) == Initial(password);
    assert After(password, [a]) == Keystream(Pattern(password, FIRST) + Pattern(password, a), a);
  }

  /** The two keystreams agree up to where the first pattern starts again. */
  lemma DifferAt(password: seq<bv8>, a: nat, n: nat, r: seq<bv8>, r': seq<bv8>)
    requires |password| > 1 && FIRST < a && FIRST + a < n
    requires r == Pattern(password, FIRST) + Pattern(password, a) + Pattern(password, n)
    requires r' == Pattern(password, FIRST) + Pattern(password, n)
    ensures |r| >= n && |r'| >= n && r[..FIRST + a] == r'[..FIRST + a]
    ensures r[FIRST + a] == password[0] && r'[FIRST + a] == password[a % (|password| - 1)]
  {
    assert Pattern(password, n)[..a] == Pattern(password, a);
    assert r[FIRST + a] == Pattern(password, n)[0];
    assert r'[FIRST + a] == Pattern(password, n)[a];
  }

  /** One byte more, and two objects need not agree: one that has seen a message of 8193 bytes encrypts the
      last byte as a fresh one does if and only if these two characters of the key are equal. */
  lemma ObjectsDisagree(password: seq<bv8>, src: seq<bv8>)
    requires |password| > 1 && |src| == 2 * FIRST + 2
    ensures var k, k' := After(password, [FIRST + 1, |src|]), After(password, [|src|]);
            && |src| <= |k.remainder| && |src| <= |k'.remainder|
            && (Crypt(k, src) == Crypt(k', src) <==> password[0] == password[(FIRST + 1) % (|password| - 1)])
  {
    hide After;
    TwoHistories(password, FIRST + 1, |src|);
    var k, k' := After(password, [FIRST + 1, |src|]), After(password, [|src|]);
    DifferAt(password, FIRST + 1, |src|, k.remainder, k'.remainder);
    CryptDiffersAtLast(k, k', src);
  }

  /** Two objects with these histories encrypt a message alike. */
  predicate Agree(password: seq<bv8>, here: seq<nat>, there: seq<nat>, src: seq<bv8>)
    requires |password| > 1
  {
    AfterCovers(password, here + [|src|]);
    AfterCovers(password, there + [|src|]);
    Crypt(After(password, here + [|src|]), src) == Crypt(After(password, there + [|src|]), src)
  }

  /** The characters of the key that are used at all. */
  predicate OneCharacter(password: seq<bv8>)
    requires |password| > 1
  {
    forall j :: 0 <= j < |password| - 1 ==> password[j] == password[0]
  }

  predicate Uniform(s: seq<bv8>, c: bv8) {
    forall i :: 0 <= i < |s| ==> s[i] == c
  }

  lemma OneCharacterPattern(password: seq<bv8>, n: nat)
    requires |password| > 1 && OneCharacter(password)
    ensures Uniform(Pattern(password, n), password[0])
  {
    forall i | 0 <= i < n ensures Pattern(password, n)[i] == password[0] {
      assert 0 <= i % (|password| - 1) < |password| - 1;
    }
  }

  lemma {:induction false} OneCharacterEverywhere(password: seq<bv8>, lengths: seq<nat>)
    requires |password| > 1 && OneCharacter(password)
    ensures Uniform(After(password, lengths).remainder, password[0])
  {
    if lengths == [] {
      OneCharacterPattern(password, FIRST);
    } else {
      OneCharacterEverywhere(password, lengths[..|lengths| - 1]);
      OneCharacterPattern(password, lengths[|lengths| - 1]);
    }
  }

  lemma SameKeystream(password: seq<bv8>, here: seq<nat>, there: seq<nat>, src: seq<bv8>)
    requires |password| > 1 && OneCharacter(password)
    ensures Agree(password, here, there, src)
  {
    hide Mix, After;
    AfterCovers(password, here + [|src|]);
    AfterCovers(password, there + [|src|]);
    OneCharacterEverywhere(password, here + [|src|]);
    OneCharacterEverywhere(password, there + [|src|]);
    var k, k' := After(password, here + [|src|]), After(password, there + [|src|]);
    assert k.remainder[..|src|] == k'.remainder[..|src|];
    assert forall i :: 0 <= i < |src| ==> k.remainder[i] == k'.remainder[i];
  }

  /** A used character that differs from the first one tells two objects apart. */
  lemma CharacterShows(password: seq<bv8>, j: nat, a: nat, src: seq<bv8>)
    requires |password| > 1 && j < |password| - 1 && password[j] != password[0]
    requires FIRST < a && a % (|password| - 1) == j && |src| == FIRST + a + 1
    ensures !Agree(password, [a], [], src)
  {
    hide After, Pattern, Mix;
    var n := |src|;
    AfterCovers(password, [a] + [n]);
    AfterCovers(password, [] + [n]);
    assert [a] + [n] == [a, n] && [] + [n] == [n];
    var k, k' := After(password, [a] + [n]), After(password, [] + [n]);
    TwoHistories(password, a, n);
    DifferAt(password, a, n, k.remainder, k'.remainder);
    CryptDiffersAtLast(k, k', src);
  }

  /** Objects with one key agree on all messages, whatever their histories, if and only if the key has only one
      character in use. */
  lemma ObjectsAgreeIff(password: seq<bv8>)
    requires |password| > 1
    ensures (forall here, there, src :: Agree(password, here, there, src)) <==> OneCharacter(password)
  {
    hide Agree;
    var p := |password| - 1;
    if OneCharacter(password) {
      forall here: seq<nat>, there: seq<nat>, src: seq<bv8> ensures Agree(password, here, there, src) {
        SameKeystream(password, here, there, src);
      }
    } else {
      var j: nat :| j < p && password[j] != password[0];
      var a := (FIRST + 1) * p + j;
      Residue(FIRST + 1, p, j);
      var src := seq(FIRST + a + 1, _ => 0);
      CharacterShows(password, j, a, src);
    }
  }

  lemma {:induction false} Residue(q: nat, p: nat, j: nat)
    requires j < p
    ensures (q * p + j) % p == j && q * p + j >= q
  {
    if q > 0 {
      Residue(q - 1, p, j);
      assert q * p + j == ((q - 1) * p + j) + p;
      OneMoreModulus((q - 1) * p + j, p);
    }
  }

  lemma OneMoreModulus(x: nat, p: nat)
    requires p > 0
    ensures (x + p) % p == x % p
  {
    var d := (x + p) / p - x / p - 1;
    assert p * d == x % p - (x + p) % p;
  }

  lemma CryptDiffersAtLast(k: Keystream, k': Keystream, src: seq<bv8>)
    requires 0 < |src| <= |k.remainder| && |src| <= |k'.remainder|
    requires k.remainder[..|src| - 1] == k'.remainder[..|src| - 1]
    ensures Crypt(k, src) == Crypt(k', src) <==> k.remainder[|src| - 1] == k'.remainder[|src| - 1]
  {
    hide Mix;
    var last := |src| - 1;
    forall i | 0 <= i < last ensures Crypt(k, src)[i] == Crypt(k', src)[i] {
      assert k.remainder[..last][i] == k'.remainder[..last][i];
    }
    MixSame(src[last], last, k.remainder[last], k'.remainder[last]);
    var a, b := Crypt(k, src), Crypt(k', src);
    assert a[last] == Mix(src[last], last, k.remainder[last]) && b[last] == Mix(src[last], last, k'.remainder[last]);
    if a[last] == b[last] {
      assert a == b;
    }
  }

  class XORCipher {
    const password: seq<bv8>
    const pwdMaxIndex: nat
    var remainder: seq<bv8>
    var maxLen: nat

    predicate Valid()
      reads `remainder, `maxLen
    {
      |password| > 1 && pwdMaxIndex == |password| - 1 && Covers(View())
    }

    function View(): Keystream
      reads `remainder, `maxLen
    {
      Keystream(remainder, maxLen)
    }

    constructor (key: seq<bv8>)
      requires |key| >= 4
      ensures Valid() && password == Hex(key) && View() == After(password, [])
    {
      password := Hex(key);
      pwdMaxIndex := |Hex(key)| - 1;
      remainder, maxLen := [], 0;
      new;
      UpdateMaxLen(FIRST);
    }

    method UpdateMaxLen(max: nat)
      requires |password| > 1 && pwdMaxIndex == |password| - 1
      modifies `remainder, `maxLen
      ensures View() == Keystream(old(remainder) + Pattern(password, max), max)
    {
      maxLen := max;
      var i := 0;
      while i < maxLen
        invariant 0 <= i <= max && maxLen == max
        invariant remainder == old(remainder) + Pattern(password, i)
      {
        remainder := remainder + [password[i % pwdMaxIndex]];
        i := i + 1;
      }
    }

    method TrySelfUpdate(length: nat)
      requires Valid()
      modifies `remainder, `maxLen
      ensures Valid() && View() == Grow(password, old(View()), length)
    {
      if length < 8192 {
        return;
      }
      if maxLen < length {
        UpdateMaxLen(length);
      }
    }

    /** In place; `Decrypt` has the same body. */
    method Encrypt(src: array<bv8>)
      requires Valid()
      modifies `remainder, `maxLen, src
      ensures Valid() && View() == Grow(password, old(View()), src.Length)
      ensures src.Length <= |remainder| && src[..] == Crypt(View(), old(src[..]))
    {
      hide Grow, Mix;
      TrySelfUpdate(src.Length);
      GrowCovers(password, old(View()), src.Length);
      ghost var was, grown := src[..], View();
      var i := 0;
      while i < src.Length
        invariant 0 <= i <= src.Length && View() == grown
        invariant forall j :: 0 <= j < i ==> src[j] == Mix(was[j], j, remainder[j])
        invariant forall j :: i <= j < src.Length ==> src[j] == was[j]
      {
        src[i] := Mix(src[i], i, remainder[i]);
        i := i + 1;
      }
      assert src[..] == Crypt(grown, was);
    }
  }

  /** A key has at least four characters. */
  method NewXORCipher(key: seq<bv8>) returns (cipher: XORCipher?)
    ensures cipher == null <==> |key| < 4
    ensures cipher != null ==> fresh(cipher) && cipher.Valid() && cipher.password == Hex(key)
    ensures cipher != null ==> cipher.View() == After(Hex(key), [])
  {
    if |key| < 4 {
      return null;
    }
    cipher := new XORCipher(key);
  }
}
