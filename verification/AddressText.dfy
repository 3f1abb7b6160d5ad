/** IP addresses and their texts, as Go's `net` package has them. */
module AddressText {
  import opened Bytes
  import opened Wrappers

  type Text = seq<byte>

  type IP16 = s: seq<byte> | |s| == 16 witness Zeros(16)

  function V4Prefix(): (s: seq<byte>)
    ensures |s| == 12
  {
    Zeros(10) + Pair(0xff, 0xff)
  }

  function Mapped(a: IP4): IP16 {
    V4Prefix() + a
  }

  /** `To4`: nothing for an address that is not an IPv4 one. */
  function To4(b: IP16): seq<byte> {
    if b[..12] == V4Prefix() then b[12..] else []
  }

  lemma MappedTo4(b: IP16)
    ensures To4(b) != [] <==> exists a: IP4 :: b == Mapped(a)
    ensures |To4(b)| == 4 ==> Mapped(To4(b)) == b
    ensures forall a: IP4 :: To4(Mapped(a)) == a
  {
    if To4(b) != [] {
      var a: IP4 := b[12..];
      assert b == Mapped(a);
    }
    forall a: IP4 ensures To4(Mapped(a)) == a {
      assert Mapped(a)[..12] == V4Prefix() && Mapped(a)[12..] == a;
    }
  }

  /** The IPv4-mapped addresses of RFC 4291 section 2.5.5.2. */
  lemma MappedLayout(a: IP4)
    ensures var b := Mapped(a);
            (forall i :: 0 <= i < 10 ==> b[i] == 0) && b[10] == b[11] == 255 && b[12..] == a
  {
  }

  lemma To4Length(b: IP16)
    ensures |To4(b)| == 4 || To4(b) == []
  {
  }

  /** `net.ParseIP` and `IP.String`, of which nothing is known but what `Lawful` says. */
  datatype Texts = Texts(parse: Text -> Option<IP16>, show: IP16 -> Text)

  /** Every address has one text of its own, without brackets, that is read as that address; other texts may be
      read as addresses, too, but not the empty one. */
  ghost predicate Lawful(t: Texts) {
    && (forall b: IP16 :: t.parse(t.show(b)) == Some(b) && Plain(t.show(b)))
    && t.parse([]) == None
  }

  /** No brackets. */
  predicate Plain(s: Text) {
    91 !in s && 93 !in s
  }
}
