/** The host name of a plain HTTP request, as `packet/http.go` finds it. */
module HttpHost {
  import opened Bytes
  import opened Wrappers

  /** "Host: " */
  const HOST: seq<byte> := [72, 111, 115, 116, 58, 32]

  const CRLF: seq<byte> := [13, 10]

  function Ascii(s: string): seq<byte> {
    seq(|s|, i requires 0 <= i < |s| => s[i] as int % 256)
  }

  /** What is looked for. */
  lemma Literals()
    ensures HOST == Ascii("Host: ") && CRLF == Ascii("\r\n")
  {
  }

  predicate At(data: seq<byte>, pattern: seq<byte>, i: nat) {
    i + |pattern| <= |data| && data[i..i + |pattern|] == pattern
  }

  /** The first occurrence from `from` on, or -1. An occurrence that ends the data is not looked at. */
  function Find(data: seq<byte>, pattern: seq<byte>, from: nat): (r: int)
    ensures r == -1 || (from <= r < |data| - |pattern| && At(data, pattern, r))
    ensures forall i :: from <= i < |data| - |pattern| && At(data, pattern, i) ==> 0 <= r <= i
    decreases |data| - from
  {
    if from >= |data| - |pattern| then -1
    else if At(data, pattern, from) then from
    else Find(data, pattern, from + 1)
  }

  /** The rest of the line behind the first "Host: ", before it is trimmed. */
  function PlainHost(data: seq<byte>): Result<seq<byte>> {
    if |data| < 7 then Error else
    var start := Find(data, HOST, 0);
    if start < 0 then Error else
    var end := Find(data, CRLF, start + |HOST|);
    if end < 0 then Panic else Ok(data[start + |HOST|..end])
  }

  method FindStringInData(data: seq<byte>, stringToFind: seq<byte>, startIndex: nat) returns (r: int)
    ensures r == Find(data, stringToFind, startIndex)
  {
    var i := startIndex;
    while i < |data| - |stringToFind|
      invariant startIndex <= i && Find(data, stringToFind, i) == Find(data, stringToFind, startIndex)
    {
      var found := true;
      for j := 0 to |stringToFind|
        invariant found && forall k :: 0 <= k < j ==> data[i + k] == stringToFind[k]
      {
        if data[i + j] != stringToFind[j] {
          assert data[i..i + |stringToFind|][j] != stringToFind[j];
          found := false;
          break;
        }
      }
      if found {
        assert data[i..i + |stringToFind|] == stringToFind;
        return i;
      }
      i := i + 1;
    }
    return -1;
  }

  method GetHostnamePlainHttp(data: seq<byte>) returns (r: Result<seq<byte>>)
    ensures r == PlainHost(data)
  {
    if |data| < 7 {
      return Error;
    }
    var start := FindStringInData(data, HOST, 0);
    if start < 0 {
      return Error;
    }
    var end := FindStringInData(data, CRLF, start + |HOST|);
    if end < 0 {
      return Panic;
    }
    return Ok(data[start + |HOST|..end]);
  }

  predicate IsFirst(data: seq<byte>, pattern: seq<byte>, i: nat) {
    At(data, pattern, i) && forall k :: 0 <= k < i ==> !At(data, pattern, k)
  }

  /** There is a first "Host: " and something behind it, but no line end before the last two bytes. */
  predicate Unended(data: seq<byte>) {
    exists start :: 0 <= start < |data| - |HOST| && IsFirst(data, HOST, start)
                    && forall i :: start + |HOST| <= i < |data| - |CRLF| ==> !At(data, CRLF, i)
  }

  lemma PanicsIffUnended(data: seq<byte>)
    ensures PlainHost(data).Panic? <==> Unended(data)
  {
    var start := Find(data, HOST, 0);
    if PlainHost(data).Panic? {
      assert IsFirst(data, HOST, start);
    }
  }

  lemma Within(a: seq<byte>, m: seq<byte>, b: seq<byte>, pattern: seq<byte>, i: nat)
    requires i + |pattern| <= |m|
    ensures At(a + m + b, pattern, |a| + i) <==> At(m, pattern, i)
  {
    assert (a + m + b)[|a| + i..|a| + i + |pattern|] == m[i..i + |pattern|];
  }

  /** Where a line ends that has no line end inside. */
  lemma LineEnd(a: seq<byte>, line: seq<byte>, rest: seq<byte>)
    requires forall i :: 0 <= i < |line| ==> !At(line + CRLF, CRLF, i)
    ensures var data := a + (line + CRLF) + rest;
            && data[|a|..|a| + |line|] == line && At(data, CRLF, |a| + |line|)
            && forall k :: |a| <= k < |a| + |line| ==> !At(data, CRLF, k)
  {
    hide At;
    var data := a + (line + CRLF) + rest;
    forall k | |a| <= k < |a| + |line| ensures !At(data, CRLF, k) {
      Within(a, line + CRLF, rest, CRLF, k - |a|);
    }
    Within(a, line + CRLF, rest, CRLF, |line|);
    AtEnd(line, CRLF);
  }

  lemma AtEnd(a: seq<byte>, pattern: seq<byte>)
    ensures At(a + pattern, pattern, |a|)
  {
  }

  /** Of any request with a Host line, the name is found if and only if something follows that line; a request
      that ends with it makes the parser panic. */
  lemma HostLine(before: seq<byte>, name: seq<byte>, rest: seq<byte>)
    requires var data := before + HOST + name + CRLF + rest; forall i :: 0 <= i < |before| ==> !At(data, HOST, i)
    requires forall i :: 0 <= i < |name| ==> !At(name + CRLF, CRLF, i)
    ensures PlainHost(before + HOST + name + CRLF + rest) == if rest == [] then Panic else Ok(name)
  {
    hide At, Find;
    var data := before + HOST + name + CRLF + rest;
    Associate(before + HOST, name, CRLF);
    LineEnd(before + HOST, name, rest);
    Associate(before + HOST, name + CRLF, rest);
    AtEnd([], HOST);
    assert [] + HOST == HOST;
    Within(before, HOST, name + CRLF + rest, HOST, 0);
  }
}
