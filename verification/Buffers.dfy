/** Writing into a slice `b[lo:hi]` of a pooled buffer, as Go's `copy` and `binary.BigEndian` do. */
module Buffers {
  import opened Bytes

  /** Appends `data` at `at` to what a caller has written since `lo`. */
  method Put(b: array<byte>, lo: nat, hi: nat, at: nat, data: seq<byte>)
    requires lo <= at && at + |data| <= hi <= b.Length
    modifies b
    ensures b[..lo] == old(b[..lo]) && b[hi..] == old(b[hi..])
    ensures b[lo..at + |data|] == old(b[lo..at]) + data
  {
    forall i | 0 <= i < |data| {
      b[at + i] := data[i];
    }
  }

  /** Copies `data` to the end of the buffer. */
  method PutLast(b: array<byte>, at: nat, data: seq<byte>)
    requires at + |data| == b.Length
    modifies b
    ensures b[..at] == old(b[..at])
    ensures b[at..] == data
  {
    forall i | 0 <= i < |data| {
      b[at + i] := data[i];
    }
  }

  /** Overwrites two bytes inside the slice. */
  method PutUint16(b: array<byte>, lo: nat, hi: nat, k: nat, x: u16)
    requires lo + k + 2 <= hi <= b.Length
    modifies b
    ensures b[..lo] == old(b[..lo]) && b[hi..] == old(b[hi..])
    ensures b[lo..hi] == old(b[lo..hi])[k := x / 256][k + 1 := x % 256]
  {
    b[lo + k] := x / 256;
    b[lo + k + 1] := x % 256;
  }
}
