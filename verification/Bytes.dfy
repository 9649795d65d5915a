/** Bytes and big-endian integers, as get2byte, put2byte, get4byte and put4byte read and write them. */
module Bytes {

  type byte = x: nat | x < 256

  function Get2(d: seq<byte>, i: nat): (r: nat)
    requires i + 2 <= |d|
    ensures r < 65536
  {
    (d[i] as int) * 256 + d[i + 1]
  }

  function Put2(d: seq<byte>, i: nat, v: nat): (r: seq<byte>)
    requires i + 2 <= |d|
    ensures |r| == |d|
    ensures v < 65536 ==> Get2(r, i) == v
  {
    d[i := v / 256 % 256][i + 1 := v % 256]
  }

  lemma PutGet2(d: seq<byte>, i: nat, v: nat, j: nat)
    requires i + 2 <= |d| && j + 2 <= |d| && (j + 2 <= i || i + 2 <= j)
    ensures Get2(Put2(d, i, v), j) == Get2(d, j)
  {
  }

  function Get4(d: seq<byte>, i: nat): (r: nat)
    requires i + 4 <= |d|
    ensures r < 0x1_0000_0000
  {
    Get2(d, i) * 65536 + Get2(d, i + 2)
  }

  function Put4(d: seq<byte>, i: nat, v: nat): (r: seq<byte>)
    requires i + 4 <= |d|
    ensures |r| == |d|
    ensures v < 0x1_0000_0000 ==> Get4(r, i) == v
    ensures forall b | 0 <= b < |d| && !(i <= b < i + 4) :: r[b] == d[b]
  {
    Put2(Put2(d, i, v / 65536), i + 2, v % 65536)
  }

  /** The bytes s in place of those from a on. */
  function Splice(d: seq<byte>, a: nat, s: seq<byte>): (r: seq<byte>)
    requires a + |s| <= |d|
    ensures |r| == |d|
  {
    d[..a] + s + d[a + |s|..]
  }
}
