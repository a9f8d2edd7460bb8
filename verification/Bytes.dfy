/** Bytes as they lie in a packet or a table, and the fixed-width reads and writes made of them. */
module Bytes {

  newtype byte = x: int | 0 <= x < 0x100

  /** An IPv4 address: four bytes in network order, which is how tables, hop lists and headers all hold it. */
  type Addr = s: seq<byte> | |s| == 4 witness [0, 0, 0, 0]

  datatype Option<+T> = None | Some(value: T)

  /** `ntohs` of the two bytes at offset `k`. */
  function U16At(s: seq<byte>, k: nat): (n: nat)
    requires k + 2 <= |s|
    ensures n < 0x1_0000
  {
    s[k] as int * 0x100 + s[k + 1] as int
  }

  /** `htons` of a value that has already been cut to 16 bits. */
  function U16Bytes(n: nat): (s: seq<byte>)
    requires n < 0x1_0000
    ensures |s| == 2 && U16At(s, 0) == n
  {
    [(n / 0x100) as byte, (n % 0x100) as byte]
  }

  function Zeros(n: nat): (s: seq<byte>)
    ensures |s| == n && forall i :: 0 <= i < n ==> s[i] == 0
  {
    seq(n, i => 0 as byte)
  }

  lemma U16OfSlice(s: seq<byte>, from: nat, to: nat, k: nat)
    requires from <= to <= |s| && k + 2 <= to - from
    ensures U16At(s[from..to], k) == U16At(s, from + k)
  {
  }

  lemma SliceOfSlice(s: seq<byte>, from: nat, to: nat, i: nat, j: nat)
    requires from <= to <= |s| && i <= j <= to - from
    ensures s[from..to][i..j] == s[from + i..from + j]
  {
    forall k | 0 <= k < j - i
      ensures s[from..to][i..j][k] == s[from + i..from + j][k]
    {
      assert s[from..to][i + k] == s[from + (i + k)];
    }
  }

  /** Concatenation of a list of four-byte addresses. */
  function Flatten(hops: seq<Addr>): (s: seq<byte>)
    ensures |s| == 4 * |hops|
  {
    if hops == [] then [] else hops[0] + Flatten(hops[1..])
  }

  lemma {:induction false} FlattenAt(hops: seq<Addr>, i: nat)
    requires i < |hops|
    ensures Flatten(hops)[4 * i..4 * i + 4] == hops[i]
  {
    if i == 0 {
    } else {
      FlattenAt(hops[1..], i - 1);
      assert Flatten(hops)[4 * i..4 * i + 4] == Flatten(hops[1..])[4 * (i - 1)..4 * (i - 1) + 4];
    }
  }
}
