/**
 The Internet checksum (RFC 1071) over bytes as a little-endian host sees them, and its
 incremental update by equation 3 of RFC 1624.
 */
module Checksum {
  import opened Bytes

  const M: int := 0xffff

  // ---- Sums ----

  /** What a byte at offset `i` counts when 16-bit words are loaded little-endian. */
  function Weighed(b: byte, i: nat): nat {
    if i % 2 == 0 then b as int else 0x100 * b as int
  }

  /** The sum of the 16-bit words of `s` in host order; an odd last byte counts as padded with zero. */
  function RawSum(s: seq<byte>): nat {
    if s == [] then 0 else RawSum(s[..|s| - 1]) + Weighed(s[|s| - 1], |s| - 1)
  }

  /** The same sum in network order, as RFC 1071 writes it. */
  function NetSum(s: seq<byte>): nat {
    if s == [] then 0 else NetSum(s[..|s| - 1]) + Weighed(s[|s| - 1], |s|)
  }

  /** End-around-carry folding to 16 bits. */
  function Fold(n: nat): nat
    decreases n
  {
    if n <= M then n else Fold(n % 0x1_0000 + n / 0x1_0000)
  }

  /** The example of section 3 of RFC 1071. */
  lemma RfcExample()
    ensures NetSum([0x00, 0x01, 0xf2, 0x03, 0xf4, 0xf5, 0xf6, 0xf7]) == 0x2ddf0 && Fold(0x2ddf0) == 0xddf2
  {
    var s: seq<byte> := [0x00, 0x01, 0xf2, 0x03, 0xf4, 0xf5, 0xf6, 0xf7];
    assert s[..7] == [0x00, 0x01, 0xf2, 0x03, 0xf4, 0xf5, 0xf6];
    assert s[..7][..6] == [0x00, 0x01, 0xf2, 0x03, 0xf4, 0xf5];
    assert s[..7][..6][..5] == [0x00, 0x01, 0xf2, 0x03, 0xf4];
    assert [0x00, 0x01, 0xf2, 0x03, 0xf4][..4] == [0x00, 0x01, 0xf2, 0x03];
    assert [0x00, 0x01, 0xf2, 0x03][..3] == [0x00, 0x01, 0xf2];
    assert [0x00, 0x01, 0xf2][..2] == [0x00, 0x01];
    assert [0x00, 0x01][..1] == [0x00];
    assert NetSum([0x00]) == 0;
    assert NetSum([0x00, 0x01]) == 1;
    assert NetSum([0x00, 0x01, 0xf2]) == 0xf201;
    assert NetSum([0x00, 0x01, 0xf2, 0x03]) == 0xf204;
    assert NetSum([0x00, 0x01, 0xf2, 0x03, 0xf4]) == 0x1e604;
    assert NetSum([0x00, 0x01, 0xf2, 0x03, 0xf4, 0xf5]) == 0x1e6f9;
    assert NetSum(s[..7]) == 0x2dcf9;
  }

  lemma {:induction false} FoldMeaning(n: nat)
    ensures Fold(n) <= M
    ensures Fold(n) % M == n % M
    ensures Fold(n) == 0 <==> n == 0
    decreases n
  {
    if n > M {
      var m := n % 0x1_0000 + n / 0x1_0000;
      assert n == m + M * (n / 0x1_0000);
      CongruentByMultiple(m, n / 0x1_0000);
      FoldMeaning(m);
    }
  }

  lemma CongruentByMultiple(m: int, k: int)
    ensures (m + M * k) % M == m % M
  {
  }

  /** A total that includes its checksum field is valid when it folds to all ones. */
  predicate SumsToOnes(total: nat) {
    Fold(total) == M
  }

  lemma SumsToOnesExactly(total: nat)
    ensures SumsToOnes(total) <==> total > 0 && total % M == 0
  {
    FoldMeaning(total);
  }

  lemma {:induction false} ByteOrderIdentity(s: seq<byte>) returns (k: int)
    ensures NetSum(s) == 0x100 * RawSum(s) - M * k
  {
    if s == [] {
      k := 0;
    } else {
      k := ByteOrderIdentity(s[..|s| - 1]);
      if (|s| - 1) % 2 == 1 {
        k := k + s[|s| - 1] as int;
      }
    }
  }

  lemma {:induction false} SumsVanishTogether(s: seq<byte>)
    ensures NetSum(s) == 0 <==> RawSum(s) == 0
  {
    if s != [] {
      SumsVanishTogether(s[..|s| - 1]);
    }
  }

  /** Section 2 (B) of RFC 1071: validity does not depend on the byte order the sum is taken in. */
  lemma ByteOrderIndependence(s: seq<byte>)
    ensures SumsToOnes(NetSum(s)) <==> SumsToOnes(RawSum(s))
  {
    var k := ByteOrderIdentity(s);
    var r, n := RawSum(s), NetSum(s);
    SumsToOnesExactly(r);
    SumsToOnesExactly(n);
    SumsVanishTogether(s);
    if r % M == 0 {
      assert n == M * (0x100 * (r / M) - k);
      CongruentByMultiple(0, 0x100 * (r / M) - k);
    }
    if n % M == 0 {
      // 256 * 256 is one more than 65535, so multiplying by 256 twice is the identity.
      assert r == 0x100 * n + M * (0x100 * k - r);
      assert r == M * (0x100 * (n / M) + 0x100 * k - r);
      CongruentByMultiple(0, 0x100 * (n / M) + 0x100 * k - r);
    }
  }

  lemma RoundedUp(n: nat)
    ensures (n + (M - n % M)) % M == 0
  {
  }

  /** Adding what is missing to a multiple of 65535 makes any sum valid. */
  lemma CompletedSum(s: seq<byte>, t: seq<byte>)
    requires RawSum(t) == RawSum(s) + (M - RawSum(s) % M)
    ensures SumsToOnes(NetSum(t))
  {
    RoundedUp(RawSum(s));
    ByteOrderIndependence(t);
    SumsToOnesExactly(RawSum(t));
  }

  /** Changing one byte moves the sum by what it counts more or less. */
  lemma {:induction false} RawSumUpdate(s: seq<byte>, i: nat, v: byte)
    requires i < |s|
    ensures RawSum(s[i := v]) == RawSum(s) + Weighed(v, i) - Weighed(s[i], i)
  {
    var n := |s| - 1;
    if i == n {
      assert s[i := v][..n] == s[..n];
    } else {
      assert s[i := v][..n] == s[..n][i := v];
      RawSumUpdate(s[..n], i, v);
    }
  }

  /** `s` with a 16-bit field at offset `k` set as a little-endian host stores it. */
  function WriteField(s: seq<byte>, k: nat, c: nat): (r: seq<byte>)
    requires k + 2 <= |s| && c <= M
    ensures |r| == |s|
  {
    s[k := (c % 0x100) as byte][k + 1 := (c / 0x100) as byte]
  }

  lemma LowByteSum(s: seq<byte>, k: nat, x: byte)
    requires k < |s| && k % 2 == 0
    ensures RawSum(s[k := x]) == RawSum(s) + (x as int - s[k] as int)
  {
    RawSumUpdate(s, k, x);
  }

  lemma HighByteSum(s: seq<byte>, k: nat, y: byte)
    requires k < |s| && k % 2 == 1
    ensures RawSum(s[k := y]) == RawSum(s) + 0x100 * (y as int - s[k] as int)
  {
    RawSumUpdate(s, k, y);
  }

  lemma SplitBytes(c: nat)
    requires c <= M
    ensures c / 0x100 < 0x100 && c == (c % 0x100) as byte as int + 0x100 * (c / 0x100) as byte as int
  {
  }

  lemma TwoBytesSum(s: seq<byte>, k: nat, x: byte, y: byte)
    requires k + 2 <= |s| && k % 2 == 0 && s[k] == s[k + 1] == 0
    ensures RawSum(s[k := x][k + 1 := y]) == RawSum(s) + x as int + 0x100 * y as int
  {
    var t := s[k := x];
    LowByteSum(s, k, x);
    assert t[k + 1] == 0 && (k + 1) % 2 == 1;
    HighByteSum(t, k + 1, y);
  }

  /** Writing into an empty field at an even offset adds exactly the value written. */
  lemma WriteFieldSum(s: seq<byte>, k: nat, c: nat)
    requires k + 2 <= |s| && c <= M && k % 2 == 0 && s[k] == s[k + 1] == 0
    ensures RawSum(WriteField(s, k, c)) == RawSum(s) + c
  {
    SplitBytes(c);
    TwoBytesSum(s, k, (c % 0x100) as byte, (c / 0x100) as byte);
  }

  lemma WeightShifts(b: byte, k: nat, n: nat)
    requires k % 2 == 0
    ensures Weighed(b, k + n) == Weighed(b, n)
  {
  }

  lemma {:induction false} RawSumConcat(a: seq<byte>, b: seq<byte>)
    requires |a| % 2 == 0
    ensures RawSum(a + b) == RawSum(a) + RawSum(b)
  {
    if b == [] {
      assert a + b == a;
    } else {
      var n := |b| - 1;
      assert (a + b)[..|a| + n] == a + b[..n];
      assert (a + b)[|a| + n] == b[n];
      RawSumConcat(a, b[..n]);
      WeightShifts(b[n], |a|, n);
    }
  }

  // ---- The incremental update ----

  /** One's-complement addition of two values below `top + 1`, where `top` is all ones. */
  function OnesAdd(top: nat, a: nat, b: nat): (r: nat)
    requires a <= top && b <= top
    ensures r <= top
    ensures r == a + b || r == a + b - top
    ensures r == 0 <==> a == 0 && b == 0
  {
    if a + b > top then a + b - top else a + b
  }

  /** `csum_replace2`: HC' = ~(~HC + ~m + m') in 16 bits. */
  function Replace2(check: nat, old16: nat, new16: nat): (r: nat)
    requires check <= M && old16 <= M && new16 <= M
    ensures r <= M
  {
    M - OnesAdd(M, OnesAdd(M, M - check, M - old16), new16)
  }

  const M32: int := 0xffff_ffff

  /** `csum_replace4`: the same equation in 32 bits, then folded to 16. */
  function Replace4(check: nat, old32: nat, new32: nat): (r: nat)
    requires check <= M && old32 <= M32 && new32 <= M32
    ensures r <= M
  {
    var sum := OnesAdd(M32, OnesAdd(M32, M32 - check, M32 - old32), new32);
    FoldMeaning(sum);
    M - Fold(sum)
  }

  lemma Replace2Meaning(check: nat, old16: nat, new16: nat) returns (k: int)
    requires check <= M && old16 <= M && new16 <= M
    ensures Replace2(check, old16, new16) == check + old16 - new16 + M * k
  {
    var a := OnesAdd(M, M - check, M - old16);
    var b := OnesAdd(M, a, new16);
    k := (if a == M - check + (M - old16) then 0 else 1) + (if b == a + new16 then 0 else 1) - 1;
  }

  lemma Replace4Meaning(check: nat, old32: nat, new32: nat) returns (k: int)
    requires check <= M && old32 <= M32 && new32 <= M32
    ensures Replace4(check, old32, new32) == check + old32 - new32 + M * k
  {
    var a := OnesAdd(M32, M32 - check, M32 - old32);
    var b := OnesAdd(M32, a, new32);
    FoldMeaning(b);
    var f := Fold(b);
    var j := (if a == M32 - check + (M32 - old32) then 0 else 1) + (if b == a + new32 then 0 else 1);
    assert b == 2 * M32 - check - old32 + new32 - M32 * j;
    assert M32 == M * 0x1_0001;
    assert f == b - M * (b / M - f / M);
    k := 1 - 0x1_0001 * (2 - j) + (b / M - f / M);
  }

  /** An address as the 32-bit value a little-endian host loads. */
  function Raw32(a: Addr): (n: nat)
    ensures n <= M32
  {
    a[0] as int + 0x100 * a[1] as int + 0x1_0000 * a[2] as int + 0x100_0000 * a[3] as int
  }

  /** Loading an address as one word or as two makes no difference to the sum. */
  lemma Raw32Meaning(a: Addr)
    ensures Raw32(a) == RawSum(a) + M * (a[2] as int + 0x100 * a[3] as int)
  {
    assert a[..3][..2] == [a[0], a[1]];
    assert a[..3][..2][..1] == [a[0]];
    assert RawSum([a[0]]) == a[0] as int;
    assert RawSum([a[0], a[1]]) == a[0] as int + 0x100 * a[1] as int;
  }
}
