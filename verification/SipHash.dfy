/**
 SipHash-2-4 as section 2 of the SipHash paper defines it, the reference loop, and the
 hand-unrolled form for a fixed 40-byte buffer. Both forms are proved to compute the
 paper's function, so they return the same 64 bits on every input both accept.

 The word operations are a parameter: the proofs are about the order of steps and never
 look at bits. `WORD64` is the instance the program uses.
 */
module SipHash {
  import opened Bytes

  /** The operations on 64-bit words that the algorithm is built from. */
  datatype WordOps<!W> = WordOps(
    add: (W, W) -> W,
    xor: (W, W) -> W,
    or: (W, W) -> W,
    rotl: (W, nat) -> W,
    shl: (W, nat) -> W,
    widen: byte -> W,
    literal: bv64 -> W)

  function Add64(x: bv64, y: bv64): bv64 { x + y }
  function Xor64(x: bv64, y: bv64): bv64 { x ^ y }
  function Or64(x: bv64, y: bv64): bv64 { x | y }
  function Rotl64(x: bv64, b: nat): bv64 { if b <= 64 then (x << b) | (x >> (64 - b)) else x }
  function Shl64(x: bv64, b: nat): bv64 { if b <= 64 then x << b else 0 }
  function Widen64(b: byte): bv64 { (b as bv8) as bv64 }
  function Literal64(x: bv64): bv64 { x }

  const WORD64: WordOps<bv64> := WordOps(Add64, Xor64, Or64, Rotl64, Shl64, Widen64, Literal64)

  ghost predicate OrZero<W>(o: WordOps<W>, x: W, n: nat) {
    o.or(x, o.shl(o.widen(0), n)) == x && o.or(x, o.widen(0)) == x
  }

  /** Eight words or-ed from the first to the last, and from the last to the first. */
  ghost predicate OrReverses<W>(o: WordOps<W>, a: W, b: W, c: W, d: W, e: W, f: W, g: W, h: W) {
    o.or(o.or(o.or(o.or(o.or(o.or(o.or(a, b), c), d), e), f), g), h)
    == o.or(o.or(o.or(o.or(o.or(o.or(o.or(h, g), f), e), d), c), b), a)
  }

  /** All that the proofs need of the operations: zero is neutral for `or`, and order does not matter. */
  ghost predicate Lawful<W(!new)>(o: WordOps<W>) {
    && (forall x, n :: n <= 56 ==> OrZero(o, x, n))
    && (forall a, b, c, d, e, f, g, h :: OrReverses(o, a, b, c, d, e, f, g, h))
  }

  lemma Word64IsLawful()
    ensures Lawful(WORD64)
  {
    forall x: bv64, n: nat | n <= 56
      ensures OrZero(WORD64, x, n)
    {
      assert Shl64(Widen64(0), n) == 0 && Widen64(0) == 0;
      assert Or64(x, 0) == x;
    }
    forall a: bv64, b: bv64, c: bv64, d: bv64, e: bv64, f: bv64, g: bv64, h: bv64
      ensures OrReverses(WORD64, a, b, c, d, e, f, g, h)
    {
      Or64Reverses(a, b, c, d, e, f, g, h);
    }
  }

  lemma Or64Reverses(a: bv64, b: bv64, c: bv64, d: bv64, e: bv64, f: bv64, g: bv64, h: bv64)
    ensures Or64(Or64(Or64(Or64(Or64(Or64(Or64(a, b), c), d), e), f), g), h)
         == Or64(Or64(Or64(Or64(Or64(Or64(Or64(h, g), f), e), d), c), b), a)
  {
    var ab := Or64(a, b);
    var ac := Or64(ab, c);
    var ad := Or64(ac, d);
    var ae := Or64(ad, e);
    var af := Or64(ae, f);
    var hf := Or64(Or64(h, g), f);
    Or64Commutes(Or64(af, g), h);
    Or64Moves(h, af, g);
    Or64Moves(Or64(h, g), ae, f);
    Or64Moves(hf, ad, e);
    Or64Moves(Or64(hf, e), ac, d);
    Or64Moves(Or64(Or64(hf, e), d), ab, c);
    Or64Moves(Or64(Or64(Or64(hf, e), d), c), a, b);
  }

  lemma Or64Commutes(x: bv64, y: bv64)
    ensures Or64(x, y) == Or64(y, x)
  {
  }

  lemma Or64Moves(x: bv64, y: bv64, z: bv64)
    ensures Or64(x, Or64(y, z)) == Or64(Or64(x, z), y)
  {
    calc {
      Or64(x, Or64(y, z));
      x | Or64(y, z);
      x | (y | z);
      { BitsMove(x, y, z); }
      (x | z) | y;
      Or64(x, z) | y;
      Or64(Or64(x, z), y);
    }
  }

  lemma BitsMove(x: bv64, y: bv64, z: bv64)
    ensures x | (y | z) == (x | z) | y
  {
  }

  datatype State<W> = State(v0: W, v1: W, v2: W, v3: W)

  /** Eight bytes read as one little-endian 64-bit word. */
  function Word<W>(o: WordOps<W>, s: seq<byte>): W
    requires |s| == 8
  {
    o.or(o.or(o.or(o.or(o.or(o.or(o.or(
      o.widen(s[0]), o.shl(o.widen(s[1]), 8)), o.shl(o.widen(s[2]), 16)), o.shl(o.widen(s[3]), 24)),
      o.shl(o.widen(s[4]), 32)), o.shl(o.widen(s[5]), 40)), o.shl(o.widen(s[6]), 48)), o.shl(o.widen(s[7]), 56))
  }

  // ---- The paper's definition ----

  /** Figure 2.1 of the paper: one SipRound. */
  function SipRound<W>(o: WordOps<W>, s: State<W>): State<W> {
    var a0 := o.add(s.v0, s.v1);
    var a2 := o.add(s.v2, s.v3);
    var a1 := o.xor(o.rotl(s.v1, 13), a0);
    var a3 := o.xor(o.rotl(s.v3, 16), a2);
    var b0 := o.add(o.rotl(a0, 32), a3);
    var b2 := o.add(a2, a1);
    State(b0, o.xor(o.rotl(a1, 17), b2), o.rotl(b2, 32), o.xor(o.rotl(a3, 21), b0))
  }

  function Initial<W>(o: WordOps<W>, key: seq<byte>): State<W>
    requires |key| == 16
  {
    var k0, k1 := Word(o, key[..8]), Word(o, key[8..]);
    State(o.xor(o.literal(0x736f6d6570736575), k0), o.xor(o.literal(0x646f72616e646f6d), k1),
          o.xor(o.literal(0x6c7967656e657261), k0), o.xor(o.literal(0x7465646279746573), k1))
  }

  /** c = 2: absorb one message word. */
  function Compress<W>(o: WordOps<W>, s: State<W>, m: W): State<W> {
    var t := SipRound(o, SipRound(o, s.(v3 := o.xor(s.v3, m))));
    t.(v0 := o.xor(t.v0, m))
  }

  function Compressor<W>(o: WordOps<W>): (State<W>, W) -> State<W> {
    (s: State<W>, m: W) => Compress(o, s, m)
  }

  /** Message words absorbed one after another by `c`. */
  function Absorb<S, W>(c: (S, W) -> S, s: S, ws: seq<W>): S {
    if ws == [] then s else c(Absorb(c, s, ws[..|ws| - 1]), ws[|ws| - 1])
  }

  function Block(p: seq<byte>, i: nat): (b: seq<byte>)
    requires 8 * i + 8 <= |p|
    ensures |b| == 8
  {
    p[8 * i..8 * i + 8]
  }

  /** The little-endian words of a byte string of whole blocks. */
  function Words<W>(o: WordOps<W>, p: seq<byte>): (ws: seq<W>)
    ensures |ws| == |p| / 8
    ensures forall i {:trigger ws[i]} :: 0 <= i < |ws| ==> ws[i] == Word(o, Block(p, i))
  {
    seq(|p| / 8, i requires 0 <= i < |p| / 8 => Word(o, Block(p, i)))
  }

  function Rounds<W>(o: WordOps<W>, s: State<W>, n: nat): State<W> {
    if n == 0 then s else SipRound(o, Rounds(o, s, n - 1))
  }

  /** d = 4: finalization. */
  function Finish<W>(o: WordOps<W>, s: State<W>): W {
    var t := Rounds(o, s.(v2 := o.xor(s.v2, o.literal(0xff))), 4);
    o.xor(o.xor(o.xor(t.v0, t.v1), t.v2), t.v3)
  }

  /** The message padded with zeros to seven mod eight and then with its length mod 256. */
  function Padded(msg: seq<byte>): (p: seq<byte>)
    ensures |p| == 8 * (|msg| / 8 + 1)
  {
    msg + Zeros(7 - |msg| % 8) + [(|msg| % 0x100) as byte]
  }

  function Hash<W>(o: WordOps<W>, key: seq<byte>, msg: seq<byte>): W
    requires |key| == 16
  {
    Finish(o, Absorb(Compressor(o), Initial(o, key), Words(o, Padded(msg))))
  }

  // ---- The two implementations ----

  /** The SIPROUND macro, statement by statement. */
  method SipRoundStep<W>(o: WordOps<W>, s: State<W>) returns (t: State<W>)
    ensures t == SipRound(o, s)
  {
    var v0, v1, v2, v3 := s.v0, s.v1, s.v2, s.v3;
    v0 := o.add(v0, v1);
    v1 := o.rotl(v1, 13);
    v1 := o.xor(v1, v0);
    v0 := o.rotl(v0, 32);
    v2 := o.add(v2, v3);
    v3 := o.rotl(v3, 16);
    v3 := o.xor(v3, v2);
    v0 := o.add(v0, v3);
    v3 := o.rotl(v3, 21);
    v3 := o.xor(v3, v0);
    v2 := o.add(v2, v1);
    v1 := o.rotl(v1, 17);
    v1 := o.xor(v1, v2);
    v2 := o.rotl(v2, 32);
    t := State(v0, v1, v2, v3);
  }

  /** One message word: xor into v3, two SIPROUNDs, xor into v0. */
  method CompressStep<W>(o: WordOps<W>, ghost c: (State<W>, W) -> State<W>, s: State<W>, m: W) returns (t: State<W>)
    requires c == Compressor(o)
    ensures t == c(s, m)
  {
    t := s.(v3 := o.xor(s.v3, m));
    t := SipRoundStep(o, t);
    t := SipRoundStep(o, t);
    t := t.(v0 := o.xor(t.v0, m));
  }

  /** The four constants, with the two halves of the key xored in. */
  method KeySetup<W>(o: WordOps<W>, k: seq<byte>) returns (v: State<W>)
    requires |k| == 16
    ensures v == Initial(o, k)
  {
    var v0, v1 := o.literal(0x736f6d6570736575), o.literal(0x646f72616e646f6d);
    var v2, v3 := o.literal(0x6c7967656e657261), o.literal(0x7465646279746573);
    var k0, k1 := Word(o, k[..8]), Word(o, k[8..]);
    v3 := o.xor(v3, k1);
    v2 := o.xor(v2, k0);
    v1 := o.xor(v1, k1);
    v0 := o.xor(v0, k0);
    v := State(v0, v1, v2, v3);
  }

  lemma RoundsNext<W>(o: WordOps<W>, s: State<W>, n: nat)
    ensures Rounds(o, s, n + 1) == SipRound(o, Rounds(o, s, n))
  {
  }

  /** The dROUNDS loop. */
  method FourRounds<W>(o: WordOps<W>, s: State<W>) returns (v: State<W>)
    ensures v == Rounds(o, s, 4)
  {
    v := s;
    var i := 0;
    while i < 4
      invariant 0 <= i <= 4
      invariant v == Rounds(o, s, i)
    {
      RoundsNext(o, s, i);
      v := SipRoundStep(o, v);
      i := i + 1;
    }
  }

  /** Finalization, and the xor of the four words. */
  method FinishStep<W>(o: WordOps<W>, s: State<W>) returns (b: W)
    ensures b == Finish(o, s)
  {
    var v := FourRounds(o, s.(v2 := o.xor(s.v2, o.literal(0xff))));
    b := o.xor(o.xor(o.xor(v.v0, v.v1), v.v2), v.v3);
  }

  /** The fall-through switch: the last word is the length byte on top of the zero-extended tail. */
  method LastWord<W(!new)>(o: WordOps<W>, tail: seq<byte>, inlen: nat) returns (b: W)
    requires Lawful(o) && |tail| == inlen % 8
    ensures b == Word(o, tail + Zeros(7 - |tail|) + [(inlen % 0x100) as byte])
  {
    // A uint64_t shifted left by 56 keeps only its low byte.
    b := o.shl(o.widen((inlen % 0x100) as byte), 56);
    var left := |tail|;
    ghost var p := tail + Zeros(7 - left) + [(inlen % 0x100) as byte];
    if left >= 7 { b := o.or(b, o.shl(o.widen(tail[6]), 48)); } else { assert OrZero(o, b, 48); }
    if left >= 6 { b := o.or(b, o.shl(o.widen(tail[5]), 40)); } else { assert OrZero(o, b, 40); }
    if left >= 5 { b := o.or(b, o.shl(o.widen(tail[4]), 32)); } else { assert OrZero(o, b, 32); }
    if left >= 4 { b := o.or(b, o.shl(o.widen(tail[3]), 24)); } else { assert OrZero(o, b, 24); }
    if left >= 3 { b := o.or(b, o.shl(o.widen(tail[2]), 16)); } else { assert OrZero(o, b, 16); }
    if left >= 2 { b := o.or(b, o.shl(o.widen(tail[1]), 8)); } else { assert OrZero(o, b, 8); }
    if left >= 1 { b := o.or(b, o.widen(tail[0])); } else { assert OrZero(o, b, 0); }
    assert OrReverses(o, o.widen(p[0]), o.shl(o.widen(p[1]), 8), o.shl(o.widen(p[2]), 16), o.shl(o.widen(p[3]), 24),
                      o.shl(o.widen(p[4]), 32), o.shl(o.widen(p[5]), 40), o.shl(o.widen(p[6]), 48), o.shl(o.widen(p[7]), 56));
  }

  lemma AbsorbNext<S, W>(c: (S, W) -> S, s: S, ws: seq<W>, n: nat)
    requires n < |ws|
    ensures Absorb(c, s, ws[..n + 1]) == c(Absorb(c, s, ws[..n]), ws[n])
  {
    assert ws[..n + 1][..n] == ws[..n];
  }

  /** One more word of `ws` absorbed. */
  method AbsorbWord<W>(o: WordOps<W>, ghost c: (State<W>, W) -> State<W>, ghost s: State<W>, ghost ws: seq<W>, ghost n: nat,
                       before: State<W>, m: W)
      returns (v: State<W>)
    requires c == Compressor(o) && n < |ws| && m == ws[n] && before == Absorb(c, s, ws[..n])
    ensures v == Absorb(c, s, ws[..n + 1])
  {
    v := CompressStep(o, c, before, m);
    AbsorbNext(c, s, ws, n);
  }

  lemma FullBlock(msg: seq<byte>, i: nat)
    requires i < |msg| / 8
    ensures Block(Padded(msg), i) == msg[8 * i..8 * i + 8]
  {
  }

  lemma TailBlock(msg: seq<byte>)
    ensures var i := |msg| / 8;
            Block(Padded(msg), i) == msg[8 * i..] + Zeros(7 - |msg| % 8) + [(|msg| % 0x100) as byte]
  {
  }

  /** `ws` starts with the words of the whole blocks of `input`. */
  ghost predicate StartsWithBlocks<W(!new)>(o: WordOps<W>, input: seq<byte>, ws: seq<W>) {
    |ws| >= |input| / 8 && forall n: nat | n < |input| / 8 :: ws[n] == Word(o, Block(input, n))
  }

  lemma BlockWord<W(!new)>(o: WordOps<W>, input: seq<byte>, ws: seq<W>, n: nat)
    requires StartsWithBlocks(o, input, ws) && n < |input| / 8
    ensures ws[n] == Word(o, input[8 * n..8 * n + 8])
  {
  }

  lemma PaddedStartsWithBlocks<W(!new)>(o: WordOps<W>, input: seq<byte>)
    ensures StartsWithBlocks(o, input, Words(o, Padded(input)))
  {
    forall n: nat | n < |input| / 8
      ensures Words(o, Padded(input))[n] == Word(o, Block(input, n))
    {
      FullBlock(input, n);
    }
  }

  /** The loop over whole blocks, from `in` up to `end`. */
  method AbsorbWholeBlocks<W(!new)>(o: WordOps<W>, ghost c: (State<W>, W) -> State<W>, s: State<W>, input: seq<byte>,
                                    ghost ws: seq<W>)
      returns (v: State<W>)
    requires c == Compressor(o) && StartsWithBlocks(o, input, ws)
    ensures v == Absorb(c, s, ws[..|input| / 8])
  {
    v := s;
    ghost var n := 0;
    var at := 0;
    var end := |input| - |input| % 8;
    while at != end
      invariant at == 8 * n && n <= |input| / 8
      invariant v == Absorb(c, s, ws[..n])
      decreases end - at
    {
      BlockWord(o, input, ws, n);
      var m := Word(o, input[at..at + 8]);
      v := AbsorbWord(o, c, s, ws, n, v, m);
      at, n := at + 8, n + 1;
    }
  }

  /** `siphash`: the reference loop over eight-byte blocks, for inputs of any length. */
  method Reference<W(!new)>(o: WordOps<W>, input: seq<byte>, k: seq<byte>) returns (out: W)
    requires Lawful(o) && |k| == 16
    ensures out == Hash(o, k, input)
  {
    var v := KeySetup(o, k);
    v := AbsorbAll(o, Compressor(o), v, input);
    out := FinishStep(o, v);
  }

  method AbsorbAll<W(!new)>(o: WordOps<W>, ghost c: (State<W>, W) -> State<W>, s: State<W>, input: seq<byte>)
      returns (v: State<W>)
    requires Lawful(o) && c == Compressor(o)
    ensures v == Absorb(c, s, Words(o, Padded(input)))
  {
    ghost var ws := Words(o, Padded(input));
    PaddedStartsWithBlocks(o, input);
    v := AbsorbWholeBlocks(o, c, s, input, ws);
    var left := |input| % 8;
    var b := LastWord(o, input[|input| - left..], |input|);
    TailBlock(input);
    v := AbsorbWord(o, c, s, ws, |input| / 8, v, b);
    assert ws[..|input| / 8 + 1] == ws;
  }

  const REQUIRED_IN_SIZE: nat := 40

  /** A buffer the unrolled form accepts: 40 bytes, all zero from `inlen` on. */
  predicate ZeroPadded(buf: seq<byte>, inlen: nat) {
    |buf| == REQUIRED_IN_SIZE && forall i :: inlen <= i < |buf| ==> buf[i] == 0
  }

  /** The `round_data` buffer: five words, the length or-ed into the last one in use. */
  method RoundData<W(!new)>(o: WordOps<W>, buf: seq<byte>, inlen: nat) returns (roundData: seq<W>)
    requires Lawful(o) && inlen < REQUIRED_IN_SIZE && ZeroPadded(buf, inlen)
    ensures |roundData| == 5
    ensures roundData[..inlen / 8 + 1] == Words(o, Padded(buf[..inlen]))
  {
    roundData := [Word(o, Block(buf, 0)), Word(o, Block(buf, 1)), Word(o, Block(buf, 2)),
                  Word(o, Block(buf, 3)), Word(o, Block(buf, 4))];
    var last := inlen / 8;
    roundData := roundData[last := o.or(roundData[last], o.shl(o.widen(inlen as byte), 56))];
    forall i | 0 <= i <= last
      ensures roundData[i] == Word(o, Block(Padded(buf[..inlen]), i))
    {
      RoundWord(o, buf, inlen, i);
    }
  }

  /** The five hand-unrolled passes, each guarded by the number of words in use. */
  method FivePasses<W>(o: WordOps<W>, ghost c: (State<W>, W) -> State<W>, s: State<W>, roundData: seq<W>, numRounds: nat)
      returns (v: State<W>)
    requires |roundData| == 5 && 1 <= numRounds <= 5 && c == Compressor(o)
    ensures v == Absorb(c, s, roundData[..numRounds])
  {
    v := AbsorbWord(o, c, s, roundData, 0, s, roundData[0]);
    if numRounds > 1 {
      v := AbsorbWord(o, c, s, roundData, 1, v, roundData[1]);
    }
    if numRounds > 2 {
      v := AbsorbWord(o, c, s, roundData, 2, v, roundData[2]);
    }
    if numRounds > 3 {
      v := AbsorbWord(o, c, s, roundData, 3, v, roundData[3]);
    }
    if numRounds > 4 {
      v := AbsorbWord(o, c, s, roundData, 4, v, roundData[4]);
    }
  }

  /**
   `glb_siphash`: five words read up front, five guarded rounds. It refuses, with nothing
   written, an input that leaves no room for the length byte.
   */
  method Unrolled<W(!new)>(o: WordOps<W>, buf: seq<byte>, inlen: nat, k: seq<byte>) returns (out: Option<W>)
    requires Lawful(o) && |k| == 16 && ZeroPadded(buf, inlen)
    ensures out == if inlen < REQUIRED_IN_SIZE then Some(Hash(o, k, buf[..inlen])) else None
  {
    if inlen >= REQUIRED_IN_SIZE {
      return None;
    }
    var roundData := RoundData(o, buf, inlen);
    var v := KeySetup(o, k);
    v := FivePasses(o, Compressor(o), v, roundData, inlen / 8 + 1);
    var b := FinishStep(o, v);
    out := Some(b);
  }

  /** On 64-bit words, for every key and input, the two forms return the same bits unless the input is too long. */
  method BothForms(input: seq<byte>, k: seq<byte>) returns (reference: bv64, unrolled: Option<bv64>)
    requires |k| == 16
    ensures reference == Hash(WORD64, k, input)
    ensures unrolled == if |input| < REQUIRED_IN_SIZE then Some(reference) else None
  {
    Word64IsLawful();
    reference := Reference(WORD64, input, k);
    var buf := if |input| < REQUIRED_IN_SIZE then input + Zeros(REQUIRED_IN_SIZE - |input|) else input[..REQUIRED_IN_SIZE];
    assert |input| < REQUIRED_IN_SIZE ==> buf[..|input|] == input;
    unrolled := Unrolled(WORD64, buf, |input|, k);
  }

  /** Word `i` of the zero-padded buffer, with the length or-ed into the last, is word `i` of the padded message. */
  lemma RoundWord<W(!new)>(o: WordOps<W>, buf: seq<byte>, inlen: nat, i: nat)
    requires Lawful(o) && inlen < REQUIRED_IN_SIZE && ZeroPadded(buf, inlen) && i <= inlen / 8
    ensures 8 * i + 8 <= 40
    ensures Word(o, Block(Padded(buf[..inlen]), i))
         == if i == inlen / 8 then o.or(Word(o, Block(buf, i)), o.shl(o.widen(inlen as byte), 56))
            else Word(o, Block(buf, i))
  {
    var msg, chunk := buf[..inlen], Block(buf, i);
    if i < inlen / 8 {
      FullBlock(msg, i);
      SliceOfSlice(buf, 0, inlen, 8 * i, 8 * i + 8);
      assert buf[0..inlen] == msg;
    } else {
      TailChunk(buf, inlen);
      TopByte(o, chunk, inlen as byte);
    }
  }

  lemma TailChunk(buf: seq<byte>, inlen: nat)
    requires inlen < REQUIRED_IN_SIZE && ZeroPadded(buf, inlen)
    ensures var i := inlen / 8;
            Block(buf, i)[7] == 0 && Block(Padded(buf[..inlen]), i) == Block(buf, i)[7 := inlen as byte]
  {
    var i, msg := inlen / 8, buf[..inlen];
    TailBlock(msg);
    var p, q := Block(Padded(msg), i), Block(buf, i);
    forall j | 0 <= j < 8
      ensures p[j] == q[7 := inlen as byte][j]
    {
      assert q[j] == buf[8 * i + j];
      if j < inlen % 8 {
        assert p[j] == msg[8 * i + j];
      } else {
        assert q[j] == 0;
      }
    }
  }

  lemma TopByte<W(!new)>(o: WordOps<W>, chunk: seq<byte>, b: byte)
    requires Lawful(o) && |chunk| == 8 && chunk[7] == 0
    ensures Word(o, chunk[7 := b]) == o.or(Word(o, chunk), o.shl(o.widen(b), 56))
  {
    var low := o.or(o.or(o.or(o.or(o.or(o.or(
      o.widen(chunk[0]), o.shl(o.widen(chunk[1]), 8)), o.shl(o.widen(chunk[2]), 16)), o.shl(o.widen(chunk[3]), 24)),
      o.shl(o.widen(chunk[4]), 32)), o.shl(o.widen(chunk[5]), 40)), o.shl(o.widen(chunk[6]), 48));
    assert OrZero(o, low, 56);
  }
}
