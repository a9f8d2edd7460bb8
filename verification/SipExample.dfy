/**
 The example in appendix A of the SipHash paper, worked through round by round: key 00 to 0f, message 00 to
 0e. It fixes the order, the rotation amounts and the constants of the hash on 64-bit words.
 */
module SipExample {
  import opened Bytes
  import opened SipHash

  const KEY: seq<byte> := [0, 1, 2, 3, 4, 5, 6, 7, 8, 9, 10, 11, 12, 13, 14, 15]
  const MESSAGE: seq<byte> := [0, 1, 2, 3, 4, 5, 6, 7, 8, 9, 10, 11, 12, 13, 14]
  const HASH: bv64 := 0xa129ca6149be45e5

  /** Rotation is to the left, for all words and the five amounts in use. */
  lemma RotatesLeft(x: bv64)
    ensures Rotl64(x, 13) == x.RotateLeft(13) && Rotl64(x, 16) == x.RotateLeft(16) && Rotl64(x, 17) == x.RotateLeft(17)
    ensures Rotl64(x, 21) == x.RotateLeft(21) && Rotl64(x, 32) == x.RotateLeft(32)
  {
  }

  lemma Widened()
    ensures Widen64(0) == 0 && Widen64(1) == 1 && Widen64(2) == 2 && Widen64(3) == 3
    ensures Widen64(4) == 4 && Widen64(5) == 5 && Widen64(6) == 6 && Widen64(7) == 7
    ensures Widen64(8) == 8 && Widen64(9) == 9 && Widen64(10) == 10 && Widen64(11) == 11
    ensures Widen64(12) == 12 && Widen64(13) == 13 && Widen64(14) == 14 && Widen64(15) == 15
  {
  }

  lemma LowWord()
    ensures Word(WORD64, [0, 1, 2, 3, 4, 5, 6, 7]) == 0x0706050403020100
  {
    Widened();
  }

  lemma HighWord()
    ensures Word(WORD64, [8, 9, 10, 11, 12, 13, 14, 15]) == 0x0f0e0d0c0b0a0908
  {
    Widened();
  }

  /** The message is padded with its length, 15. */
  lemma PaddedBlocks()
    ensures |Padded(MESSAGE)| == 16
    ensures Block(Padded(MESSAGE), 0) == [0, 1, 2, 3, 4, 5, 6, 7]
    ensures Block(Padded(MESSAGE), 1) == [8, 9, 10, 11, 12, 13, 14, 15]
  {
    assert Padded(MESSAGE) == KEY;
  }

  lemma PaddedWords()
    ensures Words(WORD64, Padded(MESSAGE)) == [0x0706050403020100, 0x0f0e0d0c0b0a0908]
  {
    PaddedBlocks();
    LowWord();
    HighWord();
    var ws := Words(WORD64, Padded(MESSAGE));
    assert ws[0] == Word(WORD64, Block(Padded(MESSAGE), 0)) && ws[1] == Word(WORD64, Block(Padded(MESSAGE), 1));
  }

  lemma InitialState()
    ensures Initial(WORD64, KEY) == State(0x7469686173716475, 0x6b617f6d656e6665, 0x6b7f62616d677361, 0x7b6b696e727e6c7b)
  {
    assert KEY[..8] == [0, 1, 2, 3, 4, 5, 6, 7] && KEY[8..] == [8, 9, 10, 11, 12, 13, 14, 15];
    LowWord();
    HighWord();
  }

  lemma Round1()
    ensures SipRound(WORD64, State(0x7469686173716475, 0x6b617f6d656e6665, 0x6b7f62616d677361, 0x7c6d6c6a717c6d7b))
         == State(0x64668a929363847f, 0x4ed232083d9aa8dc, 0xf2f74892d8141a2e, 0x9290f9810552f4a8)
  {
  }

  lemma Round2()
    ensures SipRound(WORD64, State(0x64668a929363847f, 0x4ed232083d9aa8dc, 0xf2f74892d8141a2e, 0x9290f9810552f4a8))
         == State(0x4d07749cdd0858e0, 0x0d52f6f62a4f59a4, 0x634cb3577b01fd3d, 0xa5224d6f55c7d9c8)
  {
  }

  lemma Compressed1()
    ensures Compress(WORD64, State(0x7469686173716475, 0x6b617f6d656e6665, 0x6b7f62616d677361, 0x7b6b696e727e6c7b), 0x0706050403020100)
         == State(0x4a017198de0a59e0, 0x0d52f6f62a4f59a4, 0x634cb3577b01fd3d, 0xa5224d6f55c7d9c8)
  {
    Round1();
    Round2();
  }

  lemma Round3()
    ensures SipRound(WORD64, State(0x4a017198de0a59e0, 0x0d52f6f62a4f59a4, 0x634cb3577b01fd3d, 0xaa2c40635ecdd0c0))
         == State(0x557560fb6063d060, 0x4c8e675bd961133e, 0xbd3d002b1703a181, 0xfb9441179a4a7315)
  {
  }

  lemma Round4()
    ensures SipRound(WORD64, State(0x557560fb6063d060, 0x4c8e675bd961133e, 0xbd3d002b1703a181, 0xfb9441179a4a7315))
         == State(0x338bbea7645fb759, 0x414fc3fb98efe374, 0xccf13ea527b9f4bd, 0x5293f5da84008f82)
  {
  }

  lemma Compressed2()
    ensures Compress(WORD64, State(0x4a017198de0a59e0, 0x0d52f6f62a4f59a4, 0x634cb3577b01fd3d, 0xa5224d6f55c7d9c8), 0x0f0e0d0c0b0a0908)
         == State(0x3c85b3ab6f55be51, 0x414fc3fb98efe374, 0xccf13ea527b9f4bd, 0x5293f5da84008f82)
  {
    Round3();
    Round4();
  }

  lemma Round5()
    ensures SipRound(WORD64, State(0x3c85b3ab6f55be51, 0x414fc3fb98efe374, 0xccf13ea527b9f442, 0x5293f5da84008f82))
         == State(0xf2a55244a20e48fe, 0xac5ad16ccc3ca6e4, 0x9fe5adb0a52f393a, 0xfd41d55e88f30308)
  {
  }

  lemma Round6()
    ensures SipRound(WORD64, State(0xf2a55244a20e48fe, 0xac5ad16ccc3ca6e4, 0x9fe5adb0a52f393a, 0xfd41d55e88f30308))
         == State(0xb6c3fbdecc2ae4b4, 0x1638c86adc6b3cf0, 0x28b8b6ab62553d46, 0xc9465e86ec43eb95)
  {
  }

  lemma Round7()
    ensures SipRound(WORD64, State(0xb6c3fbdecc2ae4b4, 0x1638c86adc6b3cf0, 0x28b8b6ab62553d46, 0xc9465e86ec43eb95))
         == State(0x58101b167209a5e6, 0xf8792ae75b66e7dd, 0x1da14c3ec7f0b4f7, 0x7624ba8a41bc4ad9)
  {
  }

  lemma Round8()
    ensures SipRound(WORD64, State(0x58101b167209a5e6, 0xf8792ae75b66e7dd, 0x1da14c3ec7f0b4f7, 0x7624ba8a41bc4ad9))
         == State(0xf6bcd53893fecff1, 0x54b9964c7ea0d937, 0x1b38329c099bb55a, 0x1814bb89ad7be679)
  {
  }

  lemma FinalRounds()
    ensures Rounds(WORD64, State(0x3c85b3ab6f55be51, 0x414fc3fb98efe374, 0xccf13ea527b9f442, 0x5293f5da84008f82), 4)
         == State(0xf6bcd53893fecff1, 0x54b9964c7ea0d937, 0x1b38329c099bb55a, 0x1814bb89ad7be679)
  {
    var s := State(0x3c85b3ab6f55be51, 0x414fc3fb98efe374, 0xccf13ea527b9f442, 0x5293f5da84008f82);
    Round5();
    Round6();
    Round7();
    Round8();
    assert Rounds(WORD64, s, 1) == SipRound(WORD64, s);
    RoundsNext(WORD64, s, 1);
    RoundsNext(WORD64, s, 2);
    RoundsNext(WORD64, s, 3);
  }

  lemma Finished()
    ensures Finish(WORD64, State(0x3c85b3ab6f55be51, 0x414fc3fb98efe374, 0xccf13ea527b9f4bd, 0x5293f5da84008f82)) == HASH
  {
    FinalRounds();
  }

  lemma AbsorbTwo<S, W>(c: (S, W) -> S, s: S, a: W, b: W)
    ensures Absorb(c, s, [a, b]) == c(c(s, a), b)
  {
    AbsorbNext(c, s, [a, b], 0);
    AbsorbNext(c, s, [a, b], 1);
    assert [a, b][..2] == [a, b];
  }

  lemma AbsorbedWords()
    ensures Absorb(Compressor(WORD64), State(0x7469686173716475, 0x6b617f6d656e6665, 0x6b7f62616d677361, 0x7b6b696e727e6c7b),
                   [0x0706050403020100, 0x0f0e0d0c0b0a0908])
         == State(0x3c85b3ab6f55be51, 0x414fc3fb98efe374, 0xccf13ea527b9f4bd, 0x5293f5da84008f82)
  {
    AbsorbTwo(Compressor(WORD64), State(0x7469686173716475, 0x6b617f6d656e6665, 0x6b7f62616d677361, 0x7b6b696e727e6c7b),
              0x0706050403020100, 0x0f0e0d0c0b0a0908);
    Compressed1();
    Compressed2();
  }

  lemma Absorbed()
    ensures Absorb(Compressor(WORD64), Initial(WORD64, KEY), Words(WORD64, Padded(MESSAGE)))
         == State(0x3c85b3ab6f55be51, 0x414fc3fb98efe374, 0xccf13ea527b9f4bd, 0x5293f5da84008f82)
  {
    InitialState();
    PaddedWords();
    AbsorbedWords();
  }

  /** The hash of the paper's message under the paper's key is the paper's value. */
  lemma PaperExample()
    ensures Hash(WORD64, KEY, MESSAGE) == HASH
  {
    Absorbed();
    Finished();
  }

  /** So that is what both forms return. */
  method BothReturnPaperValue() returns (reference: bv64, unrolled: Option<bv64>)
    ensures reference == HASH && unrolled == Some(HASH)
  {
    PaperExample();
    reference, unrolled := BothForms(MESSAGE, KEY);
  }
}
