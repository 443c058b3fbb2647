/** What the parts of the model compute, in the words of FIPS 180-4: bits of words,
    sums modulo 2^32, and bytes in big-endian order. */
module Sha256Standard {
  import opened Arithmetic
  import opened Words
  import opened WordBits
  import opened Sha256

  // ---------- Section 4.1.2, bit by bit ----------

  /** `Ch` chooses: a bit of `y` where the bit of `x` is 1, and of `z` elsewhere. */
  lemma ChBit(x: Word, y: Word, z: Word, j: nat)
    requires j < 32
    ensures Bit(Ch(x, y, z), j) == if Bit(x, j) == 1 then Bit(y, j) else Bit(z, j)
  {
    WordBit(x, y, j);
    NotBit(x, j);
    WordBit(NotW(x), z, j);
    WordBit(AndW(x, y), AndW(NotW(x), z), j);
  }

  /** `Maj` is the majority of three bits. */
  lemma MajBit(x: Word, y: Word, z: Word, j: nat)
    ensures Bit(Maj(x, y, z), j) == if Bit(x, j) + Bit(y, j) + Bit(z, j) >= 2 then 1 else 0
    ensures Bit(MajSpec(x, y, z), j) == if Bit(x, j) + Bit(y, j) + Bit(z, j) >= 2 then 1 else 0
  {
    WordBit(x, y, j);
    WordBit(x, z, j);
    WordBit(y, z, j);
    WordBit(AndW(x, y), AndW(x, z), j);
    WordBit(XorW(AndW(x, y), AndW(x, z)), AndW(y, z), j);
    MajIsMajSpec(x, y, z);
  }

  lemma ThreeXors(x: Word, y: Word, z: Word, j: nat)
    ensures Bit(XorW(XorW(x, y), z), j) == (Bit(x, j) + Bit(y, j) + Bit(z, j)) % 2
  {
    WordBit(x, y, j);
    WordBit(XorW(x, y), z, j);
    Parities(Bit(x, j), Bit(y, j), Bit(z, j));
  }

  lemma Parities(a: nat, b: nat, c: nat)
    ensures ((a + b) % 2 + c) % 2 == (a + b + c) % 2
  {
  }

  lemma BigSigmaBits(x: Word, j: nat)
    requires j < 32
    ensures Bit(BigSigma0(x), j) == (Bit(x, (j + 2) % 32) + Bit(x, (j + 13) % 32) + Bit(x, (j + 22) % 32)) % 2
    ensures Bit(BigSigma1(x), j) == (Bit(x, (j + 6) % 32) + Bit(x, (j + 11) % 32) + Bit(x, (j + 25) % 32)) % 2
  {
    SigmaBit(x, 2, 13, RotateRight(x, 22), j);
    SigmaBit(x, 6, 11, RotateRight(x, 25), j);
    RotateRightBit(x, 22, j);
    RotateRightBit(x, 25, j);
  }

  lemma SmallSigmaBits(x: Word, j: nat)
    requires j < 32
    ensures Bit(SmallSigma0(x), j) == (Bit(x, (j + 7) % 32) + Bit(x, (j + 18) % 32) + Bit(x, j + 3)) % 2
    ensures Bit(SmallSigma1(x), j) == (Bit(x, (j + 17) % 32) + Bit(x, (j + 19) % 32) + Bit(x, j + 10)) % 2
  {
    SigmaBit(x, 7, 18, ShiftRight(x, 3), j);
    SigmaBit(x, 17, 19, ShiftRight(x, 10), j);
    ShiftRightBit(x, 3, j);
    ShiftRightBit(x, 10, j);
  }

  lemma SigmaBit(x: Word, a: nat, b: nat, last: Word, j: nat)
    requires a <= 32 && b <= 32 && j < 32
    ensures Bit(Rotations(x, a, b, last), j) == (Bit(x, (j + a) % 32) + Bit(x, (j + b) % 32) + Bit(last, j)) % 2
  {
    ThreeXors(RotateRight(x, a), RotateRight(x, b), last, j);
    RotateRightBit(x, a, j);
    RotateRightBit(x, b, j);
  }

  // ---------- Section 6.2.2 ----------

  /** The message schedule: 16 words of the block in big-endian order, and then sums. */
  lemma ScheduleStandard(block: Block, t: nat)
    ensures t < 16 ==> W(block, t) == FromBigEndian(block[4 * t..4 * t + 4])
    ensures t >= 16 ==>
      W(block, t) == (SmallSigma1(W(block, t - 2)) as int + W(block, t - 7) as int
                      + SmallSigma0(W(block, t - 15)) as int + W(block, t - 16) as int) % 0x1_0000_0000
  {
    if t < 16 {
      BeWordReads(block, t);
    } else {
      FourTerms(SmallSigma1(W(block, t - 2)), W(block, t - 7), SmallSigma0(W(block, t - 15)), W(block, t - 16));
    }
  }

  lemma FourTerms(a: Word, b: Word, c: Word, d: Word)
    ensures Add(Add(Add(a, b), c), d) == (a as int + b as int + c as int + d as int) % 0x1_0000_0000
  {
    Wrapped(a as int + b as int, c);
    Wrapped(a as int + b as int + c as int, d);
  }

  lemma FiveTerms(a: Word, b: Word, c: Word, d: Word, e: Word)
    ensures Add(Add(Add(Add(a, b), c), d), e) == (a as int + b as int + c as int + d as int + e as int) % 0x1_0000_0000
  {
    FourTerms(a, b, c, d);
    Wrapped(a as int + b as int + c as int + d as int, e);
  }

  /** Wrapping a sum before adding a word changes nothing. */
  lemma Wrapped(s: nat, c: Word)
    ensures Add(s % 0x1_0000_0000, c) == (s + c as int) % 0x1_0000_0000
  {
  }

  lemma {:induction false} BeWordReads(b: seq<Byte>, i: nat)
    requires 4 * i + 4 <= |b|
    ensures BeWord(b, i) == FromBigEndian(b[4 * i..4 * i + 4])
  {
    FourBytes(b[4 * i..4 * i + 4]);
  }

  lemma FourBytes(q: seq<Byte>)
    requires |q| == 4
    ensures FromBigEndian(q) == FromBytes(q[3], q[2], q[1], q[0])
  {
    assert FromBigEndian(q[..0]) == 0;
    assert q[..1][..0] == q[..0] && q[..2][..1] == q[..1] && q[..3][..2] == q[..2];
    assert FromBigEndian(q[..1]) == q[0];
    assert FromBigEndian(q[..2]) == 256 * FromBigEndian(q[..1]) + q[1] as int;
    assert FromBigEndian(q[..3]) == 256 * FromBigEndian(q[..2]) + q[2] as int;
  }

  /** The two temporary words of a round. */
  lemma FirstTemporary(v: Hash, k: Word, w: Word)
    ensures T1(v, k, w)
      == (v[7] as int + BigSigma1(v[4]) as int + Ch(v[4], v[5], v[6]) as int + k as int + w as int) % 0x1_0000_0000
  {
    FiveTerms(v[7], BigSigma1(v[4]), Ch(v[4], v[5], v[6]), k, w);
  }

  lemma SecondTemporary(v: Hash)
    ensures T2(v) == (BigSigma0(v[0]) as int + Maj(v[0], v[1], v[2]) as int) % 0x1_0000_0000
  {
    MajIsMajSpec(v[0], v[1], v[2]);
    TwoTerms(BigSigma0(v[0]), MajSpec(v[0], v[1], v[2]));
  }

  lemma TwoTerms(a: Word, b: Word)
    ensures Add(a, b) == (a as int + b as int) % 0x1_0000_0000
  {
  }

  /** The working variables a to h after one round; `TwoTerms` says what `Add` is. */
  lemma RoundStandard(v: Hash, k: Word, w: Word, t1: Word, t2: Word)
    requires t1 == T1(v, k, w) && t2 == T2(v)
    ensures Round(v, k, w) == [Add(t1, t2), v[0], v[1], v[2], Add(v[3], t1), v[4], v[5], v[6]]
  {
  }

  /** 64 rounds, round `t` with constant and schedule word `t`. */
  lemma RoundsStandard(block: Block, h: Hash, t: nat)
    requires t < 64
    ensures |K| == 64 && AllRounds(block, h) == RoundsUpTo(block, h, 64) && RoundsUpTo(block, h, 0) == h
    ensures RoundsUpTo(block, h, t + 1) == Round(RoundsUpTo(block, h, t), K[t], W(block, t))
  {
  }

  /** The new hash is the sum, word by word, of the old one and the rounds' result. */
  lemma CompressedStandard(f: Shuffling, block: Block, h: Hash, i: nat)
    requires i < 8
    ensures Compressed(f, block, h)[i] == (f(block, h)[i] as int + h[i] as int) % 0x1_0000_0000
  {
  }

  // ---------- Sections 5.1.1 and 6.2 ----------

  /** The padded message: the message, a 1 bit, zeros, and the length in 8 bytes. */
  lemma PaddingStandard(msg: seq<Byte>)
    requires |msg| < 0x1fff_ffff_ffff_ffff
    ensures var p := Padded(msg);
      && |p| % 64 == 0 && |msg| + 9 <= |p| < |msg| + 9 + 64 && p[..|msg|] == msg && p[|msg|] == 0x80
      && (forall i | |msg| < i < |p| - 8 :: p[i] == 0) && FromBigEndian(p[|p| - 8..]) == 8 * |msg|
  {
    PaddedLength(msg);
  }

  /** The fold starts from the initial hash and takes the blocks in order. */
  lemma FoldStandard(f: Shuffling, h: Hash, bytes: seq<Byte>, block: Block)
    requires |bytes| % 64 == 0
    ensures Fold(f, h, []) == h
    ensures Fold(f, h, bytes + block) == Compressed(f, block, Fold(f, h, bytes))
  {
    FoldPush(f, h, bytes, block);
  }

  /** The digest's bytes are the hash's words in big-endian order. */
  lemma DigestReads(h: Hash, i: nat)
    requires i < 8
    ensures FromBigEndian(BeBytes(h)[4 * i..4 * i + 4]) == h[i]
  {
    var q := BeBytes(h)[4 * i..4 * i + 4];
    DigestBytes(h, i);
    FourBytes(q);
    BytesWeigh(h[i]);
  }

  lemma DigestBytes(h: Hash, i: nat)
    requires i < 8
    ensures var q := BeBytes(h)[4 * i..4 * i + 4];
      q[0] == ByteOf(h[i], 3) && q[1] == ByteOf(h[i], 2) && q[2] == ByteOf(h[i], 1) && q[3] == ByteOf(h[i], 0)
  {
    var b := BeBytes(h);
    assert b[4 * i] == ByteOf(h[i], 3) && b[4 * i + 1] == ByteOf(h[i], 2);
    assert b[4 * i + 2] == ByteOf(h[i], 1) && b[4 * i + 3] == ByteOf(h[i], 0);
  }
}
