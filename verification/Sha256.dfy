/** SHA-256 of FIPS 180-4, over messages of any length. */
module Sha256 {
  import opened Arithmetic
  import opened Primes
  import opened Words

  type Hash = h: seq<Word> | |h| == 8 witness seq(8, _ => 0)
  type Block = b: seq<Byte> | |b| == 64 witness seq(64, _ => 0)

  const K: seq<Word> :=
    [0x428a2f98, 0x71374491, 0xb5c0fbcf, 0xe9b5dba5, 0x3956c25b, 0x59f111f1, 0x923f82a4, 0xab1c5ed5] +
    [0xd807aa98, 0x12835b01, 0x243185be, 0x550c7dc3, 0x72be5d74, 0x80deb1fe, 0x9bdc06a7, 0xc19bf174] +
    [0xe49b69c1, 0xefbe4786, 0x0fc19dc6, 0x240ca1cc, 0x2de92c6f, 0x4a7484aa, 0x5cb0a9dc, 0x76f988da] +
    [0x983e5152, 0xa831c66d, 0xb00327c8, 0xbf597fc7, 0xc6e00bf3, 0xd5a79147, 0x06ca6351, 0x14292967] +
    [0x27b70a85, 0x2e1b2138, 0x4d2c6dfc, 0x53380d13, 0x650a7354, 0x766a0abb, 0x81c2c92e, 0x92722c85] +
    [0xa2bfe8a1, 0xa81a664b, 0xc24b8b70, 0xc76c51a3, 0xd192e819, 0xd6990624, 0xf40e3585, 0x106aa070] +
    [0x19a4c116, 0x1e376c08, 0x2748774c, 0x34b0bcb5, 0x391c0cb3, 0x4ed8aa4a, 0x5b9cca4f, 0x682e6ff3] +
    [0x748f82ee, 0x78a5636f, 0x84c87814, 0x8cc70208, 0x90befffa, 0xa4506ceb, 0xbef9a3f7, 0xc67178f2]

  const HASH_INIT: Hash := [
    0x6a09e667, 0xbb67ae85, 0x3c6ef372, 0xa54ff53a, 0x510e527f, 0x9b05688c, 0x1f83d9ab, 0x5be0cd19]

  const OP_TABLE: seq<nat> := [2, 13, 22, 6, 11, 25, 7, 18, 3, 17, 19, 10]

  // ---------- The constants of sections 4.2.2 and 5.3.3 ----------

  /** The integer part of the cube root of a number below 343. */
  function CubeFloor(p: nat): nat
  {
    if p < 8 then 1 else if p < 27 then 2 else if p < 64 then 3 else if p < 125 then 4 else if p < 216 then 5 else 6
  }

  function SquareFloor(p: nat): nat { if p < 4 then 1 else if p < 9 then 2 else if p < 16 then 3 else 4 }

  /** `k` is the first 32 bits of the fractional part of the cube root of `p`. */
  predicate CubeRootBits(p: nat, k: nat)
  {
    var x := CubeFloor(p) * 0x1_0000_0000 + k;
    x * x * x <= p * 0x1_0000_0000_0000_0000_0000_0000 < (x + 1) * (x + 1) * (x + 1)
  }

  predicate SquareRootBits(p: nat, h: nat)
  {
    var x := SquareFloor(p) * 0x1_0000_0000 + h;
    x * x <= p * 0x1_0000_0000_0000_0000 < (x + 1) * (x + 1)
  }

  lemma Constants0()
    ensures forall i | 0 <= i < 16 :: CubeRootBits(PRIMES[i], K[i])
  {
  }

  lemma Constants1()
    ensures forall i | 16 <= i < 32 :: CubeRootBits(PRIMES[i], K[i])
  {
  }

  lemma Constants2()
    ensures forall i | 32 <= i < 48 :: CubeRootBits(PRIMES[i], K[i])
  {
  }

  lemma Constants3()
    ensures forall i | 48 <= i < 64 :: CubeRootBits(PRIMES[i], K[i])
  {
  }

  lemma InitialHash()
    ensures forall i | 0 <= i < 8 :: SquareRootBits(PRIMES[i], HASH_INIT[i])
  {
  }

  /** The initial hash value and the round constants are the root bits of the
      first 8 and the first 64 primes. */
  lemma Constants()
    ensures forall i | 0 <= i < 8 :: SquareRootBits(PRIMES[i], HASH_INIT[i])
    ensures forall i | 0 <= i < 64 :: CubeRootBits(PRIMES[i], K[i])
    ensures |PRIMES| == |K| == 64 && FirstPrimes(PRIMES)
  {
    AreFirstPrimes();
    InitialHash();
    Constants0();
    Constants1();
    Constants2();
    Constants3();
  }

  /** A number written in `n` bytes is read back. */
  function FromBigEndian(b: seq<Byte>): nat
  {
    if b == [] then 0 else 256 * FromBigEndian(b[..|b| - 1]) + b[|b| - 1]
  }

  // ---------- Functions of section 4.1.2 ----------

  function Ch(x: Word, y: Word, z: Word): Word { XorW(AndW(x, y), AndW(NotW(x), z)) }

  /** As the code groups it. */
  function Maj(x: Word, y: Word, z: Word): Word { XorW(AndW(x, y), XorW(AndW(x, z), AndW(y, z))) }

  /** As the standard writes it. */
  function MajSpec(x: Word, y: Word, z: Word): Word { XorW(XorW(AndW(x, y), AndW(x, z)), AndW(y, z)) }

  lemma MajIsMajSpec(x: Word, y: Word, z: Word)
    ensures Maj(x, y, z) == MajSpec(x, y, z)
  {
    XorAssociates(AndW(x, y), AndW(x, z), AndW(y, z));
  }

  /** `sigma`: row `i` of the table; `op == 0` shifts instead of the last rotation. */
  function Sigma(x: Word, i: nat, op: nat): Word
    requires i < 4
  {
    var last := if op == 0 then ShiftRight(x, OP_TABLE[3 * i + 2]) else RotateRight(x, OP_TABLE[3 * i + 2]);
    XorW(XorW(RotateRight(x, OP_TABLE[3 * i]), RotateRight(x, OP_TABLE[3 * i + 1])), last)
  }

  function Rotations(x: Word, a: nat, b: nat, last: Word): Word
    requires a <= 32 && b <= 32
  {
    XorW(XorW(RotateRight(x, a), RotateRight(x, b)), last)
  }

  function BigSigma0(x: Word): Word { Rotations(x, 2, 13, RotateRight(x, 22)) }
  function BigSigma1(x: Word): Word { Rotations(x, 6, 11, RotateRight(x, 25)) }
  function SmallSigma0(x: Word): Word { Rotations(x, 7, 18, ShiftRight(x, 3)) }
  function SmallSigma1(x: Word): Word { Rotations(x, 17, 19, ShiftRight(x, 10)) }

  /** The table rows are the four functions of the standard. */
  lemma SigmaTable(x: Word)
    ensures Sigma(x, 0, 1) == BigSigma0(x) && Sigma(x, 1, 1) == BigSigma1(x)
    ensures Sigma(x, 2, 0) == SmallSigma0(x) && Sigma(x, 3, 0) == SmallSigma1(x)
  {
  }

  // ---------- Message schedule and rounds (section 6.2.2) ----------

  /** Word `t` of the message schedule. */
  function W(block: Block, t: nat): Word
  {
    if t < 16 then BeWord(block, t)
    else Add(Add(Add(SmallSigma1(W(block, t - 2)), W(block, t - 7)), SmallSigma0(W(block, t - 15))), W(block, t - 16))
  }

  lemma NextW(block: Block, t: nat, t16: Word, t15: Word, t7: Word, t2: Word)
    requires t >= 16
    requires t16 == W(block, t - 16) && t15 == W(block, t - 15) && t7 == W(block, t - 7) && t2 == W(block, t - 2)
    ensures W(block, t) == Add(Add(Add(SmallSigma1(t2), t7), SmallSigma0(t15)), t16)
  {
  }

  method ToBeU32s(block: Block) returns (out: array<Word>)
    ensures fresh(out) && out.Length == 16 && forall t | 0 <= t < 16 :: out[t] == BeWord(block, t)
  {
    out := new Word[16](_ => 0);
    for i := 0 to 16
      invariant forall t | 0 <= t < i :: out[t] == BeWord(block, t)
    {
      out[i] := BeWord(block, i);
    }
  }

  method ScheduleOf(block: Block) returns (s: array<Word>)
    ensures fresh(s) && s.Length == 64 && forall t | 0 <= t < 64 :: s[t] == W(block, t)
  {
    var b := ToBeU32s(block);
    s := new Word[64](_ => 0);
    for i := 0 to 64
      invariant forall t | 0 <= t < 16 :: b[t] == BeWord(block, t)
      invariant forall t | 0 <= t < i :: s[t] == W(block, t)
    {
      if i < 16 {
        s[i] := b[i];
      } else {
        s[i] := ScheduleWord(s, i, block);
      }
    }
  }

  method ScheduleWord(s: array<Word>, i: nat, ghost block: Block) returns (w: Word)
    requires 16 <= i < s.Length && forall t | 0 <= t < i :: s[t] == W(block, t)
    ensures w == W(block, i)
  {
    var t16, t15, t7, t2 := s[i - 16], s[i - 15], s[i - 7], s[i - 2];
    var s1 := Sigma(t2, 3, 0);
    var s0 := Sigma(t15, 2, 0);
    SigmaTable(t2);
    SigmaTable(t15);
    NextW(block, i, t16, t15, t7, t2);
    w := Add(Add(Add(s1, t7), s0), t16);
  }

  /** One round on the working variables a to h. */
  function Round(v: Hash, k: Word, w: Word): Hash
  {
    var t1 := T1(v, k, w);
    [Add(t1, T2(v)), v[0], v[1], v[2], Add(v[3], t1), v[4], v[5], v[6]]
  }

  function T1(v: Hash, k: Word, w: Word): Word
  {
    Add(Add(Add(Add(v[7], BigSigma1(v[4])), Ch(v[4], v[5], v[6])), k), w)
  }

  function T2(v: Hash): Word { Add(BigSigma0(v[0]), MajSpec(v[0], v[1], v[2])) }

  function RoundsUpTo(block: Block, v: Hash, n: nat): Hash
    requires n <= |K|
  {
    if n == 0 then v else Round(RoundsUpTo(block, v, n - 1), K[n - 1], W(block, n - 1))
  }

  function Sum8(v: Hash, h: Hash): Hash { seq(8, i requires 0 <= i < 8 => Add(v[i], h[i])) }

  /** All 64 rounds. */
  function AllRounds(block: Block, h: Hash): Hash { RoundsUpTo(block, h, |K|) }

  /** What follows holds for any shuffling of the working variables. */
  type Shuffling = (Block, Hash) -> Hash

  ghost predicate Computes(f: Shuffling)
  {
    forall b: Block, h: Hash {:trigger AllRounds(b, h)} :: f(b, h) == AllRounds(b, h)
  }

  /** What the compression function does to one block. */
  function Compressed(f: Shuffling, block: Block, h: Hash): Hash { Sum8(f(block, h), h) }

  /** The loop body of `shuffle`, in place. */
  method ShuffleOnce(hash: array<Word>, k: Word, w: Word)
    requires hash.Length == 8
    modifies hash
    ensures hash[..] == Round(old(hash[..]), k, w)
  {
    var a0, b0, c0, d0, e0, f0, g0, h0 := hash[0], hash[1], hash[2], hash[3], hash[4], hash[5], hash[6], hash[7];
    SigmaTable(e0);
    SigmaTable(a0);
    MajIsMajSpec(a0, b0, c0);
    var t1 := Add(Add(Add(Add(h0, Sigma(e0, 1, 1)), Ch(e0, f0, g0)), k), w);
    var t2 := Add(Sigma(a0, 0, 1), Maj(a0, b0, c0));
    hash[0], hash[1], hash[2], hash[3] := Add(t1, t2), a0, b0, c0;
    hash[4], hash[5], hash[6], hash[7] := Add(d0, t1), e0, f0, g0;
  }

  method Shuffle(ws: array<Word>, hash: array<Word>, ghost block: Block)
    requires hash.Length == 8 && ws != hash && ws.Length == 64 && forall t | 0 <= t < 64 :: ws[t] == W(block, t)
    modifies hash
    ensures hash[..] == AllRounds(block, old(hash[..]))
  {
    for i := 0 to |K|
      invariant hash[..] == RoundsUpTo(block, old(hash[..]), i)
    {
      ShuffleOnce(hash, K[i], ws[i]);
    }
  }

  method AddInto(hash: array<Word>, hIn: Hash)
    requires hash.Length == 8
    modifies hash
    ensures hash[..] == Sum8(old(hash[..]), hIn)
  {
    for i := 0 to 8
      invariant forall k | 0 <= k < 8 :: hash[k] == if k < i then Add(old(hash[k]), hIn[k]) else old(hash[k])
    {
      hash[i] := Add(hash[i], hIn[i]);
    }
  }

  lemma Computed(f: Shuffling, block: Block, h: Hash)
    requires Computes(f)
    ensures f(block, h) == AllRounds(block, h)
  {
  }

  method ScheduleAndShuffle(block: Block, hash: array<Word>, ghost f: Shuffling)
    requires hash.Length == 8 && Computes(f)
    modifies hash
    ensures hash[..] == f(block, old(hash[..]))
  {
    ghost var before := hash[..];
    var s := ScheduleOf(block);
    Shuffle(s, hash, block);
    Computed(f, block, before);
  }

  method Compress(block: Block, hash: array<Word>, ghost f: Shuffling)
    requires hash.Length == 8 && Computes(f)
    modifies hash
    ensures hash[..] == Compressed(f, block, old(hash[..]))
  {
    var hIn := hash[..];
    ScheduleAndShuffle(block, hash, f);
    AddInto(hash, hIn);
  }

  // ---------- Padding (section 5.1.1) ----------

  function Zeros(n: nat): seq<Byte> { seq(n, _ => 0) }

  /** The last `n` bytes of `x`, most significant first. */
  function BigEndian(x: nat, n: nat): (b: seq<Byte>)
    ensures |b| == n
  {
    if n == 0 then [] else BigEndian(x / 256, n - 1) + [x % 256]
  }

  lemma {:induction false} BigEndianReads(x: nat, n: nat)
    requires x < Pow2(8 * n)
    ensures FromBigEndian(BigEndian(x, n)) == x
    decreases n
  {
    if n > 0 {
      Pow2Sum(8, 8 * (n - 1));
      Pow2Words();
      BigEndianReads(x / 256, n - 1);
      assert BigEndian(x, n)[..n - 1] == BigEndian(x / 256, n - 1);
    }
  }

  /** The last 8 bytes of the padding are the message's length in bits. */
  lemma PaddedLength(msg: seq<Byte>)
    requires |msg| < 0x1fff_ffff_ffff_ffff
    ensures var p := Padded(msg); FromBigEndian(p[|p| - 8..]) == 8 * |msg|
  {
    var eight := LENGTH_SIZE;
    Pow2Sum(32, 32);
    Pow2Words();
    BigEndianReads(8 * |msg|, eight);
    var p := Padded(msg);
    assert p[|p| - 8..] == BigEndian(8 * |msg|, eight);
  }

  function ZeroCount(length: nat): nat { (55 - length) % 64 }

  /** The message, a one bit, the fewest zeros, and the length in bits. */
  function Padded(msg: seq<Byte>): (p: seq<Byte>)
    ensures |p| % 64 == 0
  {
    PadWith(msg, BigEndian(8 * |msg|, LENGTH_SIZE))
  }

  const LENGTH_SIZE := 8

  function PadWith(msg: seq<Byte>, length: seq<Byte>): (p: seq<Byte>)
    requires |length| == 8
    ensures |p| % 64 == 0
  {
    msg + [0x80] + Zeros(ZeroCount(|msg|)) + length
  }

  /** No fewer zero bytes fill the last block. */
  lemma FewestZeros(length: nat, k: nat)
    requires (length + 1 + k + 8) % 64 == 0
    ensures k >= ZeroCount(length)
  {
  }

  // ---------- Hashing ----------

  /** The fold of section 6.2.2 over the blocks of `bytes`. */
  function Fold(f: Shuffling, h: Hash, bytes: seq<Byte>): Hash
    requires |bytes| % 64 == 0
    decreases |bytes|
  {
    if bytes == [] then h
    else var n := |bytes| - 64; Compressed(f, bytes[n..], Fold(f, h, bytes[..n]))
  }

  /** One more block. */
  function Extended(bytes: seq<Byte>, block: Block): (r: seq<Byte>)
    requires |bytes| % 64 == 0
    ensures |r| % 64 == 0
  {
    bytes + block
  }

  lemma FoldPush(f: Shuffling, h: Hash, bytes: seq<Byte>, block: Block)
    requires |bytes| % 64 == 0
    ensures Fold(f, h, Extended(bytes, block)) == Compressed(f, block, Fold(f, h, bytes))
  {
    var all := Extended(bytes, block);
    assert all[..|bytes|] == bytes && all[|bytes|..] == block;
  }

  method CompressNext(block: Block, hash: array<Word>, ghost f: Shuffling, ghost h0: Hash, ghost bytes: seq<Byte>)
    requires Computes(f) && hash.Length == 8 && |bytes| % 64 == 0 && hash[..] == Fold(f, h0, bytes)
    modifies hash
    ensures hash[..] == Fold(f, h0, Extended(bytes, block))
  {
    FoldPush(f, h0, bytes, block);
    Compress(block, hash, f);
  }

  method CompressTwo(first: Block, second: Block, hash: array<Word>,
                     ghost f: Shuffling, ghost h0: Hash, ghost bytes: seq<Byte>)
    requires Computes(f) && hash.Length == 8 && |bytes| % 64 == 0 && hash[..] == Fold(f, h0, bytes)
    modifies hash
    ensures hash[..] == Fold(f, h0, Extended(Extended(bytes, first), second))
  {
    CompressNext(first, hash, f, h0, bytes);
    CompressNext(second, hash, f, h0, Extended(bytes, first));
  }

  /** The loop over the full blocks. */
  method HashBlocks(msg: seq<Byte>, h: array<Word>, ghost f: Shuffling, ghost h0: Hash)
    requires Computes(f) && h.Length == 8 && h[..] == h0
    modifies h
    ensures h[..] == Fold(f, h0, msg[..FullBlocks(|msg|)])
  {
    var blocks := |msg| / 64;
    for i := 0 to blocks
      invariant 64 * i <= |msg| && h[..] == Fold(f, h0, msg[..64 * i])
    {
      BlockStart(i, |msg|);
      HashBlock(msg, 64 * i, h, f, h0);
    }
  }

  lemma BlockStart(i: nat, length: nat)
    requires i < length / 64
    ensures 64 * i % 64 == 0 && 64 * i + 64 <= length
  {
  }

  method HashBlock(msg: seq<Byte>, start: nat, h: array<Word>, ghost f: Shuffling, ghost h0: Hash)
    requires Computes(f) && h.Length == 8
    requires start + 64 <= |msg| && start % 64 == 0 && h[..] == Fold(f, h0, msg[..start])
    modifies h
    ensures h[..] == Fold(f, h0, msg[..start + 64])
  {
    var block: Block := msg[start..start + 64];
    CompressNext(block, h, f, h0, msg[..start]);
    assert msg[..start + 64] == msg[..start] + block;
  }

  /** The padded rest: one block when the length fits behind it, else two. */
  method HashRest(msg: seq<Byte>, n: nat, length: seq<Byte>, h: array<Word>, ghost f: Shuffling, ghost h0: Hash)
    requires Computes(f) && h.Length == 8 && |length| == 8
    requires n <= |msg| && |msg| - n < 64 && n % 64 == 0 && h[..] == Fold(f, h0, msg[..n])
    modifies h
    ensures h[..] == Fold(f, h0, PadWith(msg, length))
  {
    var lastBlock := LastBlock(msg[n..]);
    ghost var front := msg[..n];
    if |msg| - n < 56 {
      OneBlock(msg, n, length);
      var last: Block := lastBlock[..56] + length;
      CompressNext(last, h, f, h0, front);
    } else {
      TwoBlocks(msg, n, length);
      CompressTwo(lastBlock, Zeros(56) + length, h, f, h0, front);
    }
  }

  /** The rest of the message and a 1 bit, filled up with zeros. */
  function LastBlock(rest: seq<Byte>): Block
    requires |rest| < 64
  {
    rest + [0x80] + Zeros(63 - |rest|)
  }

  /** `hash`, before the words are serialised. */
  method HashWords(msg: seq<Byte>, init: Hash, ghost f: Shuffling) returns (h: array<Word>)
    requires Computes(f)
    ensures fresh(h) && h.Length == 8 && h[..] == Fold(f, init, Padded(msg))
  {
    h := new Word[8](i requires 0 <= i < 8 => init[i]);
    assert h[..] == init;
    var n := FullBlocks(|msg|);
    HashBlocks(msg, h, f, init);
    HashRest(msg, n, BigEndian(8 * |msg|, LENGTH_SIZE), h, f, init);
  }

  /** The length of the blocks that the message fills. */
  function FullBlocks(length: nat): (n: nat)
    ensures n <= length < n + 64 && n % 64 == 0
  {
    length / 64 * 64
  }

  lemma OneBlock(msg: seq<Byte>, n: nat, length: seq<Byte>)
    requires n <= |msg| && |msg| - n < 56 && n % 64 == 0 && |length| == 8
    ensures PadWith(msg, length) == msg[..n] + (LastBlock(msg[n..])[..56] + length)
  {
    var r := |msg| - n;
    assert ZeroCount(|msg|) == 55 - r;
    assert (msg[n..] + [0x80] + Zeros(63 - r))[..56] == msg[n..] + [0x80] + Zeros(55 - r);
    assert msg == msg[..n] + msg[n..];
  }

  lemma TwoBlocks(msg: seq<Byte>, n: nat, length: seq<Byte>)
    requires n <= |msg| && 56 <= |msg| - n < 64 && n % 64 == 0 && |length| == 8
    ensures PadWith(msg, length) == msg[..n] + LastBlock(msg[n..]) + (Zeros(56) + length)
  {
    var r := |msg| - n;
    assert ZeroCount(|msg|) == 63 - r + 56;
    assert Zeros(63 - r + 56) == Zeros(63 - r) + Zeros(56);
    assert msg == msg[..n] + msg[n..];
  }

  method U32sToBeBytes(state: array<Word>) returns (out: seq<Byte>)
    requires state.Length == 8
    ensures out == BeBytes(state[..])
  {
    var a := new Byte[32](_ => 0);
    for i := 0 to 8
      invariant forall p | 0 <= p < 4 * i :: a[p] == ByteOf(state[p / 4], 3 - p % 4)
    {
      for j := 0 to 4
        invariant forall p | 0 <= p < 4 * i + j :: a[p] == ByteOf(state[p / 4], 3 - p % 4)
      {
        a[i * 4 + j] := ByteOf(state[i], 3 - j);
      }
    }
    out := a[..];
  }

  /** `hash`: the digest of the padded message, for every message whose length in
      bits fits 64 bits. */
  method HashOf(msg: seq<Byte>) returns (digest: seq<Byte>)
    requires |msg| < 0x1fff_ffff_ffff_ffff
    ensures digest == BeBytes(Fold(AllRounds, HASH_INIT, Padded(msg)))
  {
    var h := HashWords(msg, HASH_INIT, AllRounds);
    digest := U32sToBeBytes(h);
  }
}
