/**
 * SHA-256 (FIPS 180-4): the hash of a message as a fold of the compression function
 * over its padded blocks, and the streaming code that must agree with it however the
 * message is cut up.
 */
module Sha256 {
  import opened Basics

  type Word = bv32

  const U32: nat := 0x1_0000_0000

  // ----- section 4: functions and constants

  function Rotr(x: Word, n: nat): Word
    requires 0 < n < 32
  {
    (x >> n) | (x << (32 - n))
  }

  /** Addition modulo 2^32. */
  function Add(x: Word, y: Word): Word {
    x + y
  }

  function Ch(x: Word, y: Word, z: Word): Word {
    (x & y) ^ (!x & z)
  }

  function Maj(x: Word, y: Word, z: Word): Word {
    (x & y) ^ (x & z) ^ (y & z)
  }

  function BigSigma0(x: Word): Word {
    Rotr(x, 2) ^ Rotr(x, 13) ^ Rotr(x, 22)
  }

  function BigSigma1(x: Word): Word {
    Rotr(x, 6) ^ Rotr(x, 11) ^ Rotr(x, 25)
  }

  function SmallSigma0(x: Word): Word {
    Rotr(x, 7) ^ Rotr(x, 18) ^ (x >> 3)
  }

  function SmallSigma1(x: Word): Word {
    Rotr(x, 17) ^ Rotr(x, 19) ^ (x >> 10)
  }

  function Bit(x: Word, i: nat): Word
    requires i < 32
  {
    (x >> i) & 1
  }

  /** Which bits of its argument make up the lowest and the highest bit of each of these functions. */
  lemma {:induction false} BigSigmaBits(x: Word)
    ensures Bit(BigSigma0(x), 0) == Bit(x, 2) ^ Bit(x, 13) ^ Bit(x, 22)
    ensures Bit(BigSigma0(x), 31) == Bit(x, 1) ^ Bit(x, 12) ^ Bit(x, 21)
    ensures Bit(BigSigma1(x), 0) == Bit(x, 6) ^ Bit(x, 11) ^ Bit(x, 25)
    ensures Bit(BigSigma1(x), 31) == Bit(x, 5) ^ Bit(x, 10) ^ Bit(x, 24)
  {
  }

  lemma {:induction false} SmallSigmaBits(x: Word)
    ensures Bit(SmallSigma0(x), 0) == Bit(x, 7) ^ Bit(x, 18) ^ Bit(x, 3)
    ensures Bit(SmallSigma0(x), 31) == Bit(x, 6) ^ Bit(x, 17)
    ensures Bit(SmallSigma1(x), 0) == Bit(x, 17) ^ Bit(x, 19) ^ Bit(x, 10)
    ensures Bit(SmallSigma1(x), 31) == Bit(x, 16) ^ Bit(x, 18)
  {
  }

  /** `Ch` chooses between two words by the bits of a third; `Maj` follows any two that agree. */
  lemma {:induction false} ChoiceAndMajority(x: Word, y: Word)
    ensures Ch(0xffff_ffff, x, y) == x && Ch(0, x, y) == y
    ensures Maj(x, x, y) == x && Maj(x, y, x) == x && Maj(y, x, x) == x
  {
  }

  function RoundConstant(t: nat): (k: nat)
    requires t < 64
    ensures k < U32
  {
    if t < 8 then [0x428a2f98, 0x71374491, 0xb5c0fbcf, 0xe9b5dba5, 0x3956c25b, 0x59f111f1, 0x923f82a4, 0xab1c5ed5][t]
    else if t < 16 then [0xd807aa98, 0x12835b01, 0x243185be, 0x550c7dc3, 0x72be5d74, 0x80deb1fe, 0x9bdc06a7, 0xc19bf174][t - 8]
    else if t < 24 then [0xe49b69c1, 0xefbe4786, 0x0fc19dc6, 0x240ca1cc, 0x2de92c6f, 0x4a7484aa, 0x5cb0a9dc, 0x76f988da][t - 16]
    else if t < 32 then [0x983e5152, 0xa831c66d, 0xb00327c8, 0xbf597fc7, 0xc6e00bf3, 0xd5a79147, 0x06ca6351, 0x14292967][t - 24]
    else if t < 40 then [0x27b70a85, 0x2e1b2138, 0x4d2c6dfc, 0x53380d13, 0x650a7354, 0x766a0abb, 0x81c2c92e, 0x92722c85][t - 32]
    else if t < 48 then [0xa2bfe8a1, 0xa81a664b, 0xc24b8b70, 0xc76c51a3, 0xd192e819, 0xd6990624, 0xf40e3585, 0x106aa070][t - 40]
    else if t < 56 then [0x19a4c116, 0x1e376c08, 0x2748774c, 0x34b0bcb5, 0x391c0cb3, 0x4ed8aa4a, 0x5b9cca4f, 0x682e6ff3][t - 48]
    else [0x748f82ee, 0x78a5636f, 0x84c87814, 0x8cc70208, 0x90befffa, 0xa4506ceb, 0xbef9a3f7, 0xc67178f2][t - 56]
  }

  function K(t: nat): Word
    requires t < 64
  {
    RoundConstant(t) as bv32
  }

  function InitialConstant(i: nat): (h: nat)
    requires i < 8
    ensures h < U32
  {
    [0x6a09e667, 0xbb67ae85, 0x3c6ef372, 0xa54ff53a, 0x510e527f, 0x9b05688c, 0x1f83d9ab, 0x5be0cd19][i]
  }

  /** Section 5.3.3: the initial hash value. */
  function H0(): (h: seq<Word>)
    ensures |h| == 8
  {
    seq(8, i requires 0 <= i < 8 => InitialConstant(i) as bv32)
  }

  // Where the constants come from.

  /** The first 64 primes. */
  function Prime(t: nat): nat
    requires t < 64
  {
    if t < 8 then [2, 3, 5, 7, 11, 13, 17, 19][t]
    else if t < 16 then [23, 29, 31, 37, 41, 43, 47, 53][t - 8]
    else if t < 24 then [59, 61, 67, 71, 73, 79, 83, 89][t - 16]
    else if t < 32 then [97, 101, 103, 107, 109, 113, 127, 131][t - 24]
    else if t < 40 then [137, 139, 149, 151, 157, 163, 167, 173][t - 32]
    else if t < 48 then [179, 181, 191, 193, 197, 199, 211, 223][t - 40]
    else if t < 56 then [227, 229, 233, 239, 241, 251, 257, 263][t - 48]
    else [269, 271, 277, 281, 283, 293, 307, 311][t - 56]
  }

  function Cube(x: nat): nat {
    x * x * x
  }

  function Square(x: nat): nat {
    x * x
  }

  /** Section 4.2.2: the constants are the first 32 bits of the fractional parts of the cube roots of the
      first 64 primes; `a` is the whole part. */
  ghost predicate CubeFraction(p: nat, a: nat, f: nat) {
    Cube(a * U32 + f) <= p * (U32 * U32 * U32) < Cube(a * U32 + f + 1)
  }

  function WholeCubeRoot(p: nat): nat {
    if p < 8 then 1 else if p < 27 then 2 else if p < 64 then 3 else if p < 125 then 4 else if p < 216 then 5 else 6
  }

  lemma {:induction false} CubeRoots(t: nat)
    requires t < 64
    ensures CubeFraction(Prime(t), WholeCubeRoot(Prime(t)), RoundConstant(t))
  {
    if t < 16 {
      LowestRoots(t);
    } else if t < 32 {
      LowerRoots(t);
    } else {
      UpperRoots(t);
    }
  }

  lemma {:induction false} LowestRoots(t: nat)
    requires t < 16
    ensures CubeFraction(Prime(t), WholeCubeRoot(Prime(t)), RoundConstant(t))
  {
  }

  lemma {:induction false} LowerRoots(t: nat)
    requires 16 <= t < 32
    ensures CubeFraction(Prime(t), WholeCubeRoot(Prime(t)), RoundConstant(t))
  {
  }

  lemma {:induction false} UpperRoots(t: nat)
    requires 32 <= t < 64
    ensures CubeFraction(Prime(t), WholeCubeRoot(Prime(t)), RoundConstant(t))
  {
  }

  /** Section 5.3.3: and those of the square roots of the first eight. */
  ghost predicate SquareFraction(p: nat, a: nat, f: nat) {
    Square(a * U32 + f) <= p * (U32 * U32) < Square(a * U32 + f + 1)
  }

  lemma {:induction false} SquareRoots(i: nat)
    requires i < 8
    ensures var p := Prime(i);
      SquareFraction(p, if p < 4 then 1 else if p < 9 then 2 else if p < 16 then 3 else 4, InitialConstant(i))
    ensures H0()[i] == InitialConstant(i) as bv32
  {
  }

  // ----- section 6.2.2: compression

  function WordOf(b0: Byte, b1: Byte, b2: Byte, b3: Byte): Word {
    (b0 * 0x100_0000 + b1 * 0x1_0000 + b2 * 0x100 + b3) as bv32
  }

  function Mix(w2: Word, w7: Word, w15: Word, w16: Word): Word {
    Add(Add(Add(SmallSigma1(w2), w7), SmallSigma0(w15)), w16)
  }

  /** The first word of the message "abc", an example of section B.1 of FIPS 180-2. */
  lemma {:induction false} ExampleWord(b0: Byte, b1: Byte, b2: Byte, b3: Byte)
    requires b0 == 0x61 && b1 == 0x62 && b2 == 0x63 && b3 == 0x80
    ensures WordOf(b0, b1, b2, b3) == 0x61626380
  {
  }

  lemma {:induction false} SigmasOfZero(x: Word)
    requires x == 0
    ensures BigSigma0(x) == 0 && BigSigma1(x) == 0 && SmallSigma0(x) == 0 && SmallSigma1(x) == 0
  {
  }

  /** The schedule adds the words seven and sixteen back as they are. */
  lemma {:induction false} MixPlain(z: Word, w7: Word, w16: Word)
    requires z == 0
    ensures Mix(z, w7, z, w16) == Add(w7, w16)
  {
    hide SmallSigma0, SmallSigma1, Add;
    SigmasOfZero(z);
    AddZero(w7);
  }

  lemma {:induction false} AddZero(x: Word)
    ensures Add(0, x) == x && Add(x, 0) == x
  {
  }

  /** The message schedule. */
  function Schedule(block: seq<Byte>, t: nat): Word
    requires |block| == 64
  {
    if t < 16 then WordOf(block[4 * t], block[4 * t + 1], block[4 * t + 2], block[4 * t + 3])
    else Mix(Schedule(block, t - 2), Schedule(block, t - 7), Schedule(block, t - 15), Schedule(block, t - 16))
  }

  datatype Vars = Vars(a: Word, b: Word, c: Word, d: Word, e: Word, f: Word, g: Word, h: Word)

  function Round(v: Vars, k: Word, w: Word): Vars {
    var t1 := Add(Add(Add(Add(v.h, BigSigma1(v.e)), Ch(v.e, v.f, v.g)), k), w);
    var t2 := Add(BigSigma0(v.a), Maj(v.a, v.b, v.c));
    Vars(Add(t1, t2), v.a, v.b, v.c, Add(v.d, t1), v.e, v.f, v.g)
  }

  /** Where everything goes in a round, seen at `a` and `e` zero. */
  lemma {:induction false} RoundMoves(v: Vars, k: Word, w: Word)
    requires v.a == 0 && v.e == 0
    ensures var t := Add(Add(Add(v.h, v.g), k), w);
      Round(v, k, w) == Vars(Add(t, v.b & v.c), v.a, v.b, v.c, Add(v.d, t), v.e, v.f, v.g)
  {
    hide BigSigma0, BigSigma1, Add, Ch, Maj;
    SigmasOfZero(v.a);
    ChoicesOfZero(v.a, v.b, v.c);
    ChoicesOfZero(v.e, v.f, v.g);
    AddZero(v.h);
    AddZero(v.b & v.c);
  }

  lemma {:induction false} ChoicesOfZero(x: Word, y: Word, z: Word)
    requires x == 0
    ensures Ch(x, y, z) == z && Maj(x, y, z) == y & z
  {
  }

  function Rounds(v: Vars, block: seq<Byte>, n: nat): Vars
    requires |block| == 64 && n <= 64
  {
    if n == 0 then v else Round(Rounds(v, block, n - 1), K(n - 1), Schedule(block, n - 1))
  }

  function Start(h: seq<Word>): Vars
    requires |h| == 8
  {
    Vars(h[0], h[1], h[2], h[3], h[4], h[5], h[6], h[7])
  }

  function Sum(h: seq<Word>, v: Vars): (r: seq<Word>)
    requires |h| == 8
    ensures |r| == 8
  {
    [Add(h[0], v.a), Add(h[1], v.b), Add(h[2], v.c), Add(h[3], v.d), Add(h[4], v.e), Add(h[5], v.f), Add(h[6], v.g), Add(h[7], v.h)]
  }

  /** The variables start as the eight words of the state, and are added to those words. */
  lemma {:induction false} StartAndSum(h: seq<Word>, v: Vars)
    requires |h| == 8
    ensures var u := Start(h); h == [u.a, u.b, u.c, u.d, u.e, u.f, u.g, u.h]
    ensures h == [0, 0, 0, 0, 0, 0, 0, 0] ==> Sum(h, v) == [v.a, v.b, v.c, v.d, v.e, v.f, v.g, v.h]
  {
    hide Add;
    AddZero(v.a);
    AddZero(v.b);
    AddZero(v.c);
    AddZero(v.d);
    AddZero(v.e);
    AddZero(v.f);
    AddZero(v.g);
    AddZero(v.h);
  }

  function Compress(h: seq<Word>, block: seq<Byte>): (r: seq<Word>)
    requires |h| == 8 && |block| == 64
    ensures |r| == 8
  {
    Sum(h, Rounds(Start(h), block, 64))
  }

  /** The fold over whole blocks; an unfinished block at the end is not touched. */
  function Fold(h: seq<Word>, m: seq<Byte>): (r: seq<Word>)
    requires |h| == 8
    ensures |r| == 8
    decreases |m|
  {
    if |m| < 64 then h else Fold(Compress(h, m[..64]), m[64..])
  }

  lemma {:induction false} FoldSnoc(h: seq<Word>, m: seq<Byte>, block: seq<Byte>)
    requires |h| == 8 && |m| % 64 == 0 && |block| == 64
    ensures Fold(h, m + block) == Compress(Fold(h, m), block)
    decreases |m|
  {
    hide Compress;
    if m == [] {
      assert m + block == block;
      assert block[..64] == block && block[64..] == [];
    } else {
      assert (m + block)[..64] == m[..64] && (m + block)[64..] == m[64..] + block;
      FoldSnoc(Compress(h, m[..64]), m[64..], block);
    }
  }

  // ----- section 5.1.1: padding

  function Zeros(n: nat): (s: seq<Byte>)
    ensures |s| == n && forall i :: 0 <= i < n ==> s[i] == 0
  {
    if n == 0 then [] else Zeros(n - 1) + [0]
  }

  /** Byte `i` of a 64-bit number, counted from the most significant one. */
  function LengthByte(v: nat, i: nat): Byte
    requires i < 8
  {
    v / Pow256(7 - i) % 256
  }

  /** The 64-bit length in bits, big-endian. */
  function Length(v: nat): (s: seq<Byte>)
    ensures |s| == 8
  {
    [LengthByte(v, 0), LengthByte(v, 1), LengthByte(v, 2), LengthByte(v, 3),
     LengthByte(v, 4), LengthByte(v, 5), LengthByte(v, 6), LengthByte(v, 7)]
  }

  /** Bytes as a number, the first one the most significant. */
  function BigEndian(bs: seq<Byte>): nat {
    if bs == [] then 0 else 256 * BigEndian(bs[..|bs| - 1]) + bs[|bs| - 1]
  }

  /** Read as a number, the length is right modulo 2^64. */
  lemma {:induction false} LengthValue(v: nat, n: nat)
    requires n <= 8
    ensures BigEndian(Length(v)[..n]) == v / Pow256(8 - n) % Pow256(n)
  {
    if n > 0 {
      var s := Length(v)[..n];
      LengthValue(v, n - 1);
      assert s[..n - 1] == Length(v)[..n - 1] && s[n - 1] == LengthByte(v, n - 1);
      NextDigit(v, Pow256(8 - n), Pow256(n - 1));
    }
  }

  lemma {:induction false} NextDigit(v: nat, q: nat, m: nat)
    requires q > 0 && m > 0
    ensures 256 * (v / (256 * q) % m) + v / q % 256 == v / q % (256 * m)
  {
    var u := v / q;
    DivDiv(v, q, 256);
    var h := u / 256;
    var k, r := h / m, h % m;
    Divided(h, m);
    Distributes(256, m * k, r);
    Unique(u, 256 * m, k, 256 * r + u % 256);
  }

  /** How many zero bytes follow the 0x80 byte. */
  function PadZeros(n: nat): nat {
    (119 - n % 64) % 64
  }

  function Pad(m: seq<Byte>): seq<Byte> {
    m + [0x80] + Zeros(PadZeros(|m|)) + Length(8 * |m|)
  }

  /** The padded message is a whole number of blocks, with the least number of zeros that makes it so. */
  lemma {:induction false} PadIsLeast(n: nat, k: nat)
    ensures (n + 1 + PadZeros(n) + 8) % 64 == 0
    ensures (n + 1 + k + 8) % 64 == 0 ==> PadZeros(n) <= k
  {
  }

  /** Byte `i` of a word, counted from the most significant one. */
  function ByteOf(w: Word, i: nat): Byte
    requires i < 4
  {
    ((w >> (24 - 8 * i)) & 0xff) as int
  }

  /** The bytes of that first word. */
  lemma {:induction false} ExampleBytes(w: Word)
    requires w == 0x61626380
    ensures ByteOf(w, 0) == 0x61 && ByteOf(w, 1) == 0x62 && ByteOf(w, 2) == 0x63 && ByteOf(w, 3) == 0x80
  {
  }

  function Bytes(ws: seq<Word>): (bs: seq<Byte>)
    ensures |bs| == 4 * |ws|
  {
    if ws == [] then [] else [ByteOf(ws[0], 0), ByteOf(ws[0], 1), ByteOf(ws[0], 2), ByteOf(ws[0], 3)] + Bytes(ws[1..])
  }

  lemma {:induction false} BytesAt(ws: seq<Word>, j: nat, i: nat)
    requires j < |ws| && i < 4
    ensures Bytes(ws)[4 * j + i] == ByteOf(ws[j], i)
  {
    hide ByteOf;
    if j > 0 {
      BytesAt(ws[1..], j - 1, i);
    }
  }

  /** The hash of a message. */
  function Hash(m: seq<Byte>): (h: seq<Byte>)
    ensures |h| == 32
  {
    Bytes(Fold(H0(), Pad(m)))
  }

  // ----- a message that is partly hashed

  /** The whole blocks of a message. */
  function Whole(m: seq<Byte>): (w: seq<Byte>)
    ensures |w| % 64 == 0 && |m| - |w| == |m| % 64
  {
    m[..|m| - |m| % 64]
  }

  function Rest(m: seq<Byte>): (r: seq<Byte>)
    ensures |r| == |m| % 64 && Whole(m) + r == m
  {
    m[|m| - |m| % 64..]
  }

  /** One more byte completes a block, or joins the unfinished one. */
  lemma {:induction false} OneMore(m: seq<Byte>, b: Byte)
    ensures |Rest(m)| == 63 ==> Whole(m + [b]) == Whole(m) + (Rest(m) + [b]) && Rest(m + [b]) == []
    ensures |Rest(m)| < 63 ==> Whole(m + [b]) == Whole(m) && Rest(m + [b]) == Rest(m) + [b]
  {
    hide Whole, Rest;
    NextCount(|m|);
    if |Rest(m)| == 63 {
      Assembled(m + [b], Whole(m) + (Rest(m) + [b]), []);
    } else {
      Assembled(m + [b], Whole(m), Rest(m) + [b]);
    }
  }

  lemma {:induction false} NextCount(n: nat)
    ensures (n + 1) % 64 == if n % 64 == 63 then 0 else n % 64 + 1
  {
  }

  /** Whole blocks and less than one block more are `Whole` and `Rest`. */
  lemma {:induction false} Assembled(m: seq<Byte>, w: seq<Byte>, r: seq<Byte>)
    requires m == w + r && |r| == |m| % 64
    ensures Whole(m) == w && Rest(m) == r
  {
  }

  /** The last block or two, from the unfinished block and the length in bits. */
  function LastBlocks(rest: seq<Byte>, bits: nat): (t: seq<Byte>)
    requires |rest| < 64
    ensures |t| == if |rest| < 56 then 64 else 128
  {
    if |rest| < 56 then rest + [0x80] + Zeros(55 - |rest|) + Length(bits)
    else rest + [0x80] + Zeros(63 - |rest|) + (Zeros(56) + Length(bits))
  }

  lemma {:induction false} ZerosJoin(a: nat, b: nat)
    ensures Zeros(a) + Zeros(b) == Zeros(a + b)
  {
  }

  lemma {:induction false} InFront(a: seq<Byte>, b: seq<Byte>, c: seq<Byte>, d: seq<Byte>, e: seq<Byte>)
    ensures a + (b + c + d + e) == a + b + c + d + e
  {
  }

  lemma {:induction false} Assoc(a: seq<Byte>, b: seq<Byte>, c: seq<Byte>, d: seq<Byte>)
    ensures a + b + (c + d) == a + (b + c) + d
  {
  }

  lemma {:induction false} PadIsLast(m: seq<Byte>)
    ensures Pad(m) == Whole(m) + LastBlocks(Rest(m), 8 * |m|)
  {
    hide Length, Zeros;
    var r := Rest(m);
    var z, l := Zeros(PadZeros(|m|)), Length(8 * |m|);
    if |r| < 56 {
      assert PadZeros(|m|) == 55 - |r|;
      InFront(Whole(m), r, [0x80], z, l);
    } else {
      assert PadZeros(|m|) == 63 - |r| + 56;
      ZerosJoin(63 - |r|, 56);
      InFront(Whole(m), r, [0x80], Zeros(63 - |r|), Zeros(56) + l);
      Assoc(Whole(m) + r + [0x80], Zeros(63 - |r|), Zeros(56), l);
    }
  }

  const WRAP: nat := 0x1_0000_0000_0000_0000

  class Context {
    var state: seq<Word>
    const buf: array<Byte>
    var buflen: nat
    var bitlen: nat
    ghost var msg: seq<Byte>

    /** The context stands for the message fed in so far. */
    ghost predicate Valid()
      reads this, buf
    {
      && |state| == 8 && buf.Length == 64
      && buflen == |msg| % 64 && bitlen == 8 * |Whole(msg)| % WRAP
      && state == Fold(H0(), Whole(msg)) && buf[..buflen] == Rest(msg)
    }

    constructor ()
      ensures Valid() && msg == [] && fresh(buf)
    {
      state, buflen, bitlen, msg := H0(), 0, 0, [];
      buf := new Byte[64](_ => 0);
    }

    /** Compresses the buffer into the state. */
    method Transform()
      requires |state| == 8 && buf.Length == 64
      modifies `state
      ensures |state| == 8 && state == Compress(old(state), buf[..])
    {
      hide Add, BigSigma0, BigSigma1, Ch, Maj, K, Schedule;
      ghost var block := buf[..];
      var m := Expand();
      var a, b, c, d := state[0], state[1], state[2], state[3];
      var e, f, g, h := state[4], state[5], state[6], state[7];
      ghost var v0 := Start(state);
      var i := 0;
      while i < 64
        invariant 0 <= i <= 64 && Vars(a, b, c, d, e, f, g, h) == Rounds(v0, block, i)
      {
        var t1 := Add(Add(Add(Add(h, BigSigma1(e)), Ch(e, f, g)), K(i)), m[i]);
        var t2 := Add(BigSigma0(a), Maj(a, b, c));
        h := g;
        g := f;
        f := e;
        e := Add(d, t1);
        d := c;
        c := b;
        b := a;
        a := Add(t1, t2);
        i := i + 1;
      }
      state := [Add(state[0], a), Add(state[1], b), Add(state[2], c), Add(state[3], d),
                Add(state[4], e), Add(state[5], f), Add(state[6], g), Add(state[7], h)];
    }

    /** The message schedule of the buffer. */
    method Expand() returns (m: seq<Word>)
      requires buf.Length == 64
      ensures |m| == 64 && forall t :: 0 <= t < 64 ==> m[t] == Schedule(buf[..], t)
    {
      hide Mix, WordOf;
      m := [];
      var i, j := 0, 0;
      while i < 16
        invariant 0 <= i <= 16 && j == 4 * i && |m| == i
        invariant forall t :: 0 <= t < i ==> m[t] == Schedule(buf[..], t)
      {
        m := m + [WordOf(buf[j], buf[j + 1], buf[j + 2], buf[j + 3])];
        i, j := i + 1, j + 4;
      }
      while i < 64
        invariant 16 <= i <= 64 && |m| == i
        invariant forall t :: 0 <= t < i ==> m[t] == Schedule(buf[..], t)
      {
        m := m + [Mix(m[i - 2], m[i - 7], m[i - 15], m[i - 16])];
        i := i + 1;
      }
    }

    /** Feeds more bytes in. */
    method Update(data: seq<Byte>)
      requires Valid()
      modifies this, buf
      ensures Valid() && msg == old(msg) + data
    {
      hide Fold, Whole, Rest, H0;
      var i := 0;
      assert msg == old(msg) + data[..0];
      while i < |data|
        invariant 0 <= i <= |data| && Valid() && msg == old(msg) + data[..i]
      {
        Feed(data[i]);
        assert old(msg) + data[..i] + [data[i]] == old(msg) + data[..i + 1];
        i := i + 1;
      }
      assert data[..i] == data;
    }

    /** Feeds one byte in; a full buffer is compressed. */
    method Feed(b: Byte)
      requires Valid()
      modifies this, buf
      ensures Valid() && msg == old(msg) + [b]
    {
      hide Compress, Fold;
      ghost var was := msg;
      OneMore(was, b);
      buf[buflen] := b;
      buflen := buflen + 1;
      assert buf[..buflen] == Rest(was) + [b];
      if buflen == 64 {
        assert buf[..64] == buf[..];
        FoldSnoc(H0(), Whole(was), buf[..]);
        Transform();
        bitlen := (bitlen + 512) % WRAP;
        buflen := 0;
        BitsWrap(8 * |Whole(was)|, 512);
      }
      msg := msg + [b];
    }

    /** Writes zeros from `lo` up to `hi`. */
    method FillZeros(lo: nat, hi: nat)
      requires lo <= hi <= buf.Length
      modifies buf
      ensures buf[..] == old(buf[..lo]) + Zeros(hi - lo) + old(buf[hi..])
    {
      var i := lo;
      while i < hi
        invariant lo <= i <= hi
        invariant forall j :: 0 <= j < buf.Length ==> buf[j] == if lo <= j < i then 0 else old(buf[j])
      {
        buf[i] := 0;
        i := i + 1;
      }
    }

    /** Writes the length in bits into the last eight bytes. */
    method StoreLength()
      requires buf.Length == 64 && bitlen < WRAP
      modifies buf
      ensures buf[..] == old(buf[..56]) + Length(bitlen)
    {
      hide LengthByte;
      buf[63] := LengthByte(bitlen, 7);
      buf[62] := LengthByte(bitlen, 6);
      buf[61] := LengthByte(bitlen, 5);
      buf[60] := LengthByte(bitlen, 4);
      buf[59] := LengthByte(bitlen, 3);
      buf[58] := LengthByte(bitlen, 2);
      buf[57] := LengthByte(bitlen, 1);
      buf[56] := LengthByte(bitlen, 0);
    }

    /** Ends the message with 0x80 and zeros, leaving room for the length in the last block. */
    method PadBuffer(ghost rest: seq<Byte>, ghost last: seq<Byte>, ghost bits: nat)
      requires |state| == 8 && buf.Length == 64 && buflen == |rest| < 64 && buf[..buflen] == rest
      requires last == LastBlocks(rest, bits)
      modifies `state, buf
      ensures |state| == 8 && buf[..56] == last[|last| - 64..|last| - 8]
      ensures state == if |last| == 64 then old(state) else Compress(old(state), last[..64])
    {
      hide Compress, Length, Zeros, LastBlocks;
      LastParts(rest, bits);
      buf[buflen] := 0x80;
      assert buf[..buflen + 1] == rest + [0x80];
      if buflen < 56 {
        FillZeros(buflen + 1, 56);
      } else {
        FillZeros(buflen + 1, 64);
        assert buf[..] == last[..64];
        Transform();
        FillZeros(0, 56);
      }
    }

    /** Pads, compresses what is left, and returns the digest. */
    method Final() returns (hash: seq<Byte>)
      requires Valid() && |msg| < 0x2000_0000_0000_0000
      modifies this, buf
      ensures hash == Hash(msg) && msg == old(msg)
    {
      hide Compress, Fold, Length, Whole, Rest, Pad, Bytes, LastBlocks;
      ghost var bits, last := 8 * |msg|, LastBlocks(Rest(msg), 8 * |msg|);
      PadIsLast(msg);
      BitsOf(msg);
      LastParts(Rest(msg), bits);
      PadBuffer(Rest(msg), last, bits);
      bitlen := (bitlen + buflen * 8) % WRAP;
      StoreLength();
      assert buf[..] == last[|last| - 64..];
      Transform();
      FoldLast(H0(), Whole(msg), last);
      hash := Output();
    }

    /** The words of the state, most significant bytes first. */
    method Output() returns (hash: seq<Byte>)
      requires |state| == 8
      ensures hash == Bytes(state)
    {
      hide ByteOf, Bytes;
      var out := new Byte[32](_ => 0);
      var i := 0;
      while i < 4
        invariant 0 <= i <= 4 && fresh(out) && out.Length == 32
        invariant forall n :: 0 <= n < 32 && n % 4 < i ==> out[n] == ByteOf(state[n / 4], n % 4)
      {
        StoreColumn(out, i);
        i := i + 1;
      }
      hash := out[..];
      forall n | 0 <= n < 32 ensures hash[n] == Bytes(state)[n] {
        BytesAt(state, n / 4, n % 4);
      }
    }

    /** Byte `i` of every word of the state. */
    method StoreColumn(out: array<Byte>, i: nat)
      requires |state| == 8 && out.Length == 32 && i < 4 && out != buf
      modifies out
      ensures forall n :: 0 <= n < 32 ==> out[n] == if n % 4 == i then ByteOf(state[n / 4], n % 4) else old(out[n])
    {
      hide ByteOf;
      var j := 0;
      while j < 8
        invariant 0 <= j <= 8
        invariant forall n :: 0 <= n < 32 ==>
          out[n] == if n % 4 == i && n / 4 < j then ByteOf(state[n / 4], n % 4) else old(out[n])
      {
        out[4 * j + i] := ByteOf(state[j], i);
        j := j + 1;
      }
    }
  }

  /** The bit count of the whole blocks and of the rest is that of the message. */
  lemma {:induction false} BitsOf(m: seq<Byte>)
    requires |m| < 0x2000_0000_0000_0000
    ensures (8 * |Whole(m)| % WRAP + |m| % 64 * 8) % WRAP == 8 * |m|
  {
    assert 8 * |Whole(m)| + |m| % 64 * 8 == 8 * |m|;
  }

  /** The parts of the last blocks. */
  lemma {:induction false} LastParts(rest: seq<Byte>, bits: nat)
    requires |rest| < 64
    ensures var t := LastBlocks(rest, bits);
      && t[|t| - 8..] == Length(bits)
      && (|rest| < 56 ==> t[..56] == rest + [0x80] + Zeros(55 - |rest|))
      && (|rest| >= 56 ==> t[..64] == rest + [0x80] + Zeros(63 - |rest|) && t[64..120] == Zeros(56))
  {
    hide Length, Zeros;
  }

  /** One or two more blocks. */
  lemma {:induction false} FoldLast(h: seq<Word>, m: seq<Byte>, t: seq<Byte>)
    requires |h| == 8 && |m| % 64 == 0 && (|t| == 64 || |t| == 128)
    ensures |t| == 64 ==> Fold(h, m + t) == Compress(Fold(h, m), t[|t| - 64..])
    ensures |t| == 128 ==> Fold(h, m + t) == Compress(Compress(Fold(h, m), t[..64]), t[|t| - 64..])
  {
    hide Compress, Fold;
    if |t| == 64 {
      assert t[0..] == t;
      FoldSnoc(h, m, t);
    } else {
      FoldSnoc(h, m, t[..64]);
      FoldSnoc(h, m + t[..64], t[64..]);
      assert m + t[..64] + t[64..] == m + t;
    }
  }

  function Concat(chunks: seq<seq<Byte>>): seq<Byte> {
    if chunks == [] then [] else Concat(chunks[..|chunks| - 1]) + chunks[|chunks| - 1]
  }

  /** However a message is cut into chunks, the digest is its hash. */
  method HashChunks(chunks: seq<seq<Byte>>) returns (hash: seq<Byte>)
    requires |Concat(chunks)| < 0x2000_0000_0000_0000
    ensures hash == Hash(Concat(chunks))
  {
    hide Hash, Fold, H0, Whole, Rest;
    var ctx := new Context();
    hide ctx.Valid;
    var i := 0;
    while i < |chunks|
      invariant 0 <= i <= |chunks| && ctx.Valid() && ctx.msg == Concat(chunks[..i]) && fresh(ctx) && fresh(ctx.buf)
    {
      ctx.Update(chunks[i]);
      assert chunks[..i + 1][..i] == chunks[..i];
      i := i + 1;
    }
    assert chunks[..i] == chunks;
    hash := ctx.Final();
  }

  lemma {:induction false} BitsWrap(a: nat, b: nat)
    ensures (a % WRAP + b) % WRAP == (a + b) % WRAP
  {
  }
}
