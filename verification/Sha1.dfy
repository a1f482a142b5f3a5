/** SHA-1: the standard's definition, and the streaming implementation of SHA1.c. */
module Sha1Spec {
  type octet = bv8
  type word = bv32

  function Rotl(x: word, n: nat): word
    requires 0 < n < 32
  {
    (x << n) | (x >> (32 - n))
  }

  // Section 4.1.1 of FIPS 180-4.
  function Ch(x: word, y: word, z: word): word { (x & y) ^ ((!x) & z) }
  function Parity(x: word, y: word, z: word): word { x ^ y ^ z }
  function Maj(x: word, y: word, z: word): word { (x & y) ^ (x & z) ^ (y & z) }

  function F(t: nat, x: word, y: word, z: word): word {
    if t < 20 then Ch(x, y, z) else if t < 40 then Parity(x, y, z) else if t < 60 then Maj(x, y, z) else Parity(x, y, z)
  }

  function K(t: nat): word {
    if t < 20 then 0x5A827999 else if t < 40 then 0x6ED9EBA1 else if t < 60 then 0x8F1BBCDC else 0xCA62C1D6
  }

  /** The message schedule, section 6.1.2 step 1. */
  function W(block: seq<word>, t: nat): word
    requires |block| == 16
  {
    if t < 16 then block[t] else Rotl(W(block, t - 3) ^ W(block, t - 8) ^ W(block, t - 14) ^ W(block, t - 16), 1)
  }

  datatype Registers = Registers(a: word, b: word, c: word, d: word, e: word)

  function Sum(a: word, f: word, e: word, k: word, w: word): word { a + f + e + k + w }

  function Step(t: nat, r: Registers, w: word): Registers {
    Registers(Sum(Rotl(r.a, 5), F(t, r.b, r.c, r.d), r.e, K(t), w), r.a, Rotl(r.b, 30), r.c, r.d)
  }

  function Steps(h: Registers, block: seq<word>, n: nat): Registers
    requires |block| == 16
  {
    if n == 0 then h else Step(n - 1, Steps(h, block, n - 1), W(block, n - 1))
  }

  function Plus(x: word, y: word): word { x + y }

  function Add(h: Registers, r: Registers): Registers {
    Registers(Plus(h.a, r.a), Plus(h.b, r.b), Plus(h.c, r.c), Plus(h.d, r.d), Plus(h.e, r.e))
  }

  function Compress(h: Registers, block: seq<word>): Registers
    requires |block| == 16
  {
    Add(h, Steps(h, block, 80))
  }

  const H0 := Registers(0x67452301, 0xEFCDAB89, 0x98BADCFE, 0x10325476, 0xC3D2E1F0)

  function BigEndian(b: seq<octet>): word
    requires |b| == 4
  {
    ((b[0] as word) << 24) | ((b[1] as word) << 16) | ((b[2] as word) << 8) | (b[3] as word)
  }

  function Octets(x: word): seq<octet> {
    [((x >> 24) & 0xFF) as octet, ((x >> 16) & 0xFF) as octet, ((x >> 8) & 0xFF) as octet, (x & 0xFF) as octet]
  }

  function Words(b: seq<octet>): (w: seq<word>)
    requires |b| == 64
    ensures |w| == 16
  {
    seq(16, i requires 0 <= i < 16 => BigEndian(b[4 * i..4 * i + 4]))
  }

  /** The hash over the whole blocks of b. */
  function Hash(h: Registers, b: seq<octet>): Registers
    decreases |b|
  {
    if |b| < 64 then h else Hash(Compress(h, Words(b[..64])), b[64..])
  }

  /** The least number of zeros after the one bit that leaves 8 octets of the last block. */
  function Zeros(n: nat): nat { (119 - n % 64) % 64 }

  function Octet(n: int): octet
    requires 0 <= n < 256
  {
    n as octet
  }

  /** 64 bits of a length, the highest first. */
  function Length64(n: nat): seq<octet> {
    [Octet(n / 0x100_0000_0000_0000 % 256), Octet(n / 0x1_0000_0000_0000 % 256), Octet(n / 0x100_0000_0000 % 256),
        Octet(n / 0x1_0000_0000 % 256),
     Octet(n / 0x100_0000 % 256), Octet(n / 0x1_0000 % 256), Octet(n / 0x100 % 256), Octet(n % 256)]
  }

  /** A message padded as for a length in bits of `bits`. */
  function PadWith(m: seq<octet>, bits: nat): seq<octet> {
    m + [0x80] + seq(Zeros(|m|), _ => 0) + Length64(bits)
  }

  /** Section 5.1.1 of FIPS 180-4. */
  function Pad(m: seq<octet>): seq<octet> { PadWith(m, 8 * |m|) }

  function Bytes(h: Registers): seq<octet> {
    Octets(h.a) + Octets(h.b) + Octets(h.c) + Octets(h.d) + Octets(h.e)
  }

  function Digest(m: seq<octet>): seq<octet> { Bytes(Hash(H0, Pad(m))) }

  // ----- facts -----

  lemma PadCount(n: nat)
    ensures (n + 1 + Zeros(n) + 8) % 64 == 0
  {
    var q, r := n / 64, n % 64;
    assert n == 64 * q + r;
    if r <= 55 { assert Zeros(n) == 55 - r; } else { assert Zeros(n) == 119 - r; }
  }

  /** A padded message is a whole number of blocks, so that all of it is hashed. */
  lemma PadBlocks(m: seq<octet>, bits: nat)
    ensures |PadWith(m, bits)| % 64 == 0
  {
    hide Zeros, Octet;
    PadCount(|m|);
    assert |PadWith(m, bits)| == |m| + 1 + Zeros(|m|) + 8;
  }

  /** The message, a one bit, the fewest zeros that leave eight octets of a block, and the length in them. */
  lemma PadLayout(m: seq<octet>) returns (k: nat, d: seq<int>)
    requires 8 * |m| < 0x1_0000_0000_0000_0000
    ensures k < 64 && (|m| + 1 + k + 8) % 64 == 0
    ensures |Pad(m)| == |m| + 1 + k + 8 && Pad(m)[..|m| + 1 + k] == m + [0x80] + seq(k, _ => 0)
    ensures Places(Pad(m)[|m| + 1 + k..], 8 * |m|, d)
  {
    hide Length64, Zeros;
    k := Zeros(|m|);
    ZerosSmall(|m|);
    PadCount(|m|);
    d := LengthPlaces(8 * |m|);
    assert Pad(m)[|m| + 1 + k..] == Length64(8 * |m|);
  }
  lemma ZerosSmall(n: nat)
    ensures Zeros(n) < 64
  {
  }

  /** Eight octets that are the digits of a number to base 256, the highest first. */
  predicate Places(b: seq<octet>, n: int, d: seq<int>) {
    && |d| == 8 && (forall i | 0 <= i < 8 :: 0 <= d[i] < 256) && b == seq(8, i requires 0 <= i < 8 => Octet(d[i]))
    && n == 0x100_0000_0000_0000 * d[0] + 0x1_0000_0000_0000 * d[1] + 0x100_0000_0000 * d[2] + 0x1_0000_0000 * d[3]
              + 0x100_0000 * d[4] + 0x1_0000 * d[5] + 0x100 * d[6] + d[7]
  }

  /** Dividing by 256 over and over. */
  lemma Quotients(n: nat)
    ensures n / 0x100 / 0x100 == n / 0x1_0000 && n / 0x1_0000 / 0x100 == n / 0x100_0000
    ensures n / 0x100_0000 / 0x100 == n / 0x1_0000_0000 && n / 0x1_0000_0000 / 0x100 == n / 0x100_0000_0000
    ensures n / 0x100_0000_0000 / 0x100 == n / 0x1_0000_0000_0000
    ensures n / 0x1_0000_0000_0000 / 0x100 == n / 0x100_0000_0000_0000
  {
  }

  lemma Sum256(n: nat, q1: nat, q2: nat, q3: nat, q4: nat, q5: nat, q6: nat, q7: nat)
    requires q1 == n / 0x100 && q2 == q1 / 0x100 && q3 == q2 / 0x100 && q4 == q3 / 0x100 && q5 == q4 / 0x100
    requires q6 == q5 / 0x100 && q7 == q6 / 0x100 && q7 < 0x100
    ensures n == 0x100_0000_0000_0000 * (q7 % 0x100) + 0x1_0000_0000_0000 * (q6 % 0x100)
                   + 0x100_0000_0000 * (q5 % 0x100) + 0x1_0000_0000 * (q4 % 0x100) + 0x100_0000 * (q3 % 0x100)
                   + 0x1_0000 * (q2 % 0x100) + 0x100 * (q1 % 0x100) + n % 0x100
  {
  }

  lemma LengthPlaces(n: nat) returns (d: seq<int>)
    requires n < 0x1_0000_0000_0000_0000
    ensures Places(Length64(n), n, d)
  {
    Quotients(n);
    Sum256(n, n / 0x100, n / 0x1_0000, n / 0x100_0000, n / 0x1_0000_0000, n / 0x100_0000_0000, n / 0x1_0000_0000_0000,
      n / 0x100_0000_0000_0000);
    d := [n / 0x100_0000_0000_0000 % 256, n / 0x1_0000_0000_0000 % 256, n / 0x100_0000_0000 % 256,
      n / 0x1_0000_0000 % 256, n / 0x100_0000 % 256, n / 0x1_0000 % 256, n / 0x100 % 256, n % 256];
    Octets64(n, d);
  }

  lemma Octets64(n: nat, d: seq<int>)
    requires d == [n / 0x100_0000_0000_0000 % 256, n / 0x1_0000_0000_0000 % 256, n / 0x100_0000_0000 % 256,
      n / 0x1_0000_0000 % 256, n / 0x100_0000 % 256, n / 0x1_0000 % 256, n / 0x100 % 256, n % 256]
    ensures (forall i | 0 <= i < 8 :: 0 <= d[i] < 256) && Length64(n) == seq(8, i requires 0 <= i < 8 => Octet(d[i]))
  {
    hide Octet;
  }

  lemma {:induction false} HashAppend(h: Registers, a: seq<octet>, b: seq<octet>)
    requires |a| % 64 == 0
    ensures Hash(h, a + b) == Hash(Hash(h, a), b)
    decreases |a|
  {
    hide Compress, Words;
    if a == [] {
      assert a + b == b;
    } else {
      assert (a + b)[..64] == a[..64];
      assert (a + b)[64..] == a[64..] + b;
      HashAppend(Compress(h, Words(a[..64])), a[64..], b);
    }
  }

  lemma HashOne(h: Registers, b: seq<octet>)
    requires |b| == 64
    ensures Hash(h, b) == Compress(h, Words(b))
  {
    hide Compress, Words;
    assert b[..64] == b && b[64..] == [];
  }

  /** The implementation's forms of the round functions. */
  lemma ChOr(x: word, y: word, z: word)
    ensures Ch(x, y, z) == (x & y) | ((!x) & z)
  {
  }

  lemma MajOr(x: word, y: word, z: word)
    ensures Maj(x, y, z) == (x & y) | (x & z) | (y & z)
  {
  }

  function SumInCode(a: word, f: word, e: word, w: word, k: word): word { a + f + e + w + k }

  lemma SumOrder(a: word, f: word, e: word, k: word, w: word)
    ensures Sum(a, f, e, k, w) == SumInCode(a, f, e, w, k)
  {
  }

  lemma OctetZero(x: int)
    requires 0 <= x < 256
    ensures Octet(x) == 0 <==> x == 0
  {
  }

  lemma DigitsOf(h: nat)
    requires 0 < h < 0x1_0000_0000
    ensures h / 0x100_0000 % 256 != 0 || h / 0x1_0000 % 256 != 0 || h / 256 % 256 != 0 || h % 256 != 0
  {
    var h1 := h / 256;
    var h2 := h1 / 256;
    var h3 := h2 / 256;
    assert h2 == h / 0x1_0000 && h3 == h / 0x100_0000;
    if h3 % 256 == 0 { assert h3 == 0; }
  }

  lemma TopDigits(b: nat)
    requires 0x1_0000_0000 <= b < 0x1_0000_0000_0000_0000
    ensures b / 0x100_0000_0000_0000 % 256 != 0 || b / 0x1_0000_0000_0000 % 256 != 0 || b / 0x100_0000_0000 % 256 != 0
              || b / 0x1_0000_0000 % 256 != 0
  {
    var h := b / 0x1_0000_0000;
    Nested(b);
    DigitsOf(h);
  }

  lemma Nested(b: nat)
    ensures b / 0x1_0000_0000 / 256 == b / 0x100_0000_0000
    ensures b / 0x1_0000_0000 / 0x1_0000 == b / 0x1_0000_0000_0000
    ensures b / 0x1_0000_0000 / 0x100_0000 == b / 0x100_0000_0000_0000
  {
  }

  lemma LengthsDiffer(a: nat, b: nat)
    requires a < 0x1_0000_0000 <= b < 0x1_0000_0000_0000_0000
    ensures Length64(a) != Length64(b)
  {
    hide Octet;
    TopDigits(b);
    OctetZero(0);
    OctetZero(b / 0x100_0000_0000_0000 % 256);
    OctetZero(b / 0x1_0000_0000_0000 % 256);
    OctetZero(b / 0x100_0000_0000 % 256);
    OctetZero(b / 0x1_0000_0000 % 256);
    assert Length64(a)[0] == Octet(0) && Length64(a)[1] == Octet(0) && Length64(a)[2] == Octet(0)
        && Length64(a)[3] == Octet(0);
  }

  /** A length kept in 32 bits pads a message as the standard does exactly below 2^29 octets. */
  lemma PadIff(m: seq<octet>)
    requires 8 * |m| < 0x1_0000_0000_0000_0000
    ensures PadWith(m, 8 * |m| % 0x1_0000_0000) == Pad(m) <==> |m| < 0x2000_0000
  {
    hide Length64;
    var bits: nat := 8 * |m|;
    if |m| >= 0x2000_0000 {
      LengthsDiffer(bits % 0x1_0000_0000, bits);
      SameTail(m + [0x80] + seq(Zeros(|m|), _ => 0), Length64(bits % 0x1_0000_0000), Length64(bits));
    } else {
      assert bits % 0x1_0000_0000 == bits;
    }
  }

  lemma SameTail(x: seq<octet>, a: seq<octet>, b: seq<octet>)
    requires a != b
    ensures x + a != x + b
  {
    assert (x + a)[|x|..] == a && (x + b)[|x|..] == b;
  }
}

module Sha1 {
  import opened Sha1Spec

  const PAD: seq<octet> := [0x80] + seq(63, _ => 0)

  class Context {
    const h: array<word>
    /** The block being filled, and the sixteen words the rounds work on in its place. */
    const buffer: array<octet>
    const w: array<word>
    var size: nat
    var total: nat
    ghost var message: seq<octet>

    function State(): Registers
      requires h.Length == 5
      reads h
    {
      Registers(h[0], h[1], h[2], h[3], h[4])
    }

    ghost predicate Shaped()
      reads this
    {
      h.Length == 5 && buffer.Length == 64 && w.Length == 16 && h != w && size < 64
    }

    /** The registers have taken in the whole blocks of the message, and the buffer holds the rest. */
    ghost predicate Valid()
      reads this, h, buffer
    {
      && Shaped() && size == |message| % 64 && total == |message| % 0x1_0000_0000
      && State() == Hash(H0, message[..|message| - size]) && buffer[..size] == message[|message| - size..]
    }

    /** SHA1_Init */
    constructor ()
      ensures Valid() && message == [] && fresh(h) && fresh(buffer) && fresh(w)
    {
      h := new word[5] [0x67452301, 0xEFCDAB89, 0x98BADCFE, 0x10325476, 0xC3D2E1F0];
      buffer := new octet[64];
      w := new word[16];
      size, total, message := 0, 0, [];
    }

    /** The function of round i as the code has it, with `or` where the standard has exclusive or. */
    static function Mix(i: nat, x: word, y: word, z: word): word {
      if i < 20 then (x & y) | ((!x) & z)
      else if i < 40 then x ^ y ^ z
      else if i < 60 then (x & y) | (x & z) | (y & z)
      else x ^ y ^ z
    }

    static lemma MixIs(i: nat, x: word, y: word, z: word)
      ensures Mix(i, x, y, z) == F(i, x, y, z)
    {
      ChOr(x, y, z);
      MajOr(x, y, z);
      hide Ch, Maj;
    }

    /** What round i adds up. */
    static function Tmp(i: nat, b: seq<word>, wi: word): word
      requires |b| == 5
    {
      SumInCode(Rotl(b[0], 5), Mix(i, b[1], b[2], b[3]), b[4], wi, K(i))
    }

    static lemma TmpIs(i: nat, b: seq<word>, wi: word)
      requires |b| == 5
      ensures Tmp(i, b, wi) == Step(i, Registers(b[0], b[1], b[2], b[3], b[4]), wi).a
    {
      hide Rotl, F, Mix, K, Sum, SumInCode;
      MixIs(i, b[1], b[2], b[3]);
      SumOrder(Rotl(b[0], 5), F(i, b[1], b[2], b[3]), b[4], K(i), wi);
    }

    /** The sixteen words w hold the last sixteen of the schedule, the j-th in place j mod 16. */
    ghost predicate Ring(block: seq<word>, n: nat)
      requires |block| == 16 && w.Length == 16
      reads w
    {
      forall j: nat | n <= j < n + 16 :: w[j % 16] == W(block, j)
    }

    lemma SamePlaces(i: nat)
      requires i >= 16
      ensures
        && (i + 13) % 16 == (i - 3) % 16 && (i + 8) % 16 == (i - 8) % 16 && (i + 2) % 16 == (i - 14) % 16
        && i % 16 == (i - 16) % 16
    {
      Turn(i - 3);
      Turn(i - 8);
      Turn(i - 14);
      Turn(i - 16);
    }

    lemma Turn(n: nat)
      ensures (n + 16) % 16 == n % 16
    {
    }

    lemma OtherPlace(i: nat, j: nat)
      requires i < j < i + 16
      ensures j % 16 != i % 16
    {
    }

    /** One step of the schedule, in place. */
    method Expand(i: nat, ghost block: seq<word>)
      requires Shaped() && |block| == 16 && 16 <= i && Ring(block, i - 16)
      modifies w
      ensures Ring(block, i - 15)
    {
      hide Rotl;
      SamePlaces(i);
      assert w[(i - 3) % 16] == W(block, i - 3) && w[(i - 8) % 16] == W(block, i - 8);
      assert w[(i - 14) % 16] == W(block, i - 14) && w[(i - 16) % 16] == W(block, i - 16);
      w[i % 16] := Rotl(w[(i + 13) % 16] ^ w[(i + 8) % 16] ^ w[(i + 2) % 16] ^ w[i % 16], 1);
      forall j: nat | i - 15 <= j < i + 1 ensures w[j % 16] == W(block, j) {
        if j < i { OtherPlace(i - 16, j); }
      }
    }

    /** The block's bytes as words, the highest byte first. */
    method LoadWords()
      requires Shaped()
      modifies w
      ensures Ring(Words(buffer[..]), 0)
    {
      hide W, BigEndian;
      ghost var block := Words(buffer[..]);
      var i := 0;
      while i < 16
        invariant i <= 16 && forall j | 0 <= j < i :: w[j] == block[j]
      {
        assert buffer[..][4 * i..4 * i + 4] == buffer[4 * i..4 * i + 4];
        w[i] := BigEndian(buffer[4 * i..4 * i + 4]);
        i := i + 1;
      }
      FirstRing(block);
    }

    /** One round; the schedule is a step ahead of it. */
    method Round(blks: array<word>, i: nat, ghost start: Registers, ghost block: seq<word>)
      requires Shaped() && blks.Length == 5 && |block| == 16 && w[i % 16] == W(block, i)
      requires Registers(blks[0], blks[1], blks[2], blks[3], blks[4]) == Steps(start, block, i)
      modifies blks
      ensures Registers(blks[0], blks[1], blks[2], blks[3], blks[4]) == Steps(start, block, i + 1)
    {
      hide W, Step, Tmp, Rotl;
      TmpIs(i, blks[..], w[i % 16]);
      StepParts(i, Steps(start, block, i), W(block, i));
      var tmp := Tmp(i, blks[..], w[i % 16]);
      blks[4] := blks[3];
      blks[3] := blks[2];
      blks[2] := Rotl(blks[1], 30);
      blks[1] := blks[0];
      blks[0] := tmp;
    }

    method Rounds(blks: array<word>, ghost start: Registers, ghost block: seq<word>)
      requires Shaped() && blks.Length == 5 && blks != w && |block| == 16 && Ring(block, 0)
      requires Registers(blks[0], blks[1], blks[2], blks[3], blks[4]) == start
      modifies w, blks
      ensures Registers(blks[0], blks[1], blks[2], blks[3], blks[4]) == Steps(start, block, 80)
    {
      hide W, Steps, Ring, Rotl;
      NoSteps(start, block);
      var i := 0;
      while i < 80
        invariant i <= 80 && Ring(block, if i < 16 then 0 else i - 16)
        invariant Registers(blks[0], blks[1], blks[2], blks[3], blks[4]) == Steps(start, block, i)
      {
        if i >= 16 { Expand(i, block); }
        RingAt(block, if i < 16 then 0 else i - 15, i);
        Round(blks, i, start, block);
        i := i + 1;
      }
    }

    /** SHA1_ProcessBlock */
    method ProcessBlock()
      requires Shaped()
      modifies h, w
      ensures State() == old(Compress(State(), Words(buffer[..])))
    {
      hide W, Steps, Words, Ring;
      ghost var start, block := State(), Words(buffer[..]);
      var blks := new word[5] [h[0], h[1], h[2], h[3], h[4]];
      LoadWords();
      Rounds(blks, start, block);
      AddBack(blks);
    }

    method AddBack(blks: array<word>)
      requires Shaped() && blks.Length == 5 && blks != h
      modifies h
      ensures State() == Add(old(State()), Registers(blks[0], blks[1], blks[2], blks[3], blks[4]))
    {
      hide Plus;
      var i := 0;
      while i < 5
        invariant i <= 5 && forall j | 0 <= j < 5 :: h[j] == if j < i then Plus(old(h[j]), blks[j]) else old(h[j])
      {
        h[i] := Plus(h[i], blks[i]);
        i := i + 1;
      }
    }

    static lemma NoSteps(start: Registers, block: seq<word>)
      requires |block| == 16
      ensures Steps(start, block, 0) == start
    {
    }

    lemma RingAt(block: seq<word>, n: nat, i: nat)
      requires |block| == 16 && w.Length == 16 && Ring(block, n) && n <= i < n + 16
      ensures w[i % 16] == W(block, i)
    {
    }

    lemma StepParts(t: nat, r: Registers, x: word)
      ensures var s := Step(t, r, x); s.b == r.a && s.c == Rotl(r.b, 30) && s.d == r.c && s.e == r.d
    {
    }

    lemma FirstRing(block: seq<word>)
      requires |block| == 16 && w.Length == 16 && forall j | 0 <= j < 16 :: w[j] == block[j]
      ensures Ring(block, 0)
    {
    }

    /** The buffer is full: its block goes into the registers. */
    method Absorb()
      requires Shaped()
      modifies h, w, this`size
      ensures State() == Hash(old(State()), buffer[..]) && size == 0
    {
      HashOne(State(), buffer[..]);
      hide Compress, Words, Hash;
      ProcessBlock();
      size := 0;
    }

    /** SHA1_Update */
    method Update(data: seq<octet>)
      requires Valid()
      modifies this, h, buffer, w
      ensures Valid() && message == old(message) + data
    {
      hide Hash;
      var len: nat, at: nat := |data|, 0;
      assert data[..0] == [] && message + [] == message;
      while len > 0
        invariant at <= |data| && len == |data| - at && Valid() && message == old(message) + data[..at]
        decreases len
      {
        var n := 64 - size;
        if len < n { n := len; }
        var chunk := data[at..at + n];
        assert old(message) + data[..at] + chunk == old(message) + data[..at + n];
        Chunk(chunk);
        at := at + n;
        len := len - n;
      }
      assert data[..at] == data;
    }

    /** One turn of the loop: no more than the buffer has room for. */
    method Chunk(chunk: seq<octet>)
      requires Valid() && 0 < |chunk| <= 64 - size
      modifies this, h, buffer, w
      ensures Valid() && message == old(message) + chunk
    {
      hide Hash;
      ghost var m, whole := message, |message| - size;
      CopyIn(chunk);
      total := (total + |chunk|) % 0x1_0000_0000;
      message := m + chunk;
      Grown(m, chunk, size);
      if size + |chunk| == 64 {
        assert buffer[..] == buffer[..64];
        HashAppend(H0, m[..whole], buffer[..]);
        Absorb();
      } else {
        size := size + |chunk|;
      }
    }

    method CopyIn(chunk: seq<octet>)
      requires Shaped() && |chunk| <= 64 - size
      modifies buffer
      ensures buffer[..size + |chunk|] == old(buffer[..size]) + chunk
    {
      forall i | 0 <= i < |chunk| { buffer[size + i] := chunk[i]; }
    }

    /** How the whole blocks and the rest of a message change when a chunk is added. */
    static lemma Grown(m: seq<octet>, chunk: seq<octet>, size: nat)
      requires size == |m| % 64 && |chunk| <= 64 - size
      ensures var n, whole := m + chunk, |m| - size;
              && (|m| % 0x1_0000_0000 + |chunk|) % 0x1_0000_0000 == |n| % 0x1_0000_0000 && whole % 64 == 0
              && (size + |chunk| == 64 ==>
                   |n| % 64 == 0 && n[..|n|] == m[..whole] + (m[whole..] + chunk) && n[|n|..] == [])
              && (size + |chunk| < 64 ==>
                   |n| % 64 == size + |chunk| && n[..whole] == m[..whole] && n[whole..] == m[whole..] + chunk)
    {
      Counts(|m|, |chunk|);
      Wraps(|m|, |chunk|);
      var n, whole := m + chunk, |m| - size;
      assert n[..whole] == m[..whole];
      assert n[whole..] == m[whole..] + chunk;
      assert n == n[..whole] + n[whole..];
    }

    static lemma Counts(n: nat, k: nat)
      requires k <= 64 - n % 64
      ensures
        && (n - n % 64) % 64 == 0 && (n % 64 + k == 64 ==> (n + k) % 64 == 0)
        && (n % 64 + k < 64 ==> (n + k) % 64 == n % 64 + k)
    {
      var q := n / 64;
      assert n == 64 * q + n % 64;
    }

    static lemma Wraps(n: nat, k: nat)
      ensures (n % 0x1_0000_0000 + k) % 0x1_0000_0000 == (n + k) % 0x1_0000_0000
    {
      var q, r := n / 0x1_0000_0000, n % 0x1_0000_0000;
      assert n + k == 0x1_0000_0000 * q + (r + k);
    }

    /** SHA1_Final: the digest of the message padded with its length in bits as an unsigned int has it. */
    method Final() returns (md: seq<octet>)
      requires Valid()
      modifies this, h, buffer, w
      ensures md == Bytes(Hash(H0, PadWith(old(message), 8 * |old(message)| % 0x1_0000_0000)))
      ensures |old(message)| < 0x2000_0000 ==> md == Digest(old(message))
    {
      hide Hash, Bytes, Length64, PadWith, Pad;
      ghost var m := message;
      var bits := total * 8 % 0x1_0000_0000;
      BitsOf(|m|);
      if |m| < 0x2000_0000 { PadIff(m); }
      var padAmount := if size < 56 then 56 - size else 64 + 56 - size;
      PadParts(m, padAmount, bits);
      Update(PAD[..padAmount]);
      LastBlock(bits);
      md := Bytes(State());
    }

    /** The length goes behind the padding, and the last block is taken in. */
    method LastBlock(bits: nat)
      requires Valid() && size == 56 && bits < 0x1_0000_0000
      modifies this, h, buffer, w
      ensures State() == Hash(H0, old(message) + Length64(bits))
      ensures h.Length == 5
    {
      hide Hash, Length64;
      ghost var front := message[..|message| - 56];
      WriteLength(bits);
      HashAppend(H0, front, buffer[..]);
      assert message + Length64(bits) == front + (message[|message| - 56..] + Length64(bits));
      Absorb();
    }

    static lemma BitsOf(n: nat)
      ensures (n % 0x1_0000_0000) * 8 % 0x1_0000_0000 == 8 * n % 0x1_0000_0000
    {
      var q := n / 0x1_0000_0000;
      assert 8 * n == (n % 0x1_0000_0000) * 8 + (8 * q) * 0x1_0000_0000;
    }

    /** The padding written by Update, and the length behind it, are the padding of the message. */
    static lemma PadParts(m: seq<octet>, padAmount: nat, bits: nat)
      requires padAmount == if |m| % 64 < 56 then 56 - |m| % 64 else 120 - |m| % 64
      ensures padAmount <= |PAD| && (|m| + padAmount) % 64 == 56
      ensures PadWith(m, bits) == (m + PAD[..padAmount]) + Length64(bits)
    {
      PadSlice(padAmount);
      PadCount(|m|, padAmount);
      hide Length64;
      assert PadWith(m, bits) == m + ([0x80] + seq(Zeros(|m|), _ => 0)) + Length64(bits);
    }

    static lemma PadSlice(n: nat)
      requires 1 <= n <= 64
      ensures |PAD| == 64 && PAD[..n] == [0x80] + seq(n - 1, _ => 0)
    {
    }

    static lemma PadCount(n: nat, padAmount: nat)
      requires padAmount == if n % 64 < 56 then 56 - n % 64 else 120 - n % 64
      ensures 1 <= padAmount <= 64 && (n + padAmount) % 64 == 56 && Zeros(n) == padAmount - 1
    {
      var q, r := n / 64, n % 64;
      assert n == 64 * q + r;
      if r < 56 { assert n + padAmount == 64 * q + 56; } else { assert n + padAmount == 64 * (q + 1) + 56; }
    }

    method WriteLength(bits: nat)
      requires Shaped() && bits < 0x1_0000_0000
      modifies buffer
      ensures buffer[..] == old(buffer[..56]) + Length64(bits)
    {
      var l := Length64(bits);
      LengthSize(bits);
      hide Length64;
      forall i | 0 <= i < 8 { buffer[56 + i] := l[i]; }
    }

    static lemma LengthSize(bits: nat)
      ensures |Length64(bits)| == 8
    {
    }
  }
}
