/** Base64 (the portable branch of Base64.c): decoding undoes encoding, and the lengths are exact. */
module Base64 {
  import opened Packets

  /** Sizes are unsigned ints. */
  const SIZES := 0x1_0000_0000

  const NV := 64

  /** BASE64_ENCODE_TABLE; entry 64 is the padding character. */
  function EncodeTable(v: nat): int
    requires v <= 64
  {
    if v < 26 then 65 + v else if v < 52 then 97 + (v - 26) else if v < 62 then 48 + (v - 52)
        else if v == 62 then 43 else if v == 63 then 47 else 61
  }

  /** BASE64_DECODE_TABLE; NV marks the characters that stand for nothing. */
  function DecodeTable(c: byte): (v: nat)
    ensures v <= NV
  {
    if 65 <= c <= 90 then c - 65 else if 97 <= c <= 122 then c - 97 + 26 else if 48 <= c <= 57 then c - 48 + 52
    else if c == 43 then 62 else if c == 47 then 63 else NV
  }

  /** Bitwise or. */
  function Or(x: nat, y: nat): nat {
    if x == 0 && y == 0 then 0 else 2 * Or(x / 2, y / 2) + if x % 2 == 1 || y % 2 == 1 then 1 else 0
  }

  lemma {:induction false} OrZero(x: nat)
    ensures Or(x, 0) == x && Or(0, x) == x
  {
    if x > 0 { OrZero(x / 2); }
  }

  /** Bits that do not meet add up. */
  lemma {:induction false} OrAdds(x: nat, k: nat, y: nat)
    requires y < Pow2(k)
    ensures Or(x * Pow2(k), y) == x * Pow2(k) + y
    decreases k
  {
    if k == 0 {
      OrZero(x);
    } else {
      OrAdds(x, k - 1, y / 2);
      var p := Pow2(k - 1);
      assert Pow2(k) == 2 * p;
      Twice(x, p);
      if !(x * Pow2(k) == 0 && y == 0) { assert (x * Pow2(k)) / 2 == x * p && (x * Pow2(k)) % 2 == 0; }
    }
  }

  function Pow2(k: nat): nat { if k == 0 then 1 else 2 * Pow2(k - 1) }

  lemma Twice(x: nat, p: nat)
    ensures x * (2 * p) == 2 * (x * p)
  {
  }

  // ----- encoding -----

  /** The four indices of a group of one to three bytes. */
  function Indices(g: seq<byte>): seq<nat>
    requires 1 <= |g| <= 3
  {
    var a := g[0] as nat;
    if |g| == 1 then [a / 4, a % 4 * 16, 64, 64]
    else
      var b := g[1] as nat;
      if |g| == 2 then [a / 4, Or(a % 4 * 16, b / 16), b % 16 * 4, 64]
      else
        var c := g[2] as nat;
        [a / 4, Or(a % 4 * 16, b / 16), Or(b % 16 * 4, c / 64), c % 64]
  }

  lemma OrSmall(x: nat, k: nat, y: nat)
    requires (k == 2 && y < 4) || (k == 4 && y < 16) || (k == 6 && y < 64)
    ensures Or(x * (if k == 2 then 4 else if k == 4 then 16 else 64), y) == x * (if k == 2 then 4
              else if k == 4 then 16 else 64) + y
  {
    OrAdds(x, k, y);
    assert Pow2(2) == 4;
    assert Pow2(4) == 4 * Pow2(2);
    assert Pow2(6) == 4 * Pow2(4);
  }

  lemma IndicesSmall(g: seq<byte>)
    requires 1 <= |g| <= 3
    ensures |Indices(g)| == 4 && (forall i | 0 <= i < 4 :: Indices(g)[i] <= 64) && Indices(g)[0] < 64
              && Indices(g)[1] < 64
  {
    OrSmall(g[0] as nat % 4, 4, if |g| > 1 then g[1] as nat / 16 else 0);
    if |g| == 3 { OrSmall(g[1] as nat % 16, 2, g[2] as nat / 64); }
  }

  function Group(g: seq<byte>): (c: seq<byte>)
    requires 1 <= |g| <= 3
    ensures |c| == 4
  {
    IndicesSmall(g);
    var v := Indices(g);
    [EncodeTable(v[0]), EncodeTable(v[1]), EncodeTable(v[2]), EncodeTable(v[3])]
  }

  /** The encoding, a group of up to three bytes after another. */
  function Encoded(data: seq<byte>): (e: seq<byte>)
    ensures |e| == (|data| + 2) / 3 * 4
  {
    if data == [] then []
    else if |data| <= 3 then Group(data)
    else
      assert (|data| + 2) / 3 == 1 + (|data| - 3 + 2) / 3;
      Group(data[..3]) + Encoded(data[3..])
  }

  // ----- decoding -----

  /** What one group of four characters gives when there is room: its bytes, and whether decoding goes on. */
  function Ungroup(c: seq<byte>): (seq<byte>, bool)
    requires |c| == 4
  {
    var v0, v1, v2, v3 := DecodeTable(c[0]), DecodeTable(c[1]), DecodeTable(c[2]), DecodeTable(c[3]);
    var b0 := Or(v0 * 4 % 256, v1 / 16) % 256;
    if v2 >= NV then ([b0], false)
    else
      var b1 := Or(v1 % 16 * 16, v2 / 4) % 256;
      if v3 >= NV then ([b0, b1], false) else ([b0, b1, Or(v2 % 4 * 64, v3) % 256], true)
  }

  function Min(a: nat, b: nat): nat { if a < b then a else b }

  /** Everything the characters decode to, if there is room for it. */
  function Decoded(chars: seq<byte>): seq<byte>
    decreases |chars|
  {
    if |chars| <= 3 then []
    else
      var (b, on) := Ungroup(chars[..4]);
      b + if on then Decoded(chars[4..]) else []
  }

  lemma TableBack(v: nat)
    requires v <= 64
    ensures 0 <= EncodeTable(v) < 256 && DecodeTable(EncodeTable(v)) == v
  {
  }

  /** What encoding makes of three bytes, as sums. */
  lemma Sums(a: nat, b: nat, c: nat)
    requires a < 256 && b < 256 && c < 256
    ensures Or(a % 4 * 16, b / 16) == a % 4 * 16 + b / 16 && Or(b % 16 * 4, c / 64) == b % 16 * 4 + c / 64
    ensures (a % 4 * 16 + b / 16) / 16 == a % 4 && (a % 4 * 16 + b / 16) % 16 == b / 16
    ensures (b % 16 * 4 + c / 64) / 4 == b % 16 && (b % 16 * 4 + c / 64) % 4 == c / 64
  {
    OrSmall(a % 4, 4, b / 16);
    OrSmall(b % 16, 2, c / 64);
    hide Or;
  }

  lemma Rejoin(a: nat)
    requires a < 256
    ensures a / 4 * 4 + a % 4 == a && a / 4 * 4 % 256 == a / 4 * 4 && a / 16 * 16 + a % 16 == a
              && a / 64 * 64 + a % 64 == a
  {
  }

  /** And what decoding makes of the pieces. */
  lemma Joins(a: nat)
    requires a < 256
    ensures Or(a / 4 * 4 % 256, a % 4) == a && Or(a / 16 * 16, a % 16) == a && Or(a / 64 * 64, a % 64) == a
  {
    hide Or;
    OrSmall(a / 4, 2, a % 4);
    OrSmall(a / 16, 4, a % 16);
    OrSmall(a / 64, 6, a % 64);
    Rejoin(a);
  }

  /** The indices in terms of the bytes; a missing byte counts as zero. */
  lemma IndicesAre(g: seq<byte>, a: nat, b: nat, c: nat)
    requires 1 <= |g| <= 3 && a == g[0] && b == (if |g| > 1 then g[1] else 0) && c == if |g| > 2 then g[2] else 0
    ensures var v := Indices(g);
            && |v| == 4 && v[0] == a / 4 && v[1] / 16 == a % 4 && v[1] % 16 == b / 16
            && (if |g| == 1 then v[2] == 64 else v[2] / 4 == b % 16 && v[2] % 4 == c / 64 && v[2] < 64)
            && (if |g| <= 2 then v[3] == 64 else v[3] == c % 64)
  {
    hide Or;
    Sums(a, b, c);
    IndicesSmall(g);
  }

  lemma FirstByte(u: seq<byte>, a: nat, v1: nat)
    requires |u| == 4 && a < 256 && DecodeTable(u[0]) == a / 4 && DecodeTable(u[1]) == v1 && v1 / 16 == a % 4
    ensures Or(DecodeTable(u[0]) * 4 % 256, DecodeTable(u[1]) / 16) % 256 == a
  {
    hide Or, DecodeTable;
    Joins(a);
  }

  /** A group whose characters have the indices of g decodes to g. */
  lemma Ungrouped(u: seq<byte>, g: seq<byte>, v1: nat, v2: nat)
    requires |u| == 4 && 1 <= |g| <= 3
    requires DecodeTable(u[0]) == g[0] / 4 && DecodeTable(u[1]) == v1 && v1 / 16 == g[0] % 4 && DecodeTable(u[2]) == v2
    requires |g| == 1 ==> v2 == 64
    requires |g| > 1 ==> v1 % 16 == g[1] / 16 && v2 < 64 && v2 / 4 == g[1] % 16
    requires |g| == 2 ==> DecodeTable(u[3]) == 64
    requires |g| == 3 ==> v2 % 4 == g[2] / 64 && DecodeTable(u[3]) == g[2] % 64
    ensures Ungroup(u) == (g, |g| == 3)
  {
    hide Or, DecodeTable;
    FirstByte(u, g[0], v1);
    if |g| == 1 {
      assert g == [g[0]];
    } else {
      OtherBytes(g[1], v1 % 16, v2 / 4, 16);
      if |g| == 2 {
        assert g == [g[0], g[1]];
      } else {
        OtherBytes(g[2], v2 % 4, DecodeTable(u[3]), 64);
        assert g == [g[0], g[1], g[2]];
      }
    }
  }

  lemma OtherBytes(a: nat, x: nat, y: nat, p: nat)
    requires a < 256 && (p == 16 || p == 64) && x == a / p && y == a % p
    ensures Or(x * p, y) % 256 == a
  {
    hide Or;
    Joins(a);
  }

  lemma GroupBack(g: seq<byte>)
    requires 1 <= |g| <= 3
    ensures Ungroup(Group(g)) == (g, |g| == 3)
  {
    hide Or, EncodeTable, DecodeTable, Indices, Ungroup;
    IndicesSmall(g);
    var v := Indices(g);
    TableBack(v[0]);
    TableBack(v[1]);
    TableBack(v[2]);
    TableBack(v[3]);
    IndicesAre(g, g[0], if |g| > 1 then g[1] else 0, if |g| > 2 then g[2] else 0);
    Ungrouped(Group(g), g, v[1], v[2]);
  }

  /** Decoding undoes encoding, for every data. */
  lemma {:induction false} DecodedEncoded(data: seq<byte>)
    ensures Decoded(Encoded(data)) == data
  {
    hide Group, Ungroup;
    if data != [] {
      var g := if |data| <= 3 then data else data[..3];
      GroupBack(g);
      if |data| <= 3 {
        assert Encoded(data)[..4] == Group(g);
        assert Encoded(data)[4..] == [];
        assert Decoded([]) == [];
      } else {
        DecodedEncoded(data[3..]);
        assert Encoded(data)[..4] == Group(g);
        assert Encoded(data)[4..] == Encoded(data[3..]);
        assert data == data[..3] + data[3..];
      }
    }
  }

  // ----- the alphabet -----

  const UPPER := "ABCDEFGHIJKLMNOPQRSTUVWXYZ"
  const LOWER := "abcdefghijklmnopqrstuvwxyz"
  const OTHERS := "0123456789+/="

  /** Table 1 of RFC 4648, and the padding character behind it. */
  const ALPHABET := UPPER + LOWER + OTHERS

  predicate Letter(c: byte, v: nat) { v < |ALPHABET| && ALPHABET[v] as int == c }

  lemma Upper(v: nat)
    requires v < 26
    ensures |UPPER| == 26 && UPPER[v] as int == 65 + v
  {
  }

  lemma Lower(v: nat)
    requires v < 26
    ensures |LOWER| == 26 && LOWER[v] as int == 97 + v
  {
  }

  lemma Others(v: nat)
    requires v < 13
    ensures |OTHERS| == 13 && OTHERS[v] as int == EncodeTable(52 + v)
  {
  }

  /** The encoding table is the alphabet. */
  lemma Alphabet(v: nat)
    requires v <= 64
    ensures 0 <= EncodeTable(v) < 256 && Letter(EncodeTable(v), v)
  {
    hide UPPER, LOWER, OTHERS;
    Upper(if v < 26 then v else 0);
    Lower(if 26 <= v < 52 then v - 26 else 0);
    Others(if v >= 52 then v - 52 else 0);
  }

  /** The decoding table finds a character's place in the alphabet, or says that it has none. */
  lemma AlphabetBack(c: byte)
    ensures if DecodeTable(c) < 64 then Letter(c, DecodeTable(c)) else forall v | 0 <= v < 64 :: !Letter(c, v)
  {
    if DecodeTable(c) < 64 { Alphabet(DecodeTable(c)); }
    forall v: nat | v < 64 && DecodeTable(c) == NV ensures !Letter(c, v) { Alphabet(v); }
  }

  function ByteAt(data: seq<byte>, i: nat): nat { if i < |data| then data[i] else 0 }

  /** The four digits to base 64 of the three bytes of data from i on; the digits of no byte are padding. */
  predicate Digits(c: seq<byte>, data: seq<byte>, i: nat) {
    var n := ByteAt(data, i) * 65536 + ByteAt(data, i + 1) * 256 + ByteAt(data, i + 2);
    && |c| == 4 && Letter(c[0], n / 0x4_0000) && Letter(c[1], n / 0x1000 % 64)
    && Letter(c[2], if i + 1 < |data| then n / 64 % 64 else 64) && Letter(c[3], if i + 2 < |data| then n % 64 else 64)
  }

  lemma Sextets(a: nat, b: nat, c: nat)
    requires a < 256 && b < 256 && c < 256
    ensures
      var n := a * 65536 + b * 256 + c;
      && n / 0x4_0000 == a / 4 && n / 0x1000 % 64 == a % 4 * 16 + b / 16 && n / 64 % 64 == b % 16 * 4 + c / 64
      && n % 64 == c % 64
  {
    var n := a * 65536 + b * 256 + c;
    Quotient(n, 0x4_0000, a / 4, a % 4 * 65536 + b * 256 + c);
    Quotient(n, 0x1000, a * 16 + b / 16, b % 16 * 256 + c);
    Quotient(n, 64, a * 1024 + b * 4 + c / 64, c % 64);
    Quotient(a * 16 + b / 16, 64, a / 4, a % 4 * 16 + b / 16);
    Quotient(a * 1024 + b * 4 + c / 64, 64, a * 16 + b / 16, b % 16 * 4 + c / 64);
  }

  lemma Quotient(n: nat, d: nat, q: nat, r: nat)
    requires d > 0 && n == q * d + r && r < d
    ensures n / d == q && n % d == r
  {
    if n / d < q { Less(n / d, q, d); } else if n / d > q { Less(q, n / d, d); }
  }

  lemma {:induction false} Less(x: nat, y: nat, d: nat)
    requires x < y
    ensures x * d + d <= y * d
    decreases y
  {
    assert y * d == (y - 1) * d + d;
    if x < y - 1 { Less(x, y - 1, d); }
  }

  /** The indices of a group are those digits. */
  lemma IndexDigits(g: seq<byte>)
    requires 1 <= |g| <= 3
    ensures
      var n := ByteAt(g, 0) * 65536 + ByteAt(g, 1) * 256 + ByteAt(g, 2);
      Indices(g) == [n / 0x4_0000, n / 0x1000 % 64, if 1 < |g| then n / 64 % 64 else 64, if 2 < |g| then n % 64 else 64]
  {
    hide Or;
    Sums(ByteAt(g, 0), ByteAt(g, 1), ByteAt(g, 2));
    Sextets(ByteAt(g, 0), ByteAt(g, 1), ByteAt(g, 2));
  }

  lemma GroupDigits(g: seq<byte>)
    requires 1 <= |g| <= 3
    ensures Digits(Group(g), g, 0)
  {
    hide Indices, EncodeTable, Letter;
    IndicesSmall(g);
    IndexDigits(g);
    var v := Indices(g);
    Alphabet(v[0]);
    Alphabet(v[1]);
    Alphabet(v[2]);
    Alphabet(v[3]);
  }

  /** Each group of three bytes of the data, or what is left of it, becomes the four digits in its place. */
  lemma {:induction false} EncodedDigits(data: seq<byte>, i: nat)
    requires 3 * i < |data|
    ensures 4 * i + 4 <= |Encoded(data)| && Digits(Encoded(data)[4 * i..4 * i + 4], data, 3 * i)
    decreases i
  {
    hide Group, Letter, Encoded;
    var k := if |data| < 3 then |data| else 3;
    EncodedStep(data);
    if i == 0 {
      GroupDigits(data[..k]);
      assert Encoded(data)[..4] == Group(data[..k]);
    } else {
      EncodedDigits(data[k..], i - 1);
      assert Encoded(data)[4 * i..4 * i + 4] == Encoded(data[k..])[4 * (i - 1)..4 * i];
    }
  }

  /**
   * Four characters decode to the three bytes whose digits to base 64 they are. What is no letter counts as missing:
   * in the third place it leaves one byte and in the fourth two, and ends the decoding.
   */
  lemma UngroupDigits(c: seq<byte>, v0: nat, v1: nat, v2: nat, v3: nat)
    requires |c| == 4 && v0 < 64 && v1 < 64 && v2 < 64 && v3 < 64 && Letter(c[0], v0) && Letter(c[1], v1)
    ensures var n := v0 * 0x4_0000 + v1 * 0x1000 + v2 * 64 + v3;
      && (Letter(c[2], v2) && Letter(c[3], v3) ==> Ungroup(c) == ([n / 0x1_0000, n / 0x100 % 0x100, n % 0x100], true))
      && (Letter(c[2], v2) && DecodeTable(c[3]) == 64 ==> Ungroup(c) == ([n / 0x1_0000, n / 0x100 % 0x100], false))
      && (DecodeTable(c[2]) == 64 ==> Ungroup(c) == ([n / 0x1_0000], false))
  {
    hide Or, DecodeTable, Letter;
    var n := v0 * 0x4_0000 + v1 * 0x1000 + v2 * 64 + v3;
    LetterBack(c[0], v0);
    LetterBack(c[1], v1);
    if Letter(c[2], v2) { LetterBack(c[2], v2); }
    if Letter(c[3], v3) { LetterBack(c[3], v3); }
    JoinsDigits(v0, v1, v2, v3, n);
  }

  lemma LetterBack(c: byte, v: nat)
    requires v < 64 && Letter(c, v)
    ensures DecodeTable(c) == v
  {
    Alphabet(v);
    assert c == EncodeTable(v);
    TableBack(v);
    hide ALPHABET;
  }

  lemma JoinsDigits(v0: nat, v1: nat, v2: nat, v3: nat, n: nat)
    requires v0 < 64 && v1 < 64 && v2 < 64 && v3 < 64 && n == v0 * 0x4_0000 + v1 * 0x1000 + v2 * 64 + v3
    ensures Or(v0 * 4 % 256, v1 / 16) % 256 == n / 0x1_0000
    ensures Or(v1 % 16 * 16, v2 / 4) % 256 == n / 0x100 % 0x100
    ensures Or(v2 % 4 * 64, v3) % 256 == n % 0x100
  {
    hide Or;
    JoinSmall(v0, 4, v1 / 16);
    JoinSmall(v1 % 16, 16, v2 / 4);
    JoinSmall(v2 % 4, 64, v3);
    assert v0 * 4 % 256 == v0 * 4;
    ByteDigits(v0, v1, v2, v3, n);
  }

  lemma JoinSmall(x: nat, p: nat, y: nat)
    requires (p == 4 && x < 64) || (p == 16 && x < 16) || (p == 64 && x < 4)
    requires y < p
    ensures Or(x * p, y) % 256 == x * p + y
  {
    hide Or;
    OrSmall(x, if p == 4 then 2 else if p == 16 then 4 else 6, y);
  }

  lemma ByteDigits(v0: nat, v1: nat, v2: nat, v3: nat, n: nat)
    requires v0 < 64 && v1 < 64 && v2 < 64 && v3 < 64 && n == v0 * 0x4_0000 + v1 * 0x1000 + v2 * 64 + v3
    ensures n / 0x1_0000 == v0 * 4 + v1 / 16 && n / 0x100 % 0x100 == v1 % 16 * 16 + v2 / 4
              && n % 0x100 == v2 % 4 * 64 + v3
  {
    var h1, l1, h2, l2 := v1 / 16, v1 % 16, v2 / 4, v2 % 4;
    Quotient(n, 0x1_0000, v0 * 4 + h1, l1 * 4096 + v2 * 64 + v3);
    Quotient(n, 0x100, v0 * 1024 + v1 * 16 + h2, l2 * 64 + v3);
    Quotient(v0 * 1024 + v1 * 16 + h2, 0x100, v0 * 4 + h1, l1 * 16 + h2);
  }

  // ----- the lengths -----

  /** Base64_encodeLength, in unsigned int arithmetic. */
  function EncodeLength(n: nat): nat {
    (4 * n % SIZES / 3 + 3) % SIZES / 4 * 4
  }

  /** The length function is exact precisely while four times the length does not wrap around. */
  lemma EncodeLengthIff(data: seq<byte>)
    requires |data| < SIZES
    ensures EncodeLength(|data|) == |Encoded(data)| <==> |data| < 0x4000_0000
  {
    var n := |data|;
    if n < 0x4000_0000 { LengthSmall(n); } else { LengthWraps(n, 4 * n % SIZES); }
  }

  lemma LengthSmall(n: nat)
    requires n < 0x4000_0000
    ensures EncodeLength(n) == (n + 2) / 3 * 4
  {
    assert 4 * n % SIZES == 4 * n;
    assert 4 * n / 3 + 3 < SIZES;
  }

  lemma LengthWraps(n: nat, m: nat)
    requires 0x4000_0000 <= n < SIZES && m == 4 * n % SIZES
    ensures EncodeLength(n) < (n + 2) / 3 * 4
  {
    assert m < SIZES && m <= 4 * n - SIZES;
    var x := m / 3 + 3;
    assert x < SIZES;
    assert x / 4 * 4 <= x;
  }

  /** Base64_decodeLength */
  function DecodeLength(chars: seq<byte>): int {
    |chars| / 4 * 3 - (if |chars| > 1 && chars[|chars| - 2] == 61 then 1 else 0) - if |chars| > 0
        && chars[|chars| - 1] == 61 then 1 else 0
  }

  lemma GroupEnd(g: seq<byte>)
    requires 1 <= |g| <= 3
    ensures (Group(g)[2] == 61 <==> |g| == 1) && (Group(g)[3] == 61 <==> |g| <= 2)
  {
    hide Or;
    IndicesSmall(g);
    if |g| >= 2 { Sums(g[0], g[1], if |g| > 2 then g[2] as nat else 0); }
  }

  /** The last characters of a longer encoding are those of its rest. */
  lemma EncodedEnd(data: seq<byte>)
    requires |data| > 3
    ensures var e, r := Encoded(data), Encoded(data[3..]);
            |r| >= 4 && |e| == |r| + 4 && e[|e| - 1] == r[|r| - 1] && e[|e| - 2] == r[|r| - 2]
  {
    hide Group;
    var e, r := Encoded(data), Encoded(data[3..]);
    assert e == Group(data[..3]) + r;
  }

  /** For what was encoded the decoded length is the length of the data. */
  lemma {:induction false} DecodeLengthExact(data: seq<byte>)
    ensures DecodeLength(Encoded(data)) == |data|
  {
    hide Group;
    if |data| > 3 {
      DecodeLengthExact(data[3..]);
      EncodedEnd(data);
      hide Encoded;
    } else if data != [] {
      GroupEnd(data);
      assert Encoded(data) == Group(data);
    }
  }

  // ----- the loops -----

  /** As many of a group's bytes as there is room for. */
  method Put(out: array<byte>, at: nat, b: seq<byte>) returns (n: nat)
    requires at <= out.Length
    modifies out
    ensures n == Min(|b|, out.Length - at) && out[..at + n] == old(out[..at]) + b[..n]
  {
    n := Min(|b|, out.Length - at);
    forall i | 0 <= i < n { out[at + i] := b[i]; }
  }

  lemma EncodedStep(data: seq<byte>)
    requires data != []
    ensures var k := if |data| < 3 then |data| else 3; Encoded(data) == Group(data[..k]) + Encoded(data[k..])
  {
    hide Group;
    if |data| <= 3 {
      var k := if |data| < 3 then |data| else 3;
      assert data[..k] == data && data[k..] == [];
    }
  }

  /**
   * Base64_encode: as many groups as the buffer has room to begin, and the number of characters written,
   * or 0 if the last group did not fit. A buffer of the length Base64_encodeLength gives takes everything.
   */
  method Encode(out: array<byte>, input: seq<byte>) returns (ret: nat)
    requires out.Length <= SIZES - 4
    modifies out
    ensures ret <= out.Length && ret <= |Encoded(input)| && out[..ret] == Encoded(input)[..ret]
    ensures |Encoded(input)| <= out.Length ==> ret == |Encoded(input)|
    ensures ret % 4 == 0 && (|Encoded(input)| < out.Length ==> out[ret] == 0)
  {
    hide Encoded, Indices, EncodeTable, Or;
    var at: nat, outCount: nat := 0, 0;
    ghost var whole := Encoded(input);
    assert input[0..] == input;
    while at < |input| && outCount < out.Length
      invariant at <= |input| && outCount % 4 == 0 && outCount <= |whole| && whole[outCount..] == Encoded(input[at..])
      invariant outCount <= out.Length ==> out[..outCount] == whole[..outCount]
      invariant outCount > out.Length ==> |whole| > out.Length
      decreases |input| - at
    {
      var k := if |input| - at < 3 then |input| - at else 3;
      var g := input[at..at + k];
      EncodedStep(input[at..]);
      assert input[at..][..k] == g && input[at..][k..] == input[at + k..];
      var c := Group(g);
      var before := outCount;
      outCount := outCount + 4;
      Extend(whole, before, c, Encoded(input[at + k..]));
      if outCount <= out.Length {
        var n := Put(out, before, c);
        assert c[..n] == c && out[..outCount] == whole[..before] + c;
      }
      at := at + k;
    }
    if at == |input| { assert input[at..] == []; EmptyEncoded(); }
    ret := 0;
    if outCount <= out.Length {
      if outCount < out.Length { out[outCount] := 0; }
      ret := outCount;
    }
  }

  lemma EmptyEncoded()
    ensures Encoded([]) == []
  {
  }

  /** One more group of a string whose rest begins with it. */
  lemma Extend(whole: seq<byte>, n: nat, c: seq<byte>, rest: seq<byte>)
    requires n <= |whole| && whole[n..] == c + rest
    ensures n + |c| <= |whole| && whole[..n + |c|] == whole[..n] + c && whole[n + |c|..] == rest
  {
    assert whole == whole[..n] + (c + rest);
  }

  lemma Cut(b: seq<byte>, n: nat, more: seq<byte>)
    requires n <= |b|
    ensures b + more == b[..n] + (b[n..] + more) && (n == |b| ==> b[n..] + more == more)
  {
  }

  /**
   * Base64_decode: the bytes of each group as far as there is room. A buffer of the decoded length takes everything.
   */
  method Decode(out: array<byte>, chars: seq<byte>) returns (ret: nat)
    modifies out
    ensures ret <= out.Length && ret <= |Decoded(chars)| && out[..ret] == Decoded(chars)[..ret]
    ensures |Decoded(chars)| <= out.Length ==> ret == |Decoded(chars)|
    ensures ret < out.Length ==> out[ret] == 0
  {
    hide Decoded, Ungroup, Left;
    var at: nat, inLen: nat, outCount: nat := 0, |chars|, 0;
    ghost var whole := Decoded(chars);
    assert chars[0..] == chars;
    LeftIs(chars, 0, |chars|);
    while inLen > 3 && outCount < out.Length
      invariant at <= |chars| && (inLen == 0 || at + inLen == |chars|)
      invariant outCount <= out.Length && outCount <= |whole| && out[..outCount] == whole[..outCount]
      invariant outCount == out.Length || whole[outCount..] == Left(chars, at, inLen)
      decreases inLen
    {
      var (b, on) := Ungroup(chars[at..at + 4]);
      ghost var before := outCount;
      LeftSplits(chars, at, inLen);
      var n := Put(out, outCount, b);
      at, inLen := at + 4, if on then inLen - 4 else 0;
      Cut(b, n, Left(chars, at, inLen));
      Extend(whole, before, b[..n], b[n..] + Left(chars, at, inLen));
      outCount := outCount + n;
    }
    LeftShort(chars, at, inLen);
    ret := outCount;
    if outCount < out.Length { out[outCount] := 0; }
  }

  /** One group of what is left. */
  lemma LeftSplits(chars: seq<byte>, at: nat, inLen: nat)
    requires at + inLen == |chars| && inLen > 3
    ensures var (b, on) := Ungroup(chars[at..at + 4]);
              1 <= |b| <= 3 && Left(chars, at, inLen) == b + Left(chars, at + 4, if on then inLen - 4 else 0)
  {
    hide Ungroup, Decoded;
    DecodedStep(chars[at..]);
    assert chars[at..][..4] == chars[at..at + 4] && chars[at..][4..] == chars[at + 4..];
    LeftIs(chars, at + 4, inLen - 4);
  }

  lemma LeftShort(chars: seq<byte>, at: nat, inLen: nat)
    requires at <= |chars| && (inLen == 0 || at + inLen == |chars|)
    ensures inLen <= 3 ==> Left(chars, at, inLen) == []
  {
    if inLen <= 3 && inLen != 0 { ShortDecoded(chars[at..]); }
  }

  /** What is left to decode. */
  ghost function Left(chars: seq<byte>, at: nat, inLen: nat): seq<byte>
    requires at <= |chars|
  {
    if inLen == 0 then [] else Decoded(chars[at..])
  }

  /** Nothing is left behind the last character. */
  lemma LeftIs(chars: seq<byte>, at: nat, inLen: nat)
    requires at + inLen == |chars|
    ensures Left(chars, at, inLen) == Decoded(chars[at..])
  {
    if inLen == 0 { ShortDecoded(chars[at..]); }
  }

  lemma ShortDecoded(c: seq<byte>)
    requires |c| <= 3
    ensures Decoded(c) == []
  {
  }

  lemma DecodedStep(c: seq<byte>)
    requires |c| > 3
    ensures var (b, on) := Ungroup(c[..4]);
              1 <= |b| <= 3 && (on ==> |b| == 3) && Decoded(c) == b + if on then Decoded(c[4..]) else []
  {
    hide Or;
  }

  /** With buffers of the lengths the length functions give, decoding what was encoded gives back the data. */
  method RoundTrip(data: seq<byte>) returns (back: seq<byte>)
    requires |data| < 0x4000_0000
    ensures back == data
  {
    hide Encoded, Decoded;
    EncodeLengthIff(data);
    var chars := new byte[EncodeLength(|data|)];
    var n := Encode(chars, data);
    DecodeLengthExact(data);
    DecodedEncoded(data);
    assert chars[..n] == Encoded(data);
    var bytes := new byte[DecodeLength(chars[..n])];
    var k := Decode(bytes, chars[..n]);
    back := bytes[..k];
  }
}
