/** The primitive readers and writers of MQTTPacket.c, on a buffer and a position in it. */
module Codec {
  import opened Packets
  import opened Frames

  /** A value read and the position behind it; Overrun where the code reads past the buffer without a check. */
  datatype Got<T> = Got(value: T, pos: nat) | Refused | Overrun

  /** What is stored when an int is assigned to a char. */
  function Char(x: int): byte { x % 256 }

  /** C division and remainder, which truncate toward zero. */
  function CDiv(a: int, b: int): int
    requires b > 0
  {
    if a >= 0 then a / b else -((-a) / b)
  }

  function CMod(a: int, b: int): int
    requires b > 0
  {
    a - b * CDiv(a, b)
  }

  // ----- variable byte integers -----

  /** MQTTPacket_encode */
  function Encode(n: nat): (b: seq<byte>)
    ensures b != []
  {
    if n < 128 then [n] else [n % 128 + 128] + Encode(n / 128)
  }

  /** MQTTPacket_VBIlen */
  function VbiLen(n: int): nat {
    if n < 128 then 1 else if n < 16384 then 2 else if n < 2097152 then 3 else 4
  }

  const VBI_LIMIT := 268435456

  /** The length function counts the bytes of the encoding exactly where four bytes are enough. */
  lemma VbiLenIff(n: nat)
    ensures |Encode(n)| == VbiLen(n) <==> n < VBI_LIMIT
    ensures |Encode(n)| >= VbiLen(n)
  {
    if n >= 128 {
      var a := n / 128;
      assert |Encode(n)| == 1 + |Encode(a)|;
      if a >= 128 {
        var b := a / 128;
        assert |Encode(a)| == 1 + |Encode(b)|;
        if b >= 128 {
          var c := b / 128;
          assert |Encode(b)| == 1 + |Encode(c)|;
          if c >= 128 { assert |Encode(c)| >= 2; }
        }
      }
    }
  }

  /** What the stream reader and the buffer reader make of an encoding: the number, and nothing behind it. */
  lemma {:induction false} DecodeEncode(n: nat, k: nat, more: seq<byte>)
    requires k <= 4 && |Encode(n)| + k <= 4
    ensures LengthOf(Encode(n) + more, k) == Full(|Encode(n)|, n)
    decreases 4 - k
  {
    var b := Encode(n) + more;
    if n >= 128 {
      assert b[1..] == Encode(n / 128) + more;
      DecodeEncode(n / 128, k + 1, more);
    }
  }

  /** MQTTPacket_VBIdecode on a buffer: a fifth length byte is not read, but counted. */
  function ReadVbi(mem: seq<byte>, pos: nat): (r: Got<int>)
    ensures r.Got? ==> r.pos > pos && r.value >= 0
  {
    if pos > |mem| then Overrun
    else match LengthOf(mem[pos..], 0)
      case Full(n, v) => Got(v, pos + n)
      case Short => Overrun
      case Bad => if pos + 4 <= |mem| && Partial(mem[pos..pos + 4]) >= 0 then Got(Partial(mem[pos..pos + 4]), pos + 5)
          else Overrun
  }

  // ----- fixed width integers and strings -----

  /** writeInt */
  function Int2(n: int): seq<byte> { [Char(CDiv(n, 256)), Char(CMod(n, 256))] }

  /** writeInt4, whose argument is a signed int. */
  function Int4(n: int): seq<byte> {
    var a := CMod(n, 16777216);
    var b := CMod(a, 65536);
    [Char(CDiv(n, 16777216)), Char(CDiv(a, 65536)), Char(CDiv(b, 256)), Char(CMod(b, 256))]
  }

  /** An unsigned int passed as an int. */
  function Signed(n: int): int { if n >= 0x8000_0000 then n - 0x1_0000_0000 else n }

  function ReadInt(mem: seq<byte>, pos: nat): Got<nat> {
    if pos + 2 <= |mem| then Got(256 * (mem[pos] as int) + mem[pos + 1] as int, pos + 2) else Overrun
  }

  /** readInt4, its int result stored in an unsigned int. */
  function ReadInt4(mem: seq<byte>, pos: nat): Got<nat> {
    if pos + 4 <= |mem| then Got(Value4(mem[pos..pos + 4]), pos + 4) else Overrun
  }

  function ReadChar(mem: seq<byte>, pos: nat): Got<byte> {
    if pos < |mem| then Got(mem[pos], pos + 1) else Overrun
  }

  /** writeMQTTLenString, and writeUTF */
  function LenString(d: seq<byte>): seq<byte> { Int2(|d|) + d }

  /** MQTTLenStringRead and readUTFlen: `end` is the end of the data. */
  function ReadLenString(mem: seq<byte>, pos: nat, end: nat): Got<seq<byte>> {
    if end <= pos + 1 then Refused
    else match ReadInt(mem, pos)
      case Got(len, p) => if p + len <= end then (if p + len <= |mem| then Got(mem[p..p + len], p + len) else Overrun)
          else Refused
      case _ => Overrun
  }

  function Value4(b: seq<byte>): nat
    requires |b| == 4
  {
    16777216 * (b[0] as int) + 65536 * (b[1] as int) + 256 * (b[2] as int) + b[3] as int
  }

  lemma Int2Is(n: nat)
    ensures |Int2(n)| == 2 && 256 * (Int2(n)[0] as int) + (Int2(n)[1] as int) == n % 65536
  {
    var q := n / 256;
    assert q % 256 == q - 256 * (q / 256);
    assert q / 256 == n / 65536;
  }

  /** The base-256 digits of a size. */
  lemma Digits(n: int) returns (a: int, b: int, c: int, d: int)
    requires 0 <= n <= 0x8000_0000
    ensures n == 16777216 * a + 65536 * b + 256 * c + d && 0 <= a <= 128 && 0 <= b < 256 && 0 <= c < 256 && 0 <= d < 256
  {
    var m := n % 16777216;
    var k := m % 65536;
    a, b, c, d := n / 16777216, m / 65536, k / 256, k % 256;
  }

  lemma Split24(n: int, q: int, r: int)
    requires n == 16777216 * q + r && 0 <= r < 16777216
    ensures n / 16777216 == q && n % 16777216 == r
  {
  }

  lemma Split16(n: int, q: int, r: int)
    requires n == 65536 * q + r && 0 <= r < 65536
    ensures n / 65536 == q && n % 65536 == r
  {
  }

  lemma Split8(n: int, q: int, r: int)
    requires n == 256 * q + r && 0 <= r < 256
    ensures n / 256 == q && n % 256 == r
  {
  }

  /** Truncating division takes the digits of a size apart... */
  lemma Int4Plus(a: int, b: int, c: int, d: int)
    requires 0 <= a <= 128 && 0 <= b < 256 && 0 <= c < 256 && 0 <= d < 256
    ensures Int4(16777216 * a + 65536 * b + 256 * c + d) == [Char(a), Char(b), Char(c), Char(d)]
  {
    hide CDiv, CMod, Char;
    Split24(16777216 * a + 65536 * b + 256 * c + d, a, 65536 * b + 256 * c + d);
    Split16(65536 * b + 256 * c + d, b, 256 * c + d);
    Split8(256 * c + d, c, d);
    DivMod(16777216 * a + 65536 * b + 256 * c + d, 16777216);
    DivMod(65536 * b + 256 * c + d, 65536);
    DivMod(256 * c + d, 256);
  }

  /** ... and those of its negation with the sign kept. */
  lemma Int4Minus(a: int, b: int, c: int, d: int)
    requires 0 <= a <= 128 && 0 <= b < 256 && 0 <= c < 256 && 0 <= d < 256
    ensures Int4(-(16777216 * a + 65536 * b + 256 * c + d)) == [Char(-a), Char(-b), Char(-c), Char(-d)]
  {
    hide CDiv, CMod, Char;
    Split24(16777216 * a + 65536 * b + 256 * c + d, a, 65536 * b + 256 * c + d);
    Split16(65536 * b + 256 * c + d, b, 256 * c + d);
    Split8(256 * c + d, c, d);
    DivMod(16777216 * a + 65536 * b + 256 * c + d, 16777216);
    DivMod(65536 * b + 256 * c + d, 65536);
    DivMod(256 * c + d, 256);
  }

  lemma DivMod(n: int, b: int)
    requires b > 0 && n >= 0
    ensures CDiv(n, b) == n / b && CMod(n, b) == n % b
    ensures CDiv(-n, b) == -(n / b) && CMod(-n, b) == -(n % b)
  {
    if n == 0 { assert 0 / b == 0; }
  }

  /** writeInt4 and readInt4 undo each other exactly for values an int can hold and for multiples of 2^24. */
  lemma Int4Iff(n: int)
    requires 0 <= n < 0x1_0000_0000
    ensures |Int4(Signed(n))| == 4
    ensures Value4(Int4(Signed(n))) == n <==> n < 0x8000_0000 || n % 16777216 == 0
  {
    hide Int4;
    var a, b, c, d := Digits(if n < 0x8000_0000 then n else 0x1_0000_0000 - n);
    if n < 0x8000_0000 {
      Int4Plus(a, b, c, d);
    } else {
      Int4Minus(a, b, c, d);
      CharNegative(a);
      CharNegative(b);
      CharNegative(c);
      CharNegative(d);
      Borrow(n, a, b, c, d);
      hide Char;
    }
  }

  lemma CharNegative(a: int)
    requires 0 <= a < 256
    ensures Char(-a) == if a == 0 then 0 else 256 - a
  {
  }

  lemma Borrow(n: int, a: int, b: int, c: int, d: int)
    requires 0x8000_0000 <= n < 0x1_0000_0000 && 0x1_0000_0000 - n == 16777216 * a + 65536 * b + 256 * c + d
    requires 0 <= a <= 128 && 0 <= b < 256 && 0 <= c < 256 && 0 <= d < 256
    ensures n % 16777216 == 0 <==> b == 0 && c == 0 && d == 0
  {
    var r := 65536 * b + 256 * c + d;
    if r == 0 { Split24(n, 256 - a, 0); } else { Split24(n, 255 - a, 16777216 - r); }
  }

  /** A length-prefixed string is read back whole exactly if its length fits two bytes. */
  lemma LenStringIff(d: seq<byte>, more: seq<byte>)
    ensures var mem := LenString(d) + more;
            ReadLenString(mem, 0, |mem|) == Got(d, |d| + 2) <==> |d| < 65536
  {
    Int2Is(|d|);
    TwoAhead(Int2(|d|), d, more);
    ReadLenStringIs(LenString(d) + more, 0, 2 + |d| + |more|);
    hide Int2, ReadLenString;
  }

  lemma ReadLenStringIs(mem: seq<byte>, pos: nat, end: nat)
    requires pos + 2 <= |mem| && end == |mem|
    ensures var len := 256 * (mem[pos] as int) + (mem[pos + 1] as int); var p := pos + 2;
            ReadLenString(mem, pos, end) == if p + len <= end then Got(mem[p..p + len], p + len) else Refused
  {
  }

  lemma TwoAhead(a: seq<byte>, d: seq<byte>, more: seq<byte>)
    requires |a| == 2
    ensures var mem := a + d + more;
            |mem| == 2 + |d| + |more| && mem[0] == a[0] && mem[1] == a[1] && mem[2..2 + |d|] == d
  {
  }
}
