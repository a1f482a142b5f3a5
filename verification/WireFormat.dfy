/** The byte layouts of sections 1.5, 2.1 and 3.3 of MQTT 5, byte for byte, and what the codecs make of them. */
module WireFormat {
  import opened Common
  import opened Packets
  import opened Frames
  import opened Codec
  import P = Properties
  import K = PublishPackets
  import W = PacketWriting

  // ----- integers -----

  function At(b: seq<byte>, i: nat): int
    requires i < |b|
  {
    b[i]
  }

  /** A length of one to four bytes: seven bits each, the lowest first, and the top bit on all but the last. */
  predicate LengthBytes(b: seq<byte>, n: int) {
    match |b|
    case 1 => At(b, 0) < 128 && n == At(b, 0)
    case 2 => At(b, 0) >= 128 > At(b, 1) && n == At(b, 0) - 128 + 128 * At(b, 1)
    case 3 =>
      At(b, 0) >= 128 && At(b, 1) >= 128 > At(b, 2)
      && n == At(b, 0) - 128 + 128 * (At(b, 1) - 128) + 16384 * At(b, 2)
    case 4 =>
      At(b, 0) >= 128 && At(b, 1) >= 128 && At(b, 2) >= 128 > At(b, 3)
      && n == At(b, 0) - 128 + 128 * (At(b, 1) - 128) + 16384 * (At(b, 2) - 128) + 2097152 * At(b, 3)
    case _ => false
  }

  /** The length bytes one after another. */
  lemma LengthSteps(t: seq<byte>)
    ensures LengthOf(t, 0) ==
      if t == [] then Short
      else if At(t, 0) < 128 then Full(1, At(t, 0))
      else if |t| == 1 then Short
      else if At(t, 1) < 128 then Full(2, At(t, 0) - 128 + 128 * At(t, 1))
      else if |t| == 2 then Short
      else if At(t, 2) < 128 then Full(3, At(t, 0) - 128 + 128 * (At(t, 1) - 128) + 16384 * At(t, 2))
      else if |t| == 3 then Short
      else if At(t, 3) < 128 then
        Full(4, At(t, 0) - 128 + 128 * (At(t, 1) - 128) + 16384 * (At(t, 2) - 128) + 2097152 * At(t, 3))
      else Bad
  {
    NoLength();
    if t != [] {
      LengthStep(t, 0);
      if |t| > 1 { LengthStep(t[1..], 1); }
      if |t| > 2 { LengthStep(t[1..][1..], 2); }
      if |t| > 3 {
        LengthStep(t[1..][1..][1..], 3);
        FifthBad(t[1..][1..][1..][1..]);
      }
    }
    hide LengthOf;
  }

  lemma NoLength()
    ensures LengthOf([], 0) == Short && LengthOf([], 1) == Short && LengthOf([], 2) == Short && LengthOf([], 3) == Short
  {
  }

  lemma FifthBad(t: seq<byte>)
    ensures LengthOf(t, 4) == Bad
  {
  }

  /** A header is complete exactly when the bytes of a length follow its first byte; it announces that length. */
  lemma HeadFullIff(b: seq<byte>, size: nat, n: int)
    ensures HeadOf(b) == Full(size, n) <==> 2 <= size <= |b| && LengthBytes(b[1..size], n)
  {
    if b != [] { LengthSteps(b[1..]); }
    hide LengthOf;
  }

  /** It is bad data exactly when all of four bytes behind the first one announce another. */
  lemma HeadBadIff(b: seq<byte>)
    ensures HeadOf(b) == Bad <==> |b| >= 5 && b[1] >= 128 && b[2] >= 128 && b[3] >= 128 && b[4] >= 128
  {
    if b != [] { LengthSteps(b[1..]); }
    hide LengthOf;
  }

  /** What is written for a length below 2^28 are the bytes of that length, and no more of them than it needs. */
  lemma EncodeIs(n: nat)
    requires n < 0x1000_0000
    ensures LengthBytes(Encode(n), n) && (|Encode(n)| > 1 ==> Encode(n)[|Encode(n)| - 1] != 0)
  {
    assert Encode(n) == if n < 128 then [n] else [n % 128 + 128] + Encode(n / 128);
    if n >= 128 {
      var a := n / 128;
      assert Encode(a) == if a < 128 then [a] else [a % 128 + 128] + Encode(a / 128);
      if a >= 128 {
        var c := a / 128;
        assert Encode(c) == if c < 128 then [c] else [c % 128 + 128, c / 128];
      }
    }
  }

  /** Two bytes, the highest first. */
  lemma TwoBytes(n: nat)
    requires n < 0x1_0000
    ensures Int2(n) == [n / 0x100, n % 0x100]
  {
    Split8(n, n / 0x100, n % 0x100);
  }

  /** Four bytes, the highest first. */
  lemma FourBytes(n: nat)
    requires n < 0x8000_0000
    ensures Int4(n) == [n / 0x100_0000, n / 0x1_0000 % 0x100, n / 0x100 % 0x100, n % 0x100]
  {
    hide Int4, Char;
    var a, b, c, d := Codec.Digits(n);
    Places(a, b, c, d);
    Int4Plus(a, b, c, d);
    SmallChar(a);
    SmallChar(b);
    SmallChar(c);
    SmallChar(d);
  }

  lemma SmallChar(x: int)
    requires 0 <= x < 256
    ensures Char(x) == x
  {
  }

  lemma Places(a: int, b: int, c: int, d: int)
    requires 0 <= a <= 128 && 0 <= b < 256 && 0 <= c < 256 && 0 <= d < 256
    ensures
      var n := 16777216 * a + 65536 * b + 256 * c + d;
      n / 0x100_0000 == a && n / 0x1_0000 % 0x100 == b && n / 0x100 % 0x100 == c && n % 0x100 == d
  {
    var n := 16777216 * a + 65536 * b + 256 * c + d;
    Split24(n, a, 65536 * b + 256 * c + d);
    Split16(n, 256 * a + b, 256 * c + d);
    Split8(256 * a + b, a, b);
    Split8(n, 65536 * a + 256 * b + c, d);
    Split8(65536 * a + 256 * b + c, 256 * a + b, c);
  }

  lemma IntegersRead(m: seq<byte>, pos: nat)
    ensures pos + 2 <= |m| ==> ReadInt(m, pos) == Got(0x100 * At(m, pos) + At(m, pos + 1), pos + 2)
    ensures pos + 4 <= |m| ==>
      ReadInt4(m, pos) == Got(0x100_0000 * At(m, pos) + 0x1_0000 * At(m, pos + 1) + 0x100 * At(m,
          pos + 2) + At(m, pos + 3), pos + 4)
  {
  }

  // ----- strings and properties -----

  /** A string behind its length in two bytes. */
  function Counted(d: seq<byte>): (s: seq<byte>)
    requires |d| < 0x1_0000
  {
    [|d| / 0x100, |d| % 0x100] + d
  }

  lemma StringBytes(d: seq<byte>)
    requires |d| < 0x1_0000
    ensures LenString(d) == Counted(d)
  {
    hide Int2;
    TwoBytes(|d|);
  }

  /** The identifier comes first, then the value as its type says; the name of a pair comes before its value. */
  lemma PropertyBytes(p: P.Property)
    ensures p.value.Byte? ==> P.Wire(p) == [p.id, p.value.b]
    ensures p.value.Two? && 0 <= p.value.n < 0x1_0000 ==> P.Wire(p) == [p.id, p.value.n / 0x100, p.value.n % 0x100]
    ensures p.value.Four? && 0 <= p.value.n < 0x8000_0000 ==>
      var n := p.value.n;
      P.Wire(p) == [p.id, n / 0x100_0000, n / 0x1_0000 % 0x100, n / 0x100 % 0x100, n % 0x100]
    ensures p.value.Vbi? && 0 <= p.value.n < 0x1000_0000 ==>
      var w := P.Wire(p);
      w[0] == p.id && LengthBytes(w[1..], p.value.n)
    ensures p.value.Data? && |p.value.data| < 0x1_0000 ==> P.Wire(p) == [p.id] + Counted(p.value.data)
    ensures p.value.Pair? && |p.value.name| < 0x1_0000 && |p.value.data| < 0x1_0000 ==>
      P.Wire(p) == [p.id] + Counted(p.value.name) + Counted(p.value.data)
  {
    hide Int2, Int4, Encode, LenString, LengthBytes, Counted;
    match p.value
    case Byte(_) =>
    case Two(n) => if 0 <= n < 0x1_0000 { TwoBytes(n); }
    case Four(n) => if 0 <= n < 0x8000_0000 { FourBytes(n); }
    case Vbi(n) => if 0 <= n < 0x1000_0000 { EncodeIs(n); }
    case Data(d) => if |d| < 0x1_0000 { StringBytes(d); }
    case Pair(d, e) => if |d| < 0x1_0000 && |e| < 0x1_0000 { StringBytes(d); StringBytes(e); }
  }

  // ----- PUBLISH -----

  /** The flags of the first byte are bits 3, 2 to 1 and 0 under the packet type 3. */
  function FirstByte(p: K.PublishPacket): int {
    0x30 + (if p.dup then 0x08 else 0) + (if p.qos == 2 then 0x04 else if p.qos == 1 then 0x02 else 0)
    + if p.retain then 0x01 else 0
  }

  /**
   * A PUBLISH as it is sent: the first byte, the length of what follows, the topic, the id of a QoS 1 or 2 message,
   * under MQTT 5 the properties behind their own length, and the payload.
   */
  lemma PublishBytes(v5: bool, p: K.PublishPacket) returns (e: seq<byte>, l: seq<byte>)
    requires K.Sendable(v5, p)
    ensures LengthBytes(e, |K.Rest(v5, p)|) && K.Sent(v5, p) == [FirstByte(p)] + e + K.Rest(v5, p)
    ensures LengthBytes(l, |P.Flat(p.props)|)
    ensures K.Rest(v5, p) == Counted(p.topic) + (if p.qos == 0 then [] else [p.id / 0x100, p.id % 0x100])
        + (if v5 then l + P.Flat(p.props) else []) + p.payload
  {
    hide LengthBytes, Encode, P.Flat, P.Length, P.Proper, Counted, W.Concat, K.Buffers, Int2, LenString;
    K.BuffersAre(v5, p);
    e, l := Encode(|K.Rest(v5, p)|), Encode(P.Length(p.props));
    PropertiesLength(v5, p);
    EncodeIs(|K.Rest(v5, p)|);
    EncodeIs(P.Length(p.props));
    StringBytes(p.topic);
    if p.qos > 0 { TwoBytes(p.id); }
  }

  lemma PropertiesLength(v5: bool, p: K.PublishPacket)
    requires K.Sendable(v5, p)
    ensures P.Length(p.props) == |P.Flat(p.props)| < VBI_LIMIT
  {
    hide K.Rest, W.Concat, K.Buffers, P.Proper;
    if v5 {
      P.LengthIff(p.props);
      K.SmallProperties(p);
    }
  }
}
