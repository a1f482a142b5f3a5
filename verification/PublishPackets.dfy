/** PUBLISH packets: the bytes MQTTPacket_send_publish builds, and what the stream and the store give back. */
module PublishPackets {
  import opened Packets
  import opened Frames
  import opened Codec
  import P = Properties
  import W = PacketWriting

  datatype PublishPacket = PublishPacket(dup: bool, qos: int, retain: bool, topic: seq<byte>, id: int,
      props: seq<P.Property>, payload: seq<byte>)

  /** The header bit fields: retain, qos, dup and the packet type from the lowest bit up. */
  function HeaderByte(p: PublishPacket): int {
    48 + (if p.dup then 8 else 0) + 2 * p.qos + if p.retain then 1 else 0
  }

  /** What a caller may ask to be sent. The topic is a C string. */
  predicate Sendable(v5: bool, p: PublishPacket) {
    && 0 <= p.qos <= 2 && 0 <= p.id < 65536 && (p.qos == 0 ==> p.id == 0)
    && 0 !in p.topic && |p.topic| < 65536
    && (if v5 then forall q | q in p.props :: P.Proper(q) && (q.value.Vbi? ==> q.value.n < VBI_LIMIT)
         else p.props == [])
    && |W.Concat(Buffers(v5, p))| < VBI_LIMIT
  }

  /** The buffers handed to MQTTPacket_sends. */
  function Buffers(v5: bool, p: PublishPacket): seq<seq<byte>> {
    if p.qos > 0 || v5 then
      [Int2(|p.topic|), p.topic, (if p.qos > 0 then Int2(p.id) else []) + (if v5 then P.Written(p.props) else []),
          p.payload]
    else
      [Int2(|p.topic|), p.topic, p.payload]
  }

  /** The variable header and the payload. */
  function Rest(v5: bool, p: PublishPacket): seq<byte> {
    LenString(p.topic) + (if p.qos > 0 then Int2(p.id) else []) + (if v5 then P.Written(p.props) else []) + p.payload
  }

  /** The bytes that go to the socket and, under the SENT key, into the store. */
  function Sent(v5: bool, p: PublishPacket): seq<byte>
    requires Sendable(v5, p)
  {
    [HeaderByte(p)] + Encode(|W.Concat(Buffers(v5, p))|) + W.Concat(Buffers(v5, p))
  }

  /** MQTTPacket_publish */
  function Parse(v5: bool, header: int, data: seq<byte>): Got<PublishPacket> {
    match ReadLenString(data, 0, |data|)
    case Refused => Refused
    case Overrun => Overrun
    case Got(topic, p1) =>
      var qos := (header / 2) % 4;
      match (if qos > 0 then ReadInt(data, p1) else Got(0, p1))
      case Refused => Refused
      case Overrun => Overrun
      case Got(id, p2) =>
        if p2 > |data| then Overrun
        else
          match (if v5 then P.Read(data[p2..], |data| - p2) else Got([], 0))
          case Refused => Refused
          case Overrun => Overrun
          case Got(props, n) =>
            if p2 + n > |data| then Overrun
            else Got(PublishPacket((header / 8) % 2 == 1, qos, header % 2 == 1, topic, id, props, data[p2 + n..]),
                |data|)
  }

  /** MQTTPersistence_restorePacket for a PUBLISH. */
  function Restore(v5: bool, buffer: seq<byte>): Got<PublishPacket> {
    match HeadOf(buffer)
    case Full(k, r) => if k + r == |buffer| && buffer[0] / 16 == 3 then Parse(v5, buffer[0], buffer[k..]) else Refused
    case _ => Overrun
  }

  lemma BuffersAre(v5: bool, p: PublishPacket)
    ensures W.Concat(Buffers(v5, p)) == Rest(v5, p)
  {
    var b := Buffers(v5, p);
    ConcatFour(b);
  }

  lemma ConcatFour(b: seq<seq<byte>>)
    requires |b| == 3 || |b| == 4
    ensures W.Concat(b) == if |b| == 3 then b[0] + b[1] + b[2] else b[0] + b[1] + b[2] + b[3]
  {
    assert b[1..][1..] == b[2..] && b[2..][1..] == b[3..];
    assert W.Concat(b[1..]) == b[1] + W.Concat(b[2..]);
    assert W.Concat(b[2..]) == b[2] + W.Concat(b[3..]);
    if |b| == 3 {
      assert W.Concat(b[3..]) == [];
    } else {
      assert b[3..][1..] == [];
      assert W.Concat(b[3..]) == b[3] + W.Concat([]);
    }
  }

  /** The bits of the header byte come apart again. */
  lemma HeaderBits(p: PublishPacket)
    requires 0 <= p.qos <= 2
    ensures var h := HeaderByte(p);
            0 <= h < 256 && h / 16 == 3 && (h / 8) % 2 == (if p.dup then 1 else 0) && (h / 2) % 4 == p.qos
                && h % 2 == if p.retain then 1 else 0
  {
  }

  /** What is sent is one whole packet of the stream, with the header and the data apart. */
  lemma SentIsFrame(v5: bool, p: PublishPacket, more: seq<byte>)
    requires Sendable(v5, p)
    ensures var n := NextOf(Sent(v5, p) + more);
            n.Complete? && n.frame.head[..1] == [HeaderByte(p)] && n.frame.data == Rest(v5, p)
                && Frames.Wire(n.frame) == Sent(v5, p)
  {
    HeaderBits(p);
    BuffersAre(v5, p);
    var e, d := Encode(|Rest(v5, p)|), Rest(v5, p);
    VbiLenIff(|d|);
    DecodeEncode(|d|, 0, []);
    hide Encode, Rest, LengthOf;
    var f := Frame([HeaderByte(p)] + e, d);
    assert e + [] == e && f.head[1..] == e;
    assert HeadOf(f.head) == Full(|f.head|, |d|);
    NextIsFrame(f, more);
    assert f.head[..1] == [HeaderByte(p)];
  }

  /** Where the parts of the data lie. */
  lemma Parts(a: seq<byte>, b: seq<byte>, c: seq<byte>, d: seq<byte>)
    ensures var m := a + b + c + d;
            && m == a + (b + c + d) && m[|a|..] == b + c + d && m[|a| + |b|..] == c + d && m[|a| + |b| + |c|..] == d
  {
  }

  lemma Int2Small(n: int)
    requires 0 <= n < 65536
    ensures |Int2(n)| == 2 && 256 * (Int2(n)[0] as int) + (Int2(n)[1] as int) == n
  {
    hide Int2;
    Int2Is(n);
    assert n % 65536 == n;
  }

  lemma ReadId(m: seq<byte>, pos: nat, id: int, more: seq<byte>)
    requires 0 <= id < 65536 && pos <= |m| && m[pos..] == Int2(id) + more
    ensures ReadInt(m, pos) == Got(id, pos + 2)
  {
    hide Int2;
    Int2Small(id);
    var i := Int2(id);
    assert m[pos] == m[pos..][0] == i[0];
    assert m[pos + 1] == m[pos..][1] == i[1];
  }

  lemma LengthBound(ps: seq<P.Property>)
    requires (forall q | q in ps :: P.Proper(q)) && |P.Written(ps)| < VBI_LIMIT
    ensures P.Length(ps) < VBI_LIMIT
  {
    P.LengthIff(ps);
  }

  lemma RestIs(v5: bool, p: PublishPacket)
    ensures Rest(v5, p) == LenString(p.topic) + IdPart(p) + PropsPart(v5, p) + p.payload
    ensures |LenString(p.topic)| == 2 + |p.topic| && |IdPart(p)| == if p.qos > 0 then 2 else 0
  {
  }

  function IdPart(p: PublishPacket): seq<byte> { if p.qos > 0 then Int2(p.id) else [] }

  function PropsPart(v5: bool, p: PublishPacket): seq<byte> { if v5 then P.Written(p.props) else [] }

  /** The topic and the id are read back, and the pointer stands behind them. */
  lemma ReadsHead(v5: bool, p: PublishPacket)
    requires Sendable(v5, p)
    ensures var data := Rest(v5, p); var p1 := 2 + |p.topic|; var p2 := p1 + if p.qos > 0 then 2 else 0;
            && ReadLenString(data, 0, |data|) == Got(p.topic, p1)
            && (if p.qos > 0 then ReadInt(data, p1) else Got(0, p1)) == Got(p.id, p2)
            && p2 <= |data| && data[p2..] == PropsPart(v5, p) + p.payload
  {
    hide ReadLenString, ReadInt, W.Concat, Rest, LenString, PropsPart, P.Proper;
    RestIs(v5, p);
    var a, b, c, d, data := LenString(p.topic), IdPart(p), PropsPart(v5, p), p.payload, Rest(v5, p);
    Parts(a, b, c, d);
    LenStringIff(p.topic, b + c + d);
    assert b + c + d == b + (c + d);
    if p.qos > 0 { ReadId(data, |a|, p.id, c + d); }
  }

  /** What parsing comes to once the parts are known. */
  lemma ParseIs(v5: bool, h: int, data: seq<byte>, topic: seq<byte>, p1: nat, id: int, p2: nat)
    requires ReadLenString(data, 0, |data|) == Got(topic, p1) && p2 <= |data|
    requires (if (h / 2) % 4 > 0 then ReadInt(data, p1) else Got(0, p1)) == Got(id, p2)
    ensures var r := if v5 then P.Read(data[p2..], |data| - p2) else Got([], 0);
            && (!r.Got? ==> !Parse(v5, h, data).Got?)
            && (r.Got? && p2 + r.pos > |data| ==> Parse(v5, h, data) == Overrun)
            && (r.Got? && p2 + r.pos <= |data| ==>
                  Parse(v5, h, data) == Got(PublishPacket((h / 8) % 2 == 1, (h / 2) % 4, h % 2 == 1, topic,
                      id, r.value, data[p2 + r.pos..]), |data|))
  {
    hide P.Read, ReadLenString, ReadInt;
  }

  /** The properties and the payload are read back, exactly if the properties survive. */
  lemma ReadsTail(v5: bool, p: PublishPacket, data: seq<byte>, p2: nat)
    requires Sendable(v5, p) && p2 <= |data| && data[p2..] == PropsPart(v5, p) + p.payload
    ensures var r := if v5 then P.Read(data[p2..], |data| - p2) else Got([], 0);
            (r.Got? && p2 + r.pos <= |data| && r.value == p.props && data[p2 + r.pos..] == p.payload) <==>
                forall q | q in p.props :: P.Faithful(q)
  {
    hide P.Written, P.Read, P.Proper, P.Faithful, W.Concat, Rest;
    if v5 {
      SmallProperties(p);
      P.RoundTripIff(p.props, p.payload);
      Behind(data, p2, P.Written(p.props), p.payload);
      var r := P.Read(data[p2..], |data| - p2);
      if r.Got? && p2 + r.pos <= |data| && data[p2 + r.pos..] == p.payload {
        assert |data| - p2 - r.pos == |p.payload|;
      }
    } else {
      assert p.props == [];
      assert data[p2 + 0..] == p.payload;
    }
  }

  lemma SmallProperties(p: PublishPacket)
    requires Sendable(true, p)
    ensures P.Length(p.props) < VBI_LIMIT
  {
    hide P.Written, P.Proper, Int2, LenString;
    BuffersAre(true, p);
    LengthBound(p.props);
  }

  /** A packet is parsed back as it was, exactly if its properties survive. */
  lemma ParseIff(v5: bool, p: PublishPacket)
    requires Sendable(v5, p)
    ensures Parse(v5, HeaderByte(p), Rest(v5, p)) == Got(p, |Rest(v5, p)|) <==> forall q | q in p.props :: P.Faithful(q)
  {
    hide P.Written, P.Read, P.Proper, P.Faithful, ReadLenString, ReadInt, Rest, HeaderByte, W.Concat, Parse, PropsPart;
    HeaderBits(p);
    ReadsHead(v5, p);
    var data := Rest(v5, p);
    var p1 := 2 + |p.topic|;
    var p2 := p1 + if p.qos > 0 then 2 else 0;
    ParseIs(v5, HeaderByte(p), data, p.topic, p1, p.id, p2);
    ReadsTail(v5, p, data, p2);
  }

  lemma Behind(data: seq<byte>, k: nat, w: seq<byte>, payload: seq<byte>)
    requires k <= |data| && data[k..] == w + payload
    ensures k + |w| <= |data| && data[k + |w|..] == payload
  {
    assert data[k + |w|..] == data[k..][|w|..];
  }

  /**
   * A PUBLISH with a NUL-free topic under 65536 bytes, no longer than a packet can be, is restored from the
   * store as it was sent, in all its fields, if and only if its properties survive their encoding.
   */
  lemma RestoreIff(v5: bool, p: PublishPacket)
    requires Sendable(v5, p)
    ensures Restore(v5, Sent(v5, p)) == Got(p, |Rest(v5, p)|) <==> forall q | q in p.props :: P.Faithful(q)
  {
    hide Rest, Parse, Encode, LengthOf, HeaderByte, W.Concat, P.Faithful, Buffers, HeadOf;
    HeaderBits(p);
    BuffersAre(v5, p);
    ParseIff(v5, p);
    SentHead(v5, p);
  }

  /** The restored buffer's fixed header ends where the rest begins. */
  lemma SentHead(v5: bool, p: PublishPacket)
    requires Sendable(v5, p)
    ensures var s := Sent(v5, p); var k := |s| - |Rest(v5, p)|;
            0 <= k && HeadOf(s) == Full(k, |Rest(v5, p)|) && s[k..] == Rest(v5, p) && s[0] == HeaderByte(p)
  {
    hide Rest, Encode, LengthOf, HeaderByte, W.Concat, Buffers, HeadOf;
    HeaderBits(p);
    BuffersAre(v5, p);
    var e, d := Encode(|Rest(v5, p)|), Rest(v5, p);
    VbiLenIff(|d|);
    DecodeEncode(|d|, 0, d);
    HeadBehind(HeaderByte(p), e, d);
  }

  lemma HeadBehind(h: byte, e: seq<byte>, d: seq<byte>)
    requires LengthOf(e + d, 0) == Full(|e|, |d|)
    ensures var s := [h] + e + d; HeadOf(s) == Full(1 + |e|, |d|) && s[1 + |e|..] == d && s[0] == h
  {
    hide LengthOf;
    HeadApart(h, e, d);
  }

  lemma HeadApart(h: byte, e: seq<byte>, d: seq<byte>)
    ensures var s := [h] + e + d; |s| > 0 && s[0] == h && s[1..] == e + d && s[1 + |e|..] == d
  {
    assert [h] + e + d == [h] + (e + d);
  }
}
