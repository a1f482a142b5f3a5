/** MQTTPacket_send_publish and MQTTPacket_sends: the buffers are built and handed to the socket. */
module PublishSending {
  import opened Common
  import opened Packets
  import opened Codec
  import opened PublishPackets
  import P = Properties
  import L = PropertyLists
  import W = PacketWriting

  /** The buffer behind the topic: the id and the properties, in exactly the space computed for them. */
  method IdAndProperties(v5: bool, p: PublishPacket, props: L.PropertyList) returns (b: seq<byte>)
    requires Sendable(v5, p) && props.Valid() && props.Counted() && (v5 ==> props.Contents() == p.props)
    ensures b == IdPart(p) + PropsPart(v5, p)
  {
    hide P.Proper, P.Written, Int2, W.Concat, Buffers;
    ghost var w := if v5 then |P.Written(p.props)| else 0;
    if v5 { FitsExactly(p, props); }
    var buflen := (if p.qos > 0 then 2 else 0) + if v5 then props.Len() else 0;
    var out := new L.OutBuffer(buflen);
    if p.qos > 0 { out.WriteInt(p.id); }
    if v5 { props.Write(out); }
    b := out.buf[..];
    assert b == out.Done();
  }

  /** MQTTProperties_len is the space the properties take. */
  lemma FitsExactly(p: PublishPacket, props: L.PropertyList)
    requires Sendable(true, p) && props.Valid() && props.Counted() && props.Contents() == p.props
    ensures props.Len() == |P.Written(p.props)| && props.length >= 0
  {
    SmallProperties(p);
    props.LenIff();
  }

  /** A PUBLISH goes to the socket as the bytes from which it is restored. */
  method SendPublish(w: W.Writer, socket: int, v5: bool, p: PublishPacket, props: L.PropertyList) returns (rc: Code)
    requires Sendable(v5, p) && props.Valid() && props.Counted() && (v5 ==> props.Contents() == p.props)
    requires w.Valid() && w.Settled() && socket in w.accepted
    modifies w
    ensures w.Valid() && w.Settled()
    ensures socket in old(w.unsent) ==>
              && rc == SOCKET_ERROR
              && w.packets == old(w.packets)
              && w.accepted == old(w.accepted)
              && w.attempts == old(w.attempts)
    ensures socket !in old(w.unsent) ==>
              && w.attempts == old(w.attempts) + [socket]
              && rc == W.FirstCode(w.replies(|old(w.attempts)|), |Sent(v5, p)|)
    ensures w.Failed() ==
            if socket !in old(w.unsent) && rc == SOCKET_ERROR then old(w.Failed()) + {socket} else old(w.Failed())
    ensures socket !in old(w.unsent) && rc != SOCKET_ERROR ==>
              w.packets == old(w.packets)[socket := old(w.packets)[socket] + [Sent(v5, p)]]
  {
    hide *;
    var bufs := MakeBuffers(v5, p, props);
    var buf0 := FixedHeader(v5, p);
    SentIs(v5, p);
    rc := w.Putdatas(socket, buf0, bufs);
  }

  method MakeBuffers(v5: bool, p: PublishPacket, props: L.PropertyList) returns (bufs: seq<seq<byte>>)
    requires Sendable(v5, p) && props.Valid() && props.Counted() && (v5 ==> props.Contents() == p.props)
    ensures bufs == Buffers(v5, p)
  {
    hide P.Proper, P.Written, Int2, W.Concat;
    var topiclen := new L.OutBuffer(2);
    topiclen.WriteInt(|p.topic|);
    assert topiclen.buf[..] == topiclen.Done();
    if p.qos > 0 || v5 {
      var middle := IdAndProperties(v5, p, props);
      bufs := [topiclen.buf[..], p.topic, middle, p.payload];
    } else {
      bufs := [topiclen.buf[..], p.topic, p.payload];
    }
  }

  /** The header byte and the remaining length, as MQTTPacket_sends puts them before the buffers. */
  method FixedHeader(v5: bool, p: PublishPacket) returns (buf0: seq<byte>)
    requires Sendable(v5, p)
    ensures buf0 == [HeaderByte(p)] + Encode(|W.Concat(Buffers(v5, p))|) && buf0 != []
  {
    hide P.Proper, P.Written, Int2, W.Concat, Encode, HeaderByte, Buffers;
    HeaderBits(p);
    var total := |W.Concat(Buffers(v5, p))|;
    var out := new L.OutBuffer(1 + |Encode(total)|);
    out.WriteChar(HeaderByte(p));
    out.WriteVbi(total);
    buf0 := out.buf[..];
    assert buf0 == out.Done() == [HeaderByte(p)] + Encode(total);
  }

  lemma SentIs(v5: bool, p: PublishPacket)
    requires Sendable(v5, p)
    ensures Sent(v5, p) == W.Concat([[HeaderByte(p)] + Encode(|W.Concat(Buffers(v5, p))|)] + Buffers(v5, p))
  {
    hide Encode, HeaderByte, Buffers;
    HeaderBits(p);
    var h, b := [HeaderByte(p)] + Encode(|W.Concat(Buffers(v5, p))|), Buffers(v5, p);
    assert ([h] + b)[0] == h && ([h] + b)[1..] == b;
  }
}
