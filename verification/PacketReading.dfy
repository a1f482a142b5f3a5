/** Reading packets from non-blocking sockets (Socket_getch, Socket_getdata, MQTTPacket_decode, MQTTPacket_Factory). */
module PacketReading {
  import opened Common
  import opened Packets
  import opened Frames
  import opened SocketBuffers
  import opened Reads

  datatype Received = Again | Closed | Data(bytes: seq<byte>)

  /** What a call for a packet comes back with. */
  datatype Outcome = Packet(header: byte, data: seq<byte>) | Partly | Failed

  /** How the system answers one recv: with up to so many bytes, with none for now, or with an end or an error. */
  datatype Reply = Give(most: nat) | Hold | End

  /** What one recv delivers of the bytes a socket has. */
  function Response(reply: Reply, max: nat, rest: seq<byte>): Received {
    match reply
    case End => Closed
    case Hold => Again
    case Give(most) =>
      var n := if max < most then max else most;
      var k := if |rest| < n then |rest| else n;
      if k == 0 then Again else Data(rest[..k])
  }

  /** Only s has been asked for bytes, and if it must be, at least once. */
  ghost predicate Asks(was: seq<int>, now: seq<int>, s: int, must: bool) {
    was <= now && (forall i | |was| <= i < |now| :: now[i] == s) && (must ==> |now| > |was|)
  }

  lemma AsksTwice(a: seq<int>, b: seq<int>, c: seq<int>, s: int)
    ensures Asks(a, a, s, false) && Asks(a, a + [s], s, true)
    ensures forall m, n :: Asks(a, b, s, m) && Asks(b, c, s, n) ==> Asks(a, c, s, m || n)
    ensures forall m, n :: Asks(a, b, s, m) && (n ==> m) ==> Asks(a, b, s, n)
  {
  }

  /** What asking adds to the requests of each socket. */
  lemma CountAsked(was: seq<int>, now: seq<int>, s: int)
    requires Asks(was, now, s, true)
    ensures CountOf(was, s) + 1 <= CountOf(now, s) && forall t :: CountOf(was, t) <= CountOf(now, t)
  {
    assert now == was + ([s] + now[|was| + 1..]);
  }

  /** Every turn of a live socket has asked for bytes. */
  ghost predicate Counted(live: set<int>, asked0: seq<int>, turns: seq<int>, asked: seq<int>) {
    forall s | s in live :: CountOf(asked0, s) + CountOf(turns, s) <= CountOf(asked, s)
  }

  lemma CountedNone(live: set<int>, asked: seq<int>, schedule: seq<int>)
    ensures Counted(live, asked, schedule[..0], asked)
  {
  }

  lemma CountedMore(live: set<int>, asked0: seq<int>, schedule: seq<int>, i: nat, asked: seq<int>, live1: set<int>,
      asked1: seq<int>)
    requires i < |schedule| && Counted(live, asked0, schedule[..i], asked) && live1 <= live
    requires if schedule[i] in live then Asks(asked, asked1, schedule[i], true) else asked1 == asked
    ensures Counted(live1, asked0, schedule[..i + 1], asked1)
  {
    CountMore(schedule, i);
    if schedule[i] in live { CountAsked(asked, asked1, schedule[i]); }
    hide CountOf, Asks;
  }

  lemma CountedIs(live: set<int>, asked0: seq<int>, turns: seq<int>, asked: seq<int>)
    requires Counted(live, asked0, turns, asked)
    ensures forall s | s in live :: multiset(asked)[s] >= multiset(asked0)[s] + multiset(turns)[s]
  {
    assert forall s :: CountOf(asked, s) == multiset(asked)[s] && CountOf(asked0, s) == multiset(asked0)[s];
    assert forall s :: CountOf(turns, s) == multiset(turns)[s];
  }

  /** A failure is an end or an error of a read, unless the bytes read are no packet's. */
  ghost predicate Explained(was: set<int>, now: set<int>, s: int, failed: bool, read: seq<byte>) {
    now == if failed && HeadOf(read) != Bad then was + {s} else was
  }

  /**
   * The sockets: for each the bytes its peer has still to deliver. `replies` is what the system will do, call by
   * call; `asked` has the socket of each call so far.
   */
  class Network {
    const replies: nat -> Reply
    var rest: map<int, seq<byte>>
    var asked: seq<int>

    constructor (streams: map<int, seq<byte>>, replies: nat -> Reply)
      ensures rest == streams && this.replies == replies && asked == []
    {
      rest, this.replies, asked := streams, replies, [];
    }

    /** The sockets that have been found ended or in error. */
    ghost function Ended(): set<int>
      reads this
    {
      AnsweredWith(replies, End, asked)
    }

    /** recv, which may deliver any number of the bytes asked for, none for now, or an end or an error. */
    method Recv(socket: int, max: nat) returns (r: Received)
      requires socket in rest && max > 0
      modifies this
      ensures asked == old(asked) + [socket] && r == Response(replies(|old(asked)|), max, old(rest)[socket])
      ensures Ended() == if r.Closed? then old(Ended()) + {socket} else old(Ended())
      ensures r.Data? ==>
                && 1 <= |r.bytes| <= max
                && socket in rest
                && old(rest)[socket] == r.bytes + rest[socket]
                && rest == old(rest)[socket := rest[socket]]
      ensures !r.Data? ==> rest == old(rest)
    {
      AnsweredMore(replies, End, asked, socket);
      r := Response(replies(|asked|), max, rest[socket]);
      if r.Data? { rest := rest[socket := rest[socket][|r.bytes|..]]; }
      asked := asked + [socket];
    }
  }

  /** The socket's peer has delivered `taken` and nothing else has happened on the network. */
  ghost predicate Delivered(was: map<int, seq<byte>>, now: map<int, seq<byte>>, s: int, taken: seq<byte>) {
    s in was && s in now && now == was[s := now[s]] && was[s] == taken + now[s]
  }

  lemma DeliveredTwice(m0: map<int, seq<byte>>, m1: map<int, seq<byte>>, m2: map<int, seq<byte>>, s: int, a: seq<byte>,
      b: seq<byte>)
    ensures s in m0 ==> Delivered(m0, m0, s, [])
    ensures Delivered(m0, m1, s, a) && Delivered(m1, m2, s, b) ==> Delivered(m0, m2, s, a + b)
    ensures Delivered(m0, m1, s, a) ==> s in m1
  {
    if Delivered(m0, m1, s, a) && Delivered(m1, m2, s, b) {
      assert m0[s] == (a + b) + m2[s];
    }
  }

  lemma DeliveredIs(m0: map<int, seq<byte>>, m1: map<int, seq<byte>>, s: int, a: seq<byte>)
    requires Delivered(m0, m1, s, a)
    ensures s in m0 && s in m1 && m0[s] == a + m1[s]
  {
  }

  class PacketReader {
    const buffers: SocketBuffer
    const net: Network

    constructor (buffers: SocketBuffer, net: Network)
      ensures this.buffers == buffers && this.net == net
    {
      this.buffers := buffers;
      this.net := net;
    }

    /** Socket_getch */
    method Getch(socket: int, ghost h: seq<byte>) returns (rc: Code, c: byte, ghost taken: seq<byte>)
      requires buffers.Valid() && socket in net.rest && Reading(buffers.pool, socket, h) && HeadOf(h) == Short
      modifies net, buffers, buffers.objs.Keys, buffers.owner.Keys
      ensures
        && buffers.Valid() && fresh(buffers.objs.Keys - old(buffers.objs.Keys))
        && fresh(buffers.owner.Keys - old(buffers.owner.Keys))
      ensures Delivered(old(net.rest), net.rest, socket, taken) && SameOthers(old(buffers.pool), buffers.pool, socket)
      ensures rc == COMPLETE ==> Reading(buffers.pool, socket, h + [c])
      ensures rc == INTERRUPTED ==> Ready(buffers.pool)
      ensures rc != SOCKET_ERROR ==> Kept(buffers.pool, socket) == old(Kept(buffers.pool, socket)) + taken
      ensures rc == SOCKET_ERROR ==> Broken(buffers.pool, socket) && old(Kept(buffers.pool, socket)) + taken == h
      ensures net.Ended() == if rc == SOCKET_ERROR then old(net.Ended()) + {socket} else old(net.Ended())
      ensures rc == SOCKET_ERROR <==> net.asked != old(net.asked) && net.replies(|old(net.asked)|).End?
      ensures Asks(old(net.asked), net.asked, socket, rc != COMPLETE || taken != [])
    {
      hide SocketBuffer.Valid, Reading, HeadOf, Kept, SameOthers, Ready, Broken, Pool.CharQueued, Pool.Interrupted,
           Pool.CharReplayed, Asks, AnsweredWith;
      ghost var p := buffers.pool;
      AsksTwice(net.asked, net.asked, net.asked, socket);
      taken := [];
      rc, c := buffers.GetQueuedChar(socket);
      if rc != INTERRUPTED {
        ReplayStep(p, socket, h);
        return;
      }
      ReplayStep(p, socket, h);
      var r := net.Recv(socket, 1);
      match r {
        case Again =>
          buffers.Interrupted(socket, 0);
          InterruptedHeader(p, socket, h, buffers.pool.def);
          rc := INTERRUPTED;
        case Closed =>
          ReadingBreaks(p, socket, h);
          ReplayDone(p, socket, h);
          rc := SOCKET_ERROR;
        case Data(bytes) =>
          c := bytes[0];
          taken := bytes;
          assert bytes == [c];
          buffers.QueueChar(socket, c);
          CharReads(p, socket, h, c);
          rc := COMPLETE;
      }
    }

    /**
     * MQTTPacket_decode: the remaining length, from one to four bytes. `h` starts as the header byte
     * and ends as the whole fixed header.
     */
    method Decode(socket: int, ghost first: byte)
      returns (rc: Code, value: nat, ghost h: seq<byte>, ghost taken: seq<byte>)
      requires buffers.Valid() && socket in net.rest && Reading(buffers.pool, socket, [first])
      modifies net, buffers, buffers.objs.Keys, buffers.owner.Keys
      ensures
        && buffers.Valid() && fresh(buffers.objs.Keys - old(buffers.objs.Keys))
        && fresh(buffers.owner.Keys - old(buffers.owner.Keys))
      ensures Delivered(old(net.rest), net.rest, socket, taken) && SameOthers(old(buffers.pool), buffers.pool, socket)
      ensures rc == COMPLETE ==>
                && Reading(buffers.pool, socket, h)
                && HeadOf(h) == Full(|h|, value)
                && |h| > 0
                && h[0] == first
      ensures rc == INTERRUPTED ==> Ready(buffers.pool)
      ensures rc != SOCKET_ERROR ==> Kept(buffers.pool, socket) == old(Kept(buffers.pool, socket)) + taken
      ensures rc == SOCKET_ERROR ==> Broken(buffers.pool, socket)
      ensures Explained(old(net.Ended()), net.Ended(), socket, rc == SOCKET_ERROR,
                        old(Kept(buffers.pool, socket)) + taken)
      ensures Asks(old(net.asked), net.asked, socket,
                   taken != [] || MustAsk(rc, old(Kept(buffers.pool, socket)) + taken))
    {
      hide SocketBuffer.Valid, Reading, HeadOf, Kept, SameOthers, Ready, Broken, Partial, Pow128, Delivered, Asks,
           AnsweredWith;
      ghost var p, r0, a0 := buffers.pool, net.rest, net.asked;
      AsksTwice(a0, a0, a0, socket);
      DeliveredTwice(r0, r0, r0, socket, [], []);
      var len: nat, multiplier: int := 0, 1;
      value, taken, h := 0, [], [first];
      var c := 0;
      DecodeStarts(p, socket, first);
      while true
        invariant
          && buffers.Valid() && fresh(buffers.objs.Keys - old(buffers.objs.Keys))
          && fresh(buffers.owner.Keys - old(buffers.owner.Keys))
        invariant
          && socket in net.rest && Delivered(r0, net.rest, socket, taken) && SameOthers(p, buffers.pool, socket)
          && Reading(buffers.pool, socket, h)
        invariant Kept(buffers.pool, socket) == Kept(p, socket) + taken
        invariant len <= 4 && |h| == len + 1 && h[0] == first && value == Partial(h[1..]) && multiplier == Pow128(len)
        invariant if len < 4 then HeadOf(h) == Short else HeadOf(h) == Bad
        invariant net.Ended() == old(net.Ended()) && Asks(a0, net.asked, socket, taken != [])
        decreases 4 - len
      {
        len := len + 1;
        if len > 4 {
          ReadingBreaks(buffers.pool, socket, h);
          BadKept(buffers.pool, socket, h);
          rc := SOCKET_ERROR;
          return;
        }
        ghost var q, r1, a1, more := buffers.pool, net.rest, net.asked, [];
        rc, c, more := Getch(socket, h);
        DecodeTook(p, q, buffers.pool, socket, Kept(p, socket), taken, more);
        DeliveredTwice(r0, r1, net.rest, socket, taken, more);
        AsksTwice(a0, a1, net.asked, socket);
        taken := taken + more;
        if rc != COMPLETE { return; }
        DecodeByte(h, c, value, multiplier);
        h := h + [c];
        value := value + (c % 128) * multiplier;
        multiplier := multiplier * 128;
        if c < 128 { return; }
      }
    }

    /** Socket_getdata: the data of a packet whose fixed header is h, or what there is of it. */
    method Getdata(socket: int, bytes: nat, ghost h: seq<byte>)
      returns (buf: array?<byte>, actual_len: nat, ghost taken: seq<byte>)
      requires buffers.Valid() && socket in net.rest && Reading(buffers.pool, socket, h)
                && HeadOf(h) == Full(|h|, bytes)
      modifies net, buffers, buffers.objs.Keys, buffers.owner.Keys
      ensures
        && buffers.Valid() && fresh(buffers.objs.Keys - old(buffers.objs.Keys))
        && fresh(buffers.owner.Keys - old(buffers.owner.Keys))
      ensures Delivered(old(net.rest), net.rest, socket, taken) && SameOthers(old(buffers.pool), buffers.pool, socket)
      ensures buf == null ==> Broken(buffers.pool, socket) && taken == []
      ensures net.Ended() == if buf == null then old(net.Ended()) + {socket} else old(net.Ended())
      ensures buf == null <==> bytes > 0 && net.replies(|old(net.asked)|).End?
      ensures Asks(old(net.asked), net.asked, socket, bytes > 0 || buf == null) && (bytes == 0 ==> taken == [])
      ensures buf != null ==> Ready(buffers.pool) && actual_len <= bytes
      ensures buf != null && actual_len == bytes ==>
                && bytes <= buf.Length
                && Kept(buffers.pool, socket) == []
                && old(Kept(buffers.pool, socket)) + taken == h + buf[..bytes]
      ensures buf != null && actual_len < bytes ==>
                Kept(buffers.pool, socket) == old(Kept(buffers.pool, socket)) + taken
    {
      hide SocketBuffer.Valid, SocketBuffer.Serves, Reading, HeadOf, Kept, SameOthers, Ready, Broken,
           Pool.Completed, Pool.Current, Asks, AnsweredWith;
      AsksTwice(net.asked, net.asked, net.asked, socket);
      taken, actual_len := [], 0;
      if bytes == 0 {
        EmptyCompletes(buffers.pool, socket, h);
        buf := buffers.Complete(socket);
      } else {
        ghost var p := buffers.pool;
        var room, at, queue := Room(socket, bytes, h);
        buf := room;
        ghost var q := buffers.pool;
        var ok;
        ok, actual_len, taken := Pour(socket, bytes, room, at, queue, h);
        OthersTwice(p, q, buffers.pool, socket);
        if !ok { buf := null; }
      }
    }

    /** One read of what is still missing of a packet's data. */
    method Pour(socket: int, bytes: nat, buf: array<byte>, at: nat, ghost queue: SocketQueue, ghost h: seq<byte>)
      returns (ok: bool, actual_len: nat, ghost taken: seq<byte>)
      requires buffers.Valid() && buffers.Serves(queue, socket) && buf == queue.buf && buf in buffers.owner.Keys
      requires socket in net.rest && Reading(buffers.pool, socket, h) && HeadOf(h) == Full(|h|, bytes)
      requires at == buffers.pool.Current(socket).datalen
      requires at < bytes <= buffers.pool.Current(socket).buflen && bytes <= buf.Length
      modifies net, buffers, buffers.objs.Keys, buf
      ensures
        && buffers.Valid() && fresh(buffers.objs.Keys - old(buffers.objs.Keys))
        && fresh(buffers.owner.Keys - old(buffers.owner.Keys))
      ensures Delivered(old(net.rest), net.rest, socket, taken) && SameOthers(old(buffers.pool), buffers.pool, socket)
      ensures !ok ==> Broken(buffers.pool, socket) && taken == []
      ensures net.Ended() == if ok then old(net.Ended()) else old(net.Ended()) + {socket}
      ensures ok <==> !net.replies(|old(net.asked)|).End?
      ensures Asks(old(net.asked), net.asked, socket, true)
      ensures ok ==>
                && Ready(buffers.pool) && actual_len <= bytes && buf[..actual_len] == old(buf[..at]) + taken
                && Kept(buffers.pool, socket) == if actual_len == bytes then [] else h + buf[..actual_len]
    {
      hide SocketBuffer.Valid, SocketBuffer.Serves, Reading, HeadOf, Kept, SameOthers, Ready, Broken, Pool.Current,
           Asks, AnsweredWith;
      AsksTwice(net.asked, net.asked, net.asked, socket);
      ghost var q := buffers.pool;
      taken, actual_len := [], at;
      var r := net.Recv(socket, bytes - at);
      ok := !r.Closed?;
      if ok {
        if r.Data? { taken := r.bytes; }
        Arrive(socket, bytes, buf, at, if r.Data? then r.bytes else [], queue, h);
        actual_len := at + if r.Data? then |r.bytes| else 0;
      } else {
        ReadingBreaks(q, socket, h);
        OthersStay(q, socket);
      }
    }

    static lemma OthersStay(p: Pool, s: int)
      ensures SameOthers(p, p, s)
    {
    }

    /** The buffer to read the packet's data into, and how much of it there is. */
    method Room(socket: int, bytes: nat, ghost h: seq<byte>)
      returns (buf: array<byte>, actual_len: nat, ghost queue: SocketQueue)
      requires buffers.Valid() && Reading(buffers.pool, socket, h) && HeadOf(h) == Full(|h|, bytes) && bytes > 0
      modifies buffers, buffers.objs.Keys
      ensures
        && buffers.Valid() && fresh(buffers.objs.Keys - old(buffers.objs.Keys))
        && fresh(buffers.owner.Keys - old(buffers.owner.Keys))
      ensures buffers.Serves(queue, socket) && buf == queue.buf && buf in buffers.owner.Keys
      ensures Reading(buffers.pool, socket, h) && actual_len == buffers.pool.Current(socket).datalen
      ensures actual_len < bytes <= buffers.pool.Current(socket).buflen && bytes <= buf.Length
      ensures SameOthers(old(buffers.pool), buffers.pool, socket)
                && old(Kept(buffers.pool, socket)) == h + buf[..actual_len]
    {
      hide SocketBuffer.Valid, SocketBuffer.Serves, Reading, HeadOf, Kept, SameOthers, Pool.Update, Queue.Sound;
      ghost var p := buffers.pool;
      HeaderWhole(p, socket, h);
      buf, actual_len, queue := buffers.GetQueuedData(socket, bytes);
      RoomReads(p, socket, h, bytes, buffers.pool, buf[..], actual_len);
    }

    /** What recv delivers goes behind what is there. */
    method Arrive(socket: int, bytes: nat, buf: array<byte>, at: nat, chunk: seq<byte>, ghost queue: SocketQueue,
        ghost h: seq<byte>)
      requires buffers.Valid() && buffers.Serves(queue, socket) && buf == queue.buf && buf in buffers.owner.Keys
      requires
        && Reading(buffers.pool, socket, h) && HeadOf(h) == Full(|h|, bytes)
        && at == buffers.pool.Current(socket).datalen
      requires at + |chunk| <= bytes <= buffers.pool.Current(socket).buflen && bytes <= buf.Length
      modifies buffers, buffers.objs.Keys, buf
      ensures
        && buffers.Valid() && fresh(buffers.objs.Keys - old(buffers.objs.Keys))
        && fresh(buffers.owner.Keys - old(buffers.owner.Keys))
      ensures SameOthers(old(buffers.pool), buffers.pool, socket) && Ready(buffers.pool)
      ensures buf[..at + |chunk|] == old(buf[..at]) + chunk
      ensures Kept(buffers.pool, socket) == if at + |chunk| == bytes then [] else h + buf[..at + |chunk|]
    {
      hide SocketBuffer.Valid, SocketBuffer.Serves, Reading, HeadOf, Kept, SameOthers, Ready, Pool.Update,
           Queue.Filled, Queue.Sound, Pool.Current, Queue.Data, Queue.Header;
      ghost var q := buffers.pool;
      HeaderWhole(q, socket, h);
      SoundRoom(q.Current(socket));
      FilledReads(q, socket, h, chunk);
      buffers.Fill(buf, at, chunk, queue, socket);
      ghost var t := buffers.pool;
      DataIs(q.Current(socket), buf[..], at, chunk);
      Settle(socket, bytes, at + |chunk|, h);
      OthersTwice(q, t, buffers.pool, socket);
    }

    /** The end of Socket_getdata: the packet is complete, or what there is of it is kept. */
    method Settle(socket: int, bytes: nat, actual_len: nat, ghost h: seq<byte>)
      requires
        && buffers.Valid() && Reading(buffers.pool, socket, h) && HeadOf(h) == Full(|h|, bytes)
        && actual_len <= bytes <= buffers.pool.Current(socket).buflen
      modifies buffers, buffers.objs.Keys
      ensures
        && buffers.Valid() && fresh(buffers.objs.Keys - old(buffers.objs.Keys))
        && fresh(buffers.owner.Keys - old(buffers.owner.Keys))
      ensures SameOthers(old(buffers.pool), buffers.pool, socket) && Ready(buffers.pool)
      ensures old(buffers.pool).Current(socket).Sound()
      ensures Kept(buffers.pool, socket) == if actual_len == bytes then []
                else h + old(buffers.pool).Current(socket).buf[..actual_len]
    {
      hide SocketBuffer.Valid, Reading, HeadOf, Kept, SameOthers, Ready, Pool.Completed, Pool.Interrupted,
           Queue.Sound, Pool.Current;
      ghost var t := buffers.pool;
      HeaderWhole(t, socket, h);
      SoundRoom(t.Current(socket));
      if actual_len == bytes {
        DataCompletes(t, socket, h);
        var _ := buffers.Complete(socket);
      } else {
        buffers.Interrupted(socket, actual_len);
        InterruptedData(t, socket, h, bytes, actual_len, buffers.pool.def);
      }
    }

    /** MQTTPacket_Factory, up to the decoding of the packet. */
    method Factory(socket: int) returns (o: Outcome, ghost frame: Frame, ghost taken: seq<byte>)
      requires buffers.Valid() && socket in net.rest && socket != 0 && Ready(buffers.pool)
      modifies net, buffers, buffers.objs.Keys, buffers.owner.Keys
      ensures
        && buffers.Valid() && fresh(buffers.objs.Keys - old(buffers.objs.Keys))
        && fresh(buffers.owner.Keys - old(buffers.owner.Keys))
      ensures Delivered(old(net.rest), net.rest, socket, taken) && SameOthers(old(buffers.pool), buffers.pool, socket)
      ensures o.Packet? ==>
                && WellFormed(frame)
                && o == Seen(frame)
                && frame.head != []
                && o.header == frame.head[0]
                && o.data == frame.data
                && Ready(buffers.pool)
                && Kept(buffers.pool, socket) == []
                && old(Kept(buffers.pool, socket)) + taken == Wire(frame)
      ensures o.Partly? ==> Ready(buffers.pool) && Kept(buffers.pool, socket) == old(Kept(buffers.pool, socket)) + taken
      ensures o.Failed? ==> Broken(buffers.pool, socket)
      ensures Explained(old(net.Ended()), net.Ended(), socket, o.Failed?, old(Kept(buffers.pool, socket)) + taken)
      ensures HeadOf(old(Kept(buffers.pool, socket)) + taken) == Bad ==> o.Failed?
      ensures Asks(old(net.asked), net.asked, socket, true)
    {
      hide SocketBuffer.Valid, Reading, HeadOf, Kept, SameOthers, Ready, Broken, Delivered, Asks, AnsweredWith, NextOf,
           WellFormed;
      ghost var p, r0, a0 := buffers.pool, net.rest, net.asked;
      KeptIncomplete(p, socket);
      IncompleteHead(Kept(p, socket));
      frame := Frame([], []);
      var rc, header, remaining;
      ghost var h, t1, t2;
      rc, header, remaining, h, t1 := FixedHeader(socket);
      taken := t1;
      AsksTwice(a0, net.asked, net.asked, socket);
      assert taken == [] ==> Kept(p, socket) + taken == Kept(p, socket);
      if rc != COMPLETE {
        if rc == INTERRUPTED { PausedHead(buffers.pool, socket); }
        return if rc == INTERRUPTED then Partly else Failed, frame, taken;
      }
      ghost var q, r1, a1 := buffers.pool, net.rest, net.asked;
      HeadKept(q, socket, h);
      var data, actual_len;
      DeliveredTwice(r0, r1, r1, socket, t1, []);
      data, actual_len, t2 := Getdata(socket, remaining, h);
      taken := t1 + t2;
      DeliveredTwice(r0, r1, net.rest, socket, t1, t2);
      OthersTwice(p, q, buffers.pool, socket);
      AsksTwice(a0, a1, net.asked, socket);
      assert t2 == [] ==> t1 + t2 == t1;
      if data == null { return Failed, frame, taken; }
      if actual_len < remaining {
        assert Kept(p, socket) + (t1 + t2) == (Kept(p, socket) + t1) + t2;
        PausedHead(buffers.pool, socket);
        return Partly, frame, taken;
      }
      frame := Frame(h, data[..remaining]);
      FrameNext(frame);
      assert Kept(p, socket) + (t1 + t2) == (Kept(p, socket) + t1) + t2;
      o := Packet(header, data[..remaining]);
    }

    /** The header byte and the remaining length. */
    method FixedHeader(socket: int)
      returns (rc: Code, header: byte, remaining: nat, ghost h: seq<byte>, ghost taken: seq<byte>)
      requires buffers.Valid() && socket in net.rest && socket != 0 && Ready(buffers.pool)
      modifies net, buffers, buffers.objs.Keys, buffers.owner.Keys
      ensures
        && buffers.Valid() && fresh(buffers.objs.Keys - old(buffers.objs.Keys))
        && fresh(buffers.owner.Keys - old(buffers.owner.Keys))
      ensures Delivered(old(net.rest), net.rest, socket, taken) && SameOthers(old(buffers.pool), buffers.pool, socket)
      ensures rc == COMPLETE ==>
                && Reading(buffers.pool, socket, h)
                && HeadOf(h) == Full(|h|, remaining)
                && |h| > 0
                && h[0] == header
      ensures rc == INTERRUPTED ==> Ready(buffers.pool)
      ensures rc != SOCKET_ERROR ==> Kept(buffers.pool, socket) == old(Kept(buffers.pool, socket)) + taken
      ensures rc == SOCKET_ERROR ==> Broken(buffers.pool, socket)
      ensures Explained(old(net.Ended()), net.Ended(), socket, rc == SOCKET_ERROR,
                        old(Kept(buffers.pool, socket)) + taken)
      ensures Asks(old(net.asked), net.asked, socket,
                   taken != [] || MustAsk(rc, old(Kept(buffers.pool, socket)) + taken))
    {
      hide SocketBuffer.Valid, Reading, HeadOf, Kept, SameOthers, Ready, Broken, Delivered, Asks, AnsweredWith;
      ghost var p, r0, a0 := buffers.pool, net.rest, net.asked;
      AsksTwice(a0, a0, a0, socket);
      ghost var t2;
      Starts(p, socket);
      remaining, h := 0, [];
      rc, header, taken := Getch(socket, []);
      if rc == COMPLETE {
        ghost var q, r1, a1, t1 := buffers.pool, net.rest, net.asked, taken;
        assert [] + [header] == [header];
        DeliveredTwice(r0, r1, r1, socket, t1, []);
        rc, remaining, h, t2 := Decode(socket, header);
        taken := t1 + t2;
        AsksTwice(a0, a1, net.asked, socket);
        DeliveredTwice(r0, r1, net.rest, socket, t1, t2);
        DecodeTook(p, q, buffers.pool, socket, Kept(p, socket), t1, t2);
      }
    }

    /** Socket_close: what was saved for the socket is dropped. */
    method Close(socket: int)
      requires buffers.Valid() && Broken(buffers.pool, socket)
      modifies buffers, buffers.objs.Keys
      ensures buffers.Valid() && buffers.objs.Keys <= old(buffers.objs.Keys) && buffers.owner == old(buffers.owner)
      ensures Ready(buffers.pool) && SameOthers(old(buffers.pool), buffers.pool, socket)
    {
      hide Broken, Ready, Kept, SameOthers, SocketBuffer.Serves;
      buffers.DefaultOf();
      CleanupReady(buffers.pool, socket);
      buffers.Cleanup(socket);
    }

    /** One socket's turn. */
    method Turn(s: int, ghost whole: map<int, seq<byte>>, ghost frames: map<int, seq<Frame>>,
        ghost tails: map<int, seq<byte>>, got: map<int, seq<Outcome>>, live: set<int>)
      returns (got1: map<int, seq<Outcome>>, live1: set<int>, ghost frames1: map<int, seq<Frame>>,
          ghost tails1: map<int, seq<byte>>)
      requires buffers.Valid() && Ready(buffers.pool) && s in live
      requires Books(whole, frames, got, tails, net.rest, buffers.pool, live)
      modifies net, buffers, buffers.objs.Keys, buffers.owner.Keys
      ensures buffers.Valid() && Ready(buffers.pool)
      ensures fresh(buffers.objs.Keys - old(buffers.objs.Keys)) && fresh(buffers.owner.Keys - old(buffers.owner.Keys))
      ensures Books(whole, frames1, got1, tails1, net.rest, buffers.pool, live1)
      ensures live1 == live || live1 == live - {s}
      ensures s in live1 ==> net.Ended() == old(net.Ended())
      ensures s in tails1 && tails1 == tails[s := tails1[s]]
      ensures s !in live1 ==>
                net.Ended() == old(net.Ended()) + {s} || (net.Ended() == old(net.Ended()) && Spoilt(tails1[s]))
      ensures Asks(old(net.asked), net.asked, s, true)
    {
      hide SocketBuffer.Valid, Reading, HeadOf, Kept, SameOthers, Ready, Broken, OnePass, AllSeen, Books,
           Delivered, WellFormed, Asks, AnsweredWith, Spoilt;
      ghost var p, r := buffers.pool, net.rest;
      BooksHave(whole, frames, got, tails, r, p, live, s);
      live1 := live;
      var o, frame, taken := Factory(s);
      DeliveredIs(r, net.rest, s, taken);
      ghost var f, tail, g := frames[s], tails[s], got[s];
      if o.Failed? {
        ghost var q := buffers.pool;
        Close(s);
        OthersTwice(p, q, buffers.pool, s);
        live1 := live - {s};
        SpoiltNow(Kept(p, s), taken, net.rest[s]);
      } else if o.Packet? {
        AccountAdds(whole[s], frames[s], Kept(p, s), taken, net.rest[s], frame, got[s], o);
        f, tail, g := f + [frame], net.rest[s], g + [o];
      } else {
        assert Kept(p, s) + (taken + net.rest[s]) == (Kept(p, s) + taken) + net.rest[s];
      }
      BooksMove(whole, frames, got, tails, r, p, live, s, f, tail, g, net.rest, buffers.pool, taken, live1);
      frames1, tails1 := frames[s := f], tails[s := tail];
      got1 := got[s := got[s] + if o.Packet? then [o] else []];
      assert got1[s] == g;
    }

    /**
     * Reads from sockets in any order and any number of times, however their bytes are cut up. Each socket's
     * packets are those of one pass over its stream: the first ones, and all of them once the stream is drained. A
     * socket is given up only when the system has reported its end or an error, or when what follows its packets is
     * no packet; and every turn of a socket that is not given up asks the system for bytes.
     */
    method Serve(schedule: seq<int>) returns (got: map<int, seq<Outcome>>, live: set<int>)
      requires buffers.Valid() && buffers.pool.def.Blank() && buffers.pool.saved == map[] && 0 !in net.rest
      modifies net, buffers, buffers.objs.Keys, buffers.owner.Keys
      ensures buffers.Valid() && Ready(buffers.pool)
      ensures got.Keys == old(net.rest).Keys == net.rest.Keys && live <= got.Keys
      ensures forall s | s in got :: got[s] <= AllSeen(OnePass(old(net.rest)[s]))
      ensures forall s | s in got && s !in net.Ended() && (s !in live || net.rest[s] == []) ::
                got[s] == AllSeen(OnePass(old(net.rest)[s]))
      ensures forall s | s in live && net.rest[s] == [] :: got[s] == AllSeen(OnePass(old(net.rest)[s]))
      ensures forall s | s in got && s !in net.Ended() && s !in live :: EndOf(old(net.rest)[s]) == Malformed
      ensures forall s | s in live && s in net.Ended() :: s in old(net.Ended())
      ensures forall s | s in live :: multiset(net.asked)[s] >= multiset(old(net.asked))[s] + multiset(schedule)[s]
    {
      hide SocketBuffer.Valid, Reading, HeadOf, Kept, SameOthers, Ready, Broken, OnePass, AllSeen, Books,
           Delivered, WellFormed, AnsweredWith, Asks, Spoilt, NextOf, EndOf, Fates, Counted;
      ghost var whole, tails := net.rest, net.rest;
      ghost var frames: map<int, seq<Frame>> := NothingYet(net.rest.Keys);
      got := NothingYet(net.rest.Keys);
      live := net.rest.Keys;
      BooksOpen(whole, frames, got, buffers.pool);
      FatesOpen(tails, live, net.Ended());
      CountedNone(live, net.asked, schedule);
      for i := 0 to |schedule|
        invariant buffers.Valid() && Ready(buffers.pool)
        invariant fresh(buffers.objs.Keys - old(buffers.objs.Keys))
                  && fresh(buffers.owner.Keys - old(buffers.owner.Keys))
        invariant Books(whole, frames, got, tails, net.rest, buffers.pool, live)
        invariant Fates(tails, live, old(net.Ended()), net.Ended())
        invariant Counted(live, old(net.asked), schedule[..i], net.asked)
      {
        var s := schedule[i];
        ghost var a, e, was, t := net.asked, net.Ended(), live, tails;
        if s in live { got, live, frames, tails := Turn(s, whole, frames, tails, got, live); }
        CountedMore(was, old(net.asked), schedule, i, a, live, net.asked);
        if s in was { FatesMove(t, was, tails, live, old(net.Ended()), e, net.Ended(), s); }
      }
      assert schedule[..|schedule|] == schedule;
      BooksClose(whole, frames, got, tails, net.rest, buffers.pool, live);
      FatesAre(tails, live, old(net.Ended()), net.Ended());
      CountedIs(live, old(net.asked), schedule, net.asked);
    }
  }

  // ----- the accounts of all sockets -----

  /** Every socket's account is right, and a live socket's unread bytes are those kept and those to come. */
  ghost predicate Books(whole: map<int, seq<byte>>, frames: map<int, seq<Frame>>, got: map<int, seq<Outcome>>,
      tails: map<int, seq<byte>>, rest: map<int, seq<byte>>, p: Pool, live: set<int>) {
    && frames.Keys == whole.Keys && tails.Keys == whole.Keys && rest.Keys == whole.Keys && got.Keys == whole.Keys
    && 0 !in whole && live <= whole.Keys
    && (forall s | s in whole :: BookOf(whole, frames, got, tails, s))
    && (forall s | s in live :: tails[s] == Kept(p, s) + rest[s])
  }

  ghost predicate BookOf(whole: map<int, seq<byte>>, frames: map<int, seq<Frame>>, got: map<int, seq<Outcome>>,
      tails: map<int, seq<byte>>, s: int)
    requires s in whole && s in frames && s in got && s in tails
  {
    Account(whole[s], frames[s], tails[s]) && got[s] == AllSeen(frames[s])
  }

  /** A socket given up has ended or is spoilt, and one that is not has not ended since the start. */
  ghost predicate Fates(tails: map<int, seq<byte>>, live: set<int>, ended0: set<int>, ended: set<int>) {
    && (forall s | s in tails && s !in live && s !in ended :: Spoilt(tails[s]))
    && (forall s | s in live && s in ended :: s in ended0)
  }

  lemma FatesOpen(tails: map<int, seq<byte>>, live: set<int>, ended: set<int>)
    requires live == tails.Keys
    ensures Fates(tails, live, ended, ended)
  {
  }

  lemma FatesMove(tails: map<int, seq<byte>>, live: set<int>, tails1: map<int, seq<byte>>, live1: set<int>,
      ended0: set<int>, ended: set<int>, ended1: set<int>, s: int)
    requires Fates(tails, live, ended0, ended) && s in live && (live1 == live || live1 == live - {s})
    requires s in tails1 && tails1 == tails[s := tails1[s]]
    requires s in live1 ==> ended1 == ended
    requires s !in live1 ==> ended1 == ended + {s} || (ended1 == ended && Spoilt(tails1[s]))
    ensures Fates(tails1, live1, ended0, ended1)
  {
    hide Spoilt;
  }

  lemma FatesAre(tails: map<int, seq<byte>>, live: set<int>, ended0: set<int>, ended: set<int>)
    requires Fates(tails, live, ended0, ended)
    ensures forall s | s in tails && s !in live && s !in ended :: Spoilt(tails[s])
    ensures forall s | s in live && s in ended :: s in ended0
  {
  }

  /** What follows the packets of a socket is no packet. */
  ghost predicate Spoilt(tail: seq<byte>) { NextOf(tail) == Malformed }

  lemma SpoiltNow(kept: seq<byte>, taken: seq<byte>, rest: seq<byte>)
    ensures HeadOf(kept + taken) == Bad ==> Spoilt(kept + (taken + rest))
  {
    if HeadOf(kept + taken) == Bad {
      HeadStable(kept + taken, rest);
      assert (kept + taken) + rest == kept + (taken + rest);
    }
  }

  lemma BooksHave(whole: map<int, seq<byte>>, frames: map<int, seq<Frame>>, got: map<int, seq<Outcome>>,
      tails: map<int, seq<byte>>, rest: map<int, seq<byte>>, p: Pool, live: set<int>, s: int)
    requires Books(whole, frames, got, tails, rest, p, live) && s in live
    ensures s in whole && s in frames && s in got && s in tails && s in rest && s != 0
    ensures Account(whole[s], frames[s], tails[s]) && got[s] == AllSeen(frames[s]) && tails[s] == Kept(p, s) + rest[s]
  {
    assert BookOf(whole, frames, got, tails, s);
  }

  lemma KeptOthers(p: Pool, q: Pool, s: int, t: int)
    requires SameOthers(p, q, s) && t != s && t != 0 && Ready(p) && Ready(q)
    ensures Kept(p, t) == Kept(q, t)
  {
  }

  function NothingYet<T>(sockets: set<int>): (m: map<int, seq<T>>)
    ensures m.Keys == sockets && forall s | s in m :: m[s] == []
  {
    map s | s in sockets :: []
  }

  lemma BooksOpen(whole: map<int, seq<byte>>, frames: map<int, seq<Frame>>, got: map<int, seq<Outcome>>, p: Pool)
    requires p.def.Blank() && p.saved == map[] && 0 !in whole
    requires frames.Keys == whole.Keys && got.Keys == whole.Keys
              && forall s | s in whole :: frames[s] == [] && got[s] == []
    ensures Ready(p) && Books(whole, frames, got, whole, whole, p, whole.Keys)
  {
    forall s | s in whole ensures BookOf(whole, frames, got, whole, s) && whole[s] == Kept(p, s) + whole[s] {
      assert Flat([]) + whole[s] == whole[s];
      assert Kept(p, s) == [];
    }
  }

  /** One socket's account moves on and the others stay as they are. */
  lemma BooksMove(whole: map<int, seq<byte>>, frames: map<int, seq<Frame>>, got: map<int, seq<Outcome>>,
      tails: map<int, seq<byte>>, rest: map<int, seq<byte>>, p: Pool, live: set<int>, s: int, f: seq<Frame>,
      tail: seq<byte>, g: seq<Outcome>, rest1: map<int, seq<byte>>, q: Pool, taken: seq<byte>, live1: set<int>)
    requires Books(whole, frames, got, tails, rest, p, live) && s in live && Delivered(rest, rest1, s, taken)
    requires SameOthers(p, q, s) && Ready(p) && Ready(q) && live1 <= live
    requires Account(whole[s], f, tail) && g == AllSeen(f) && (s in live1 ==> tail == Kept(q, s) + rest1[s])
    ensures Books(whole, frames[s := f], got[s := g], tails[s := tail], rest1, q, live1)
  {
    hide Account, Kept, SameOthers, Ready, AllSeen;
    var frames1, got1, tails1 := frames[s := f], got[s := g], tails[s := tail];
    forall t | t in whole
        ensures BookOf(whole, frames1, got1, tails1, t) { assert BookOf(whole, frames, got, tails, t); }
    forall t | t in live1 ensures tails1[t] == Kept(q, t) + rest1[t] {
      if t != s { KeptOthers(p, q, s, t); }
    }
  }

  lemma BooksClose(whole: map<int, seq<byte>>, frames: map<int, seq<Frame>>, got: map<int, seq<Outcome>>,
      tails: map<int, seq<byte>>, rest: map<int, seq<byte>>, p: Pool, live: set<int>)
    requires Books(whole, frames, got, tails, rest, p, live) && Ready(p)
    ensures got.Keys == whole.Keys && rest.Keys == whole.Keys && live <= whole.Keys
    ensures forall s | s in whole :: got[s] <= AllSeen(OnePass(whole[s]))
    ensures forall s | s in live && rest[s] == [] :: got[s] == AllSeen(OnePass(whole[s]))
    ensures tails.Keys == whole.Keys
    ensures forall s | s in whole && Spoilt(tails[s]) ::
              got[s] == AllSeen(OnePass(whole[s])) && EndOf(whole[s]) == Malformed
  {
    hide Kept, Ready, OnePass, NextOf, WellFormed, AllSeen, Account, EndOf;
    forall s | s in whole
      ensures got[s] <= AllSeen(OnePass(whole[s]))
      ensures s in live && rest[s] == [] ==> got[s] == AllSeen(OnePass(whole[s]))
      ensures Spoilt(tails[s]) ==> got[s] == AllSeen(OnePass(whole[s])) && EndOf(whole[s]) == Malformed
    {
      assert BookOf(whole, frames, got, tails, s);
      AccountIsOnePass(whole[s], frames[s], tails[s]);
      SeenPrefix(frames[s], OnePass(whole[s]));
      if s in live && rest[s] == [] {
        KeptIncomplete(p, s);
        assert tails[s] == Kept(p, s);
      }
    }
  }

  lemma SeenPrefix(a: seq<Frame>, b: seq<Frame>)
    requires a <= b
    ensures AllSeen(a) <= AllSeen(b)
  {
  }

  /** What the caller sees of a packet: its header byte and its data. */
  function Seen(f: Frame): Outcome {
    Packet(if f.head == [] then 0 else f.head[0], f.data)
  }

  function AllSeen(fs: seq<Frame>): (o: seq<Outcome>)
    ensures |o| == |fs| && forall i | 0 <= i < |fs| :: o[i] == Seen(fs[i])
  {
    seq(|fs|, i requires 0 <= i < |fs| => Seen(fs[i]))
  }

  /** The packets found so far and the bytes that are left make up the socket's stream. */
  ghost predicate Account(whole: seq<byte>, fs: seq<Frame>, tail: seq<byte>) {
    whole == Flat(fs) + tail && forall f | f in fs :: WellFormed(f)
  }

  lemma AccountAdds(whole: seq<byte>, fs: seq<Frame>, kept: seq<byte>, taken: seq<byte>, rest: seq<byte>, f: Frame,
      g: seq<Outcome>, o: Outcome)
    requires
      && Account(whole, fs, kept + (taken + rest)) && kept + taken == Wire(f) && WellFormed(f) && g == AllSeen(fs)
      && o == Seen(f)
    ensures Account(whole, fs + [f], rest) && g + [o] == AllSeen(fs + [f])
  {
    FlatAppend(fs, f);
    assert Flat(fs) + (kept + (taken + rest)) == Flat(fs) + (kept + taken) + rest;
  }

  /**
   * Packets accounted for are the first packets of one pass over the stream, and all of them when no whole packet is
   * left.
   */
  lemma AccountIsOnePass(whole: seq<byte>, fs: seq<Frame>, tail: seq<byte>)
    requires Account(whole, fs, tail)
    ensures fs <= OnePass(whole)
    ensures !NextOf(tail).Complete? ==> fs == OnePass(whole) && EndOf(whole) == NextOf(tail)
  {
    OnePassFlat(fs, tail);
  }

  /** A call that ends this way has asked for bytes, whatever it has replayed. */
  ghost predicate MustAsk(rc: Code, read: seq<byte>) {
    rc == INTERRUPTED || (rc == SOCKET_ERROR && HeadOf(read) != Bad)
  }

  lemma IncompleteHead(b: seq<byte>)
    ensures NextOf(b) == Incomplete ==> HeadOf(b) != Bad
  {
  }

  lemma PausedHead(p: Pool, s: int)
    requires Ready(p) && s != 0
    ensures HeadOf(Kept(p, s)) != Bad
  {
    KeptIncomplete(p, s);
    IncompleteHead(Kept(p, s));
  }

  lemma FrameNext(f: Frame)
    requires HeadOf(f.head) == Full(|f.head|, |f.data|)
    ensures WellFormed(f) && NextOf(Wire(f)) != Incomplete && HeadOf(Wire(f)) != Bad
  {
    HeadStable(f.head, f.data);
  }

  /** Bytes that are no packet's are all kept. */
  lemma BadKept(p: Pool, s: int, h: seq<byte>)
    requires Reading(p, s, h) && HeadOf(h) == Bad
    ensures HeadOf(Kept(p, s)) == Bad
  {
    if s in p.saved {
      var q := p.saved[s];
      HeadStable(h, q.Header()[|h|..]);
      assert h + q.Header()[|h|..] == q.Header();
      HeadStable(q.Header(), q.Data());
    }
  }

  /** A full header stays one, whatever data follows. */
  lemma HeadKept(p: Pool, s: int, h: seq<byte>)
    requires Reading(p, s, h) && HeadOf(h).Full? && HeadOf(h).size == |h|
    ensures HeadOf(Kept(p, s)) == HeadOf(h)
  {
    HeaderWhole(p, s, h);
    HeadStable(h, p.Current(s).Data());
  }

  /** What a ready pool keeps for a socket is not a whole packet. */
  lemma KeptIncomplete(p: Pool, s: int)
    requires Ready(p) && s != 0
    ensures NextOf(Kept(p, s)) == Incomplete
  {
    if s in p.saved {
      var q := p.saved[s];
      if HeadOf(q.Header()).Full? { HeadStable(q.Header(), q.Data()); }
          else { assert q.Header() + q.Data() == q.Header(); }
    }
  }

  lemma ReplayStep(p: Pool, s: int, h: seq<byte>)
    requires Reading(p, s, h) && HeadOf(h) == Short
    ensures p.Replays(s) ==>
              && Reading(p.CharReplayed(s), s, h + [p.Replay(s)])
              && Kept(p.CharReplayed(s), s) == Kept(p, s)
              && SameOthers(p, p.CharReplayed(s), s)
    ensures !p.Replays(s) && s in p.saved ==> p.saved[s].index <= 4
    ensures SameOthers(p, p, s) && Kept(p, s) + [] == Kept(p, s)
  {
    if p.Replays(s) { ReplayReads(p, s, h); } else { ReplayDone(p, s, h); }
  }

  lemma DecodeStarts(p: Pool, s: int, first: byte)
    ensures HeadOf([first]) == Short && Partial([first][1..]) == 0 && Pow128(0) == 1
    ensures SameOthers(p, p, s) && Kept(p, s) + [] == Kept(p, s)
  {
    assert [first][1..] == [];
  }

  lemma DecodeTook(p: Pool, q: Pool, t: Pool, s: int, k: seq<byte>, a: seq<byte>, b: seq<byte>)
    requires SameOthers(p, q, s) && SameOthers(q, t, s)
    ensures SameOthers(p, t, s) && k + (a + b) == (k + a) + b
  {
  }

  /** The bit masks of the loop, as arithmetic: c & 127 is c % 128, and c & 128 tells whether c is at least 128. */
  lemma DecodeByte(h: seq<byte>, c: byte, value: int, multiplier: int)
    requires |h| > 0 && HeadOf(h) == Short && value == Partial(h[1..]) && multiplier == Pow128(|h| - 1)
    ensures |h| <= 4 && (h + [c])[0] == h[0] && multiplier * 128 == Pow128(|h|) && (c % 128) * multiplier >= 0
    ensures c < 128 ==> HeadOf(h + [c]) == Full(|h| + 1, value + (c % 128) * multiplier)
    ensures c >= 128 ==>
              && HeadOf(h + [c]) == (if |h| == 4 then Bad else Short)
              && value + (c % 128) * multiplier == Partial((h + [c])[1..])
  {
    hide HeadOf, Partial, Pow128;
    HeadSnoc(h, c);
    ShortHead(h);
    Pow128Positive(|h| - 1);
    var d: int, e: int := c % 128, if c < 128 then c else c - 128;
    assert d == e;
    SameProduct(d, e, multiplier);
  }

  lemma SameProduct(d: int, e: int, m: int)
    requires d == e >= 0 && m > 0
    ensures d * m == e * m >= 0
  {
  }

  lemma {:induction false} Pow128Positive(k: nat)
    ensures Pow128(k) > 0 && Pow128(k + 1) == 128 * Pow128(k)
  {
    if k > 0 { Pow128Positive(k - 1); }
  }

  lemma OthersTwice(p: Pool, q: Pool, t: Pool, s: int)
    ensures SameOthers(p, p, s)
    ensures SameOthers(p, q, s) && SameOthers(q, t, s) ==> SameOthers(p, t, s)
  {
  }

  lemma DataIs(q: Queue, after: seq<byte>, at: nat, chunk: seq<byte>)
    requires q.Sound() && at == q.datalen && at + |chunk| <= |q.buf|
              && after == q.buf[..at] + chunk + q.buf[at + |chunk|..]
    ensures q.Data() == q.buf[..at] && |after| == |q.buf| && after[..at + |chunk|] == q.Data() + chunk
    ensures q.Filled(at, chunk).buf == after
  {
  }

  lemma SoundRoom(q: Queue)
    requires q.Sound()
    ensures q.buflen <= |q.buf|
  {
  }

  /** The buffer handed out has room for the packet and the data kept so far in it. */
  lemma RoomReads(p: Pool, s: int, h: seq<byte>, bytes: nat, q: Pool, contents: seq<byte>, actual: nat)
    requires Reading(p, s, h) && HeadOf(h) == Full(|h|, bytes) && bytes > 0 && |contents| >= bytes
    requires actual == if s in p.saved then p.saved[s].datalen else 0
    requires q == if bytes <= p.Current(s).buflen then p else p.Update(s, p.Current(s).Enlarged(bytes, contents))
    requires bytes > p.Current(s).buflen ==> |contents| == bytes
    requires q.Current(s).buf == contents
    ensures Reading(q, s, h) && SameOthers(p, q, s) && Kept(q, s) == Kept(p, s) == h + contents[..actual]
    ensures actual == q.Current(s).datalen && actual < bytes <= q.Current(s).buflen && (s in q.saved <==> s in p.saved)
    ensures q.Current(s).Sound()
  {
    HeaderWhole(p, s, h);
    if bytes > p.Current(s).buflen { EnlargedReads(p, s, h, bytes, contents); }
    HeaderWhole(q, s, h);
  }
}
