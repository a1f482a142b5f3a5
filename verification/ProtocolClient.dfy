// The client of MQTTProtocolClient.c and MQTTPersistence.c: lists, store and socket updated in
// place by the handlers, each proved to do what the functions of module Handlers say.

module ProtocolClient {
  import opened Packets
  import opened Persistence
  import opened Handlers
  import opened MsgIds
  import E = Exchange

  /** An entry of inboundMsgs; the publication is gone once a V5 client has handed it over. */
  datatype InMsg = InMsg(id: int, held: E.Held)

  /** The records of the receiver role, by id. */
  function Records(list: seq<InMsg>): map<int, E.Held> {
    if list == [] then map[] else Records(list[1..])[list[0].id := list[0].held]
  }

  ghost predicate DistinctIn(list: seq<InMsg>) {
    forall i, j | 0 <= i < j < |list| :: list[i].id != list[j].id
  }

  function Sends(packets: seq<Packet>): seq<Op> {
    seq(|packets|, i requires 0 <= i < |packets| => Send(packets[i]))
  }

  /** What retries does for the first n entries: those that are due are sent again. */
  function RetryOps(v5: bool, list: seq<OutMsg>, due: seq<bool>, n: nat): seq<Op>
    requires n <= |list| == |due|
  {
    if n == 0 then [] else RetryOps(v5, list, due, n - 1) + if due[n - 1] then ResendOps(v5, list[n - 1]) else []
  }

  /** The records of received QoS 2 messages; only the older version still has them to deliver. */
  function RestoredInbound(v5: bool, store: Store, keys: seq<Key>): seq<InMsg> {
    if keys == [] then []
    else RestoredInbound(v5, store, keys[..|keys| - 1]) + RestoredRecord(v5, store, keys[|keys| - 1])
  }

  /** The key's messages can be looked up: only a SENT key may have a PUBREL key that is too long. */
  predicate KeyRestorable(v5: bool, k: Key) {
    match k.kind
    case RECEIVED => true
    case SENT => Fits(Key(v5, PUBREL_SENT, k.id))
    case PUBREL_SENT => Fits(Key(v5, SENT, k.id))
  }

  function RestoredRecord(v5: bool, store: Store, k: Key): seq<InMsg>
  {
    if k in store && k.kind == RECEIVED
        && store[k].RecPublish? then [InMsg(store[k].id, if v5 then E.Nothing else E.Held(store[k].msg))]
    else []
  }

  function PurgeOf(v5: bool, store: Store, k: Key): seq<Op> {
    if k in store && k.kind == PUBREL_SENT && Key(v5, SENT, k.id) !in store then [Remove(k)] else []
  }

  /** How far the restore loop has come after the given keys. */
  ghost predicate RestoreStep(v5: bool, before: Store, now: Store, keys: seq<Key>, out: seq<OutMsg>, inb: seq<InMsg>,
      log: seq<Op>) {
    && out == RestoreSorted(v5, before, keys)
    && inb == RestoredInbound(v5, before, keys)
    && log == PurgeOps(before, keys)
    && now == ApplyOps(before, log)
    && SameButOrphans(before, now, keys)
  }

  ghost predicate SameButOrphans(before: Store, now: Store, keys: seq<Key>) {
    && (forall k | k in now :: k in before && now[k] == before[k])
    && (forall k | k in before && (k !in keys || !Orphan(before, k)) :: k in now)
  }

  lemma RestoreBegin(v5: bool, store: Store, keys: seq<Key>)
    ensures RestoreStep(v5, store, store, keys[..0], [], [], [])
  {
  }

  lemma RestoreDone(v5: bool, before: Store, now: Store, keys: seq<Key>, out: seq<OutMsg>, inb: seq<InMsg>,
      log: seq<Op>)
    requires RestoreStep(v5, before, now, keys, out, inb, log)
    ensures out == RestoreSorted(v5, before, keys) && inb == RestoredInbound(v5, before, keys)
    ensures log == PurgeOps(before, keys) && now == ApplyOps(before, log)
  {
  }

  /** The first n keys can all be restored. */
  ghost predicate RestorableUpTo(v5: bool, keys: seq<Key>, n: nat)
    requires n <= |keys|
  {
    forall j | 0 <= j < n :: KeyRestorable(v5, keys[j])
  }

  lemma RestorableNext(v5: bool, keys: seq<Key>, n: nat)
    requires n <= |keys|
    ensures RestorableUpTo(v5, keys, 0) && (RestorableUpTo(v5, keys, |keys|) ==> RestorableUpTo(v5, keys, n))
    ensures n < |keys| ==>
              (RestorableUpTo(v5, keys, n + 1) <==> RestorableUpTo(v5, keys, n) && KeyRestorable(v5, keys[n]))
  {
    hide KeyRestorable;
  }

  lemma RestorableKeys(v5: bool, store: Store, keys: seq<Key>)
    requires WellFormedStore(v5, store) && Enumerates(keys, store)
    ensures Restorable(store) <==> RestorableUpTo(v5, keys, |keys|)
  {
    forall k | k in keys && k.kind == PUBREL_SENT ensures KeyRestorable(v5, k) { FitsExactly(Key(v5, SENT, k.id)); }
    hide Fits;
    if forall j | 0 <= j < |keys| :: KeyRestorable(v5, keys[j]) {
      forall k | k in store && k.kind == SENT ensures Fits(Key(k.v5, PUBREL_SENT, k.id)) {
        assert k in keys;
        assert KeyRestorable(v5, k);
      }
    }
  }

  /** The key the loop has come to, and those it asks about, are in the store exactly if they were at first. */
  lemma KeyUntouched(v5: bool, before: Store, now: Store, keys: seq<Key>, i: nat, out: seq<OutMsg>, inb: seq<InMsg>,
      log: seq<Op>)
    requires WellFormedStore(v5, before) && Enumerates(keys, before) && i < |keys|
    requires RestoreStep(v5, before, now, keys[..i], out, inb, log)
    ensures var k := keys[i];
            && k in before && k in now && now[k] == before[k] && now[k].id == k.id && k.v5 == v5
            && (k.kind == PUBREL_SENT <==> now[k].RecPubrel?)
            && (k.kind == SENT ==> RestoredMsg(v5, now, now[k]) == RestoredMsg(v5, before, before[k]))
            && PurgeOf(v5, now, k) == (if Orphan(before, k) then [Remove(k)] else [])
            && RestoredRecord(v5, now, k) == RestoredRecord(v5, before, k)
  {
    hide Fits, RestoreSorted, RestoredInbound, PurgeOps, ApplyOps;
    var k := keys[i];
    assert k in before && k !in keys[..i];
    if k.kind == SENT { assert !Orphan(before, Key(v5, PUBREL_SENT, k.id)); }
  }

  lemma RestoreMore(v5: bool, before: Store, now: Store, keys: seq<Key>, i: nat, out: seq<OutMsg>, inb: seq<InMsg>,
      log: seq<Op>, now': Store, out': seq<OutMsg>, inb': seq<InMsg>, log': seq<Op>)
    requires WellFormedStore(v5, before) && Enumerates(keys, before) && i < |keys|
    requires RestoreStep(v5, before, now, keys[..i], out, inb, log)
    requires var k := keys[i];
             && k in now && (k.kind == SENT ==> now[k].RecPublish?)
             && out' == (if k.kind == SENT then InsertInOrder(out, RestoredMsg(v5, now, now[k])) else out)
             && inb' == inb + RestoredRecord(v5, now, k)
             && log' == log + PurgeOf(v5, now, k) && now' == ApplyOps(now, PurgeOf(v5, now, k))
    ensures RestoreStep(v5, before, now', keys[..i + 1], out', inb', log')
  {
    hide Fits, InsertInOrder, RestoredMsg, RestoredRecord, Enumerates, WellFormedStore, RestoreSorted,
         RestoredInbound, PurgeOps, ApplyOps, SameButOrphans, Orphan;
    var k := keys[i];
    KeyUntouched(v5, before, now, keys, i, out, inb, log);
    OneMoreKey(v5, before, keys, i);
    SameMore(before, now, keys, i);
    if Orphan(before, k) {
      ApplyOne(now, Remove(k));
      ApplyMore(before, log, Remove(k));
    } else {
      ApplyNone(now);
      assert log + [] == log;
    }
  }

  lemma ApplyNone(store: Store)
    ensures ApplyOps(store, []) == store
  {
  }

  lemma OneMoreKey(v5: bool, store: Store, keys: seq<Key>, i: nat)
    requires WellFormedStore(v5, store) && i < |keys| && keys[i] in store
    ensures var k := keys[i];
            && RestoreSorted(v5, store, keys[..i + 1]) ==
                 (if k.kind == SENT
                     then InsertInOrder(RestoreSorted(v5, store, keys[..i]), RestoredMsg(v5, store, store[k]))
                  else RestoreSorted(v5, store, keys[..i]))
            && RestoredInbound(v5, store, keys[..i + 1]) == RestoredInbound(v5, store, keys[..i]) + RestoredRecord(v5,
                 store, k)
            && PurgeOps(store, keys[..i + 1]) == PurgeOps(store, keys[..i]) + if Orphan(store, k) then [Remove(k)]
                 else []
  {
    hide Fits, InsertInOrder, RestoredMsg;
    assert keys[..i + 1][..i] == keys[..i] && keys[..i + 1][i] == keys[i];
  }

  lemma SameMore(before: Store, now: Store, keys: seq<Key>, i: nat)
    requires i < |keys| && SameButOrphans(before, now, keys[..i])
    ensures SameButOrphans(before, if Orphan(before, keys[i]) then now - {keys[i]} else now, keys[..i + 1])
  {
    assert keys[..i + 1] == keys[..i] + [keys[i]];
    hide Orphan;
  }

  class Client {
    const v5: bool
    var outboundMsgs: seq<OutMsg>
    var inboundMsgs: seq<InMsg>
    var messageQueue: seq<Message>
    var msgID: int
    var store: Store
    ghost var log: seq<Op>

    constructor (v5: bool, store: Store)
      ensures this.v5 == v5 && this.store == store
      ensures outboundMsgs == [] && inboundMsgs == [] && messageQueue == [] && msgID == 0 && log == []
    {
      this.v5 := v5;
      this.store := store;
      outboundMsgs, inboundMsgs, messageQueue, msgID := [], [], [], 0;
      log := [];
    }

    // ----- the store and the socket -----

    method PPut(k: Key, r: Record)
      modifies this`store, this`log
      ensures store == ApplyOp(old(store), Put(k, r)) && log == old(log) + [Put(k, r)]
    {
      store := store[k := r];
      log := log + [Put(k, r)];
    }

    method PRemove(k: Key)
      modifies this`store, this`log
      ensures store == ApplyOp(old(store), Remove(k)) && log == old(log) + [Remove(k)]
    {
      store := store - {k};
      log := log + [Remove(k)];
    }

    method Write(p: Packet)
      modifies this`log
      ensures log == old(log) + [Send(p)]
    {
      log := log + [Send(p)];
    }

    method PutPacket(k: Key, r: Record)
      modifies this`store, this`log
      ensures log == old(log) + PutOps(k, r) && store == ApplyOps(old(store), PutOps(k, r))
    {
      if |KeyString(k)| < KEYSIZE {
        PPut(k, r);
        ApplyOne(old(store), Put(k, r));
      }
    }

    method RemoveSent(id: int)
      modifies this`store, this`log
      ensures log == old(log) + RemoveSentOps(id) && store == ApplyOps(old(store), RemoveSentOps(id))
    {
      ghost var s, ops: seq<Op> := store, [];
      var k := Key(true, SENT, id);
      if |KeyString(k)| < KEYSIZE {
        ApplyMore(s, ops, Remove(k));
        PRemove(k);
        ops := ops + [Remove(k)];
        k := Key(true, PUBREL_SENT, id);
        if |KeyString(k)| < KEYSIZE {
          ApplyMore(s, ops, Remove(k));
          PRemove(k);
          ops := ops + [Remove(k)];
          k := Key(false, SENT, id);
          if |KeyString(k)| < KEYSIZE {
            ApplyMore(s, ops, Remove(k));
            PRemove(k);
            ops := ops + [Remove(k)];
            k := Key(false, PUBREL_SENT, id);
            if |KeyString(k)| < KEYSIZE {
              ApplyMore(s, ops, Remove(k));
              PRemove(k);
              ops := ops + [Remove(k)];
            }
          }
        }
      }
      assert ops == RemoveSentOps(id);
    }

    method RemoveReceived(id: int)
      modifies this`store, this`log
      ensures log == old(log) + RemoveReceivedOps(id) && store == ApplyOps(old(store), RemoveReceivedOps(id))
    {
      ghost var s, ops: seq<Op> := store, [];
      var k := Key(true, RECEIVED, id);
      if |KeyString(k)| < KEYSIZE {
        ApplyMore(s, ops, Remove(k));
        PRemove(k);
        ops := ops + [Remove(k)];
        k := Key(false, RECEIVED, id);
        if |KeyString(k)| < KEYSIZE {
          ApplyMore(s, ops, Remove(k));
          PRemove(k);
          ops := ops + [Remove(k)];
        }
      }
      assert ops == RemoveReceivedOps(id);
    }

    // ----- the lists -----

    method FindOutbound(id: int) returns (i: nat)
      ensures i == Find(outboundMsgs, id)
    {
      i := 0;
      while i < |outboundMsgs| && outboundMsgs[i].id != id
        invariant i <= |outboundMsgs|
        invariant forall j | 0 <= j < i :: outboundMsgs[j].id != id
      {
        i := i + 1;
      }
    }

    method FindInbound(id: int) returns (i: nat)
      ensures i <= |inboundMsgs| && (i < |inboundMsgs| ==> inboundMsgs[i].id == id)
      ensures forall j | 0 <= j < i :: inboundMsgs[j].id != id
    {
      i := 0;
      while i < |inboundMsgs| && inboundMsgs[i].id != id
        invariant i <= |inboundMsgs|
        invariant forall j | 0 <= j < i :: inboundMsgs[j].id != id
      {
        i := i + 1;
      }
    }

    /** The next id to use, or 0 if none is available. */
    method AssignMsgId() returns (id: int)
      requires 0 <= msgID <= MAX_MSG_ID && SearchEnds(outboundMsgs, msgID)
      modifies this`msgID
      ensures Chosen(outboundMsgs, old(msgID), id)
      ensures msgID == if id != 0 then id else old(msgID)
      ensures id != 0 ==>
                && 1 <= id <= 65535 && id != old(msgID) && !HasId(outboundMsgs, id)
                && (id > old(msgID) ==> forall x | old(msgID) < x < id :: HasId(outboundMsgs, x))
                && (id < old(msgID) ==>
                      forall x | old(msgID) < x <= 65535 || 1 <= x < id :: HasId(outboundMsgs, x))
      ensures id == 0 ==> forall x | 1 <= x <= 65535 && x != old(msgID) :: HasId(outboundMsgs, x)
    {
      hide Chosen, HasId, Nth, SearchEnds;
      var start := msgID;
      id := if start == MAX_MSG_ID then 1 else start + 1;
      ghost var n: nat := 1;
      FirstNth(start);
      var i := FindOutbound(id);
      while i < |outboundMsgs|
        invariant msgID == start
        invariant 1 <= n <= MAX_MSG_ID && id == Nth(start, n) && MsgId(id) && id != start
        invariant i == Find(outboundMsgs, id)
        invariant Taken(outboundMsgs, start, n)
        decreases MAX_MSG_ID - n
      {
        TakenMore(outboundMsgs, start, n);
        id := if id == MAX_MSG_ID then 1 else id + 1;
        n := n + 1;
        if id == start {
          TakenRound(outboundMsgs, start, n);
          id := 0;
          break;
        }
        i := FindOutbound(id);
      }
      if id != 0 {
        FreeFound(outboundMsgs, start, n);
        TakenIds(outboundMsgs, start, n);
        msgID := id;
      } else {
        NoneFree(outboundMsgs, start);
      }
    }

    // ----- the sender role -----

    /** startPublish for QoS 1 and 2: the message is listed, then stored, then written. */
    method StartPublish(id: int, m: Message)
      modifies this`outboundMsgs, this`store, this`log
      ensures outboundMsgs == After(v5, old(outboundMsgs), Start(id, m))
      ensures log == old(log) + Ops(v5, old(outboundMsgs), Start(id, m))
      ensures store == ApplyOps(old(store), Ops(v5, old(outboundMsgs), Start(id, m)))
      ensures outboundMsgs == old(outboundMsgs) + [OutMsg(id, m, PUBREC)]
      ensures MsgId(id) ==>
                && log == old(log) + [Put(Key(v5, SENT, id), RecPublish(id, false, m)), Send(Publish(id, false, m))]
                && store == old(store)[Key(v5, SENT, id) := RecPublish(id, false, m)]
    {
      if MsgId(id) { PublishTwice(v5, store, id, false, m); }
      hide PublishOps;
      outboundMsgs := outboundMsgs + [OutMsg(id, m, PUBREC)];
      SendPublish(id, false, m);
    }

    method SendPublish(id: int, dup: bool, m: Message)
      modifies this`store, this`log
      ensures log == old(log) + PublishOps(v5, id, dup, m) && store == ApplyOps(old(store), PublishOps(v5, id, dup, m))
    {
      PutPacket(Key(v5, SENT, id), RecPublish(id, dup, m));
      ApplyMore(old(store), PutOps(Key(v5, SENT, id), RecPublish(id, dup, m)), Send(Publish(id, dup, m)));
      Write(Publish(id, dup, m));
    }

    method SendPubrel(id: int)
      modifies this`store, this`log
      ensures log == old(log) + PubrelOps(v5, id) && store == ApplyOps(old(store), PubrelOps(v5, id))
    {
      PutPacket(Key(v5, PUBREL_SENT, id), RecPubrel(id));
      ApplyMore(old(store), PutOps(Key(v5, PUBREL_SENT, id), RecPubrel(id)), Send(Pubrel(id, false)));
      Write(Pubrel(id, false));
    }

    method HandlePuback(id: int)
      modifies this`outboundMsgs, this`store, this`log
      ensures outboundMsgs == After(v5, old(outboundMsgs), Ack(Puback(id)))
      ensures log == old(log) + Ops(v5, old(outboundMsgs), Ack(Puback(id)))
      ensures store == ApplyOps(old(store), Ops(v5, old(outboundMsgs), Ack(Puback(id))))
      ensures (forall i | 0 <= i < |old(outboundMsgs)| :: old(outboundMsgs)[i].id == id ==>
                 old(outboundMsgs)[i].msg.qos != 1) ==>
                outboundMsgs == old(outboundMsgs) && log == old(log) && store == old(store)
      ensures forall i | 0 <= i < |old(outboundMsgs)| && DistinctIds(old(outboundMsgs)) ::
                old(outboundMsgs)[i].id == id && old(outboundMsgs)[i].msg.qos == 1 ==>
                  && outboundMsgs == old(outboundMsgs)[..i] + old(outboundMsgs)[i + 1..]
                  && Writes(log[|old(log)|..]) == []
                  && (1 <= id < 10000 ==> Forgotten(old(store), store, id))
    {
      hide RemoveSentOps;
      SentForgotten(store, id);
      var i := FindOutbound(id);
      assert forall j | 0 <= j < |outboundMsgs| && DistinctIds(outboundMsgs) && outboundMsgs[j].id == id :: j == i;
      if i < |outboundMsgs| && outboundMsgs[i].msg.qos == 1 {
        RemoveSent(id);
        outboundMsgs := outboundMsgs[..i] + outboundMsgs[i + 1..];
      }
    }

    method HandlePubrec(id: int, rc: int)
      modifies this`outboundMsgs, this`store, this`log
      ensures outboundMsgs == After(v5, old(outboundMsgs), Ack(Pubrec(id, rc)))
      ensures log == old(log) + Ops(v5, old(outboundMsgs), Ack(Pubrec(id, rc)))
      ensures store == ApplyOps(old(store), Ops(v5, old(outboundMsgs), Ack(Pubrec(id, rc))))
      ensures (forall i | 0 <= i < |old(outboundMsgs)| :: old(outboundMsgs)[i].id == id ==>
                 old(outboundMsgs)[i].msg.qos != 2 || old(outboundMsgs)[i].next != PUBREC) ==>
                outboundMsgs == old(outboundMsgs) && log == old(log) && store == old(store)
      ensures forall i | 0 <= i < |old(outboundMsgs)| && DistinctIds(old(outboundMsgs)) ::
                old(outboundMsgs)[i].id == id && old(outboundMsgs)[i].msg.qos == 2
                    && old(outboundMsgs)[i].next == PUBREC ==>
                  if v5 && rc >= 128 then
                    && outboundMsgs == old(outboundMsgs)[..i] + old(outboundMsgs)[i + 1..]
                    && Writes(log[|old(log)|..]) == []
                    && (1 <= id < 10000 ==> Forgotten(old(store), store, id))
                  else
                    && outboundMsgs == old(outboundMsgs)[i := old(outboundMsgs)[i].(next := PUBCOMP)]
                    && Writes(log[|old(log)|..]) == [Pubrel(id, false)]
                    && (1 <= id < 10000 ==> store == old(store)[Key(v5, PUBREL_SENT, id) := RecPubrel(id)])
    {
      hide RemoveSentOps, PubrelOps;
      SentForgotten(store, id);
      PubrelWritten(v5, store, id);
      var i := FindOutbound(id);
      assert forall j | 0 <= j < |outboundMsgs| && DistinctIds(outboundMsgs) && outboundMsgs[j].id == id :: j == i;
      if i < |outboundMsgs| {
        var m := outboundMsgs[i];
        if m.msg.qos != 2 {
        } else if m.next != PUBREC {
        } else if v5 && rc >= UNSPECIFIED_ERROR {
          RemoveSent(id);
          outboundMsgs := outboundMsgs[..i] + outboundMsgs[i + 1..];
        } else {
          SendPubrel(id);
          outboundMsgs := outboundMsgs[i := m.(next := PUBCOMP)];
        }
      }
    }

    method HandlePubcomp(id: int)
      modifies this`outboundMsgs, this`store, this`log
      ensures outboundMsgs == After(v5, old(outboundMsgs), Ack(Pubcomp(id)))
      ensures log == old(log) + Ops(v5, old(outboundMsgs), Ack(Pubcomp(id)))
      ensures store == ApplyOps(old(store), Ops(v5, old(outboundMsgs), Ack(Pubcomp(id))))
      ensures (forall i | 0 <= i < |old(outboundMsgs)| :: old(outboundMsgs)[i].id == id ==>
                 old(outboundMsgs)[i].msg.qos != 2 || old(outboundMsgs)[i].next != PUBCOMP) ==>
                outboundMsgs == old(outboundMsgs) && log == old(log) && store == old(store)
      ensures forall i | 0 <= i < |old(outboundMsgs)| && DistinctIds(old(outboundMsgs)) ::
                old(outboundMsgs)[i].id == id && old(outboundMsgs)[i].msg.qos == 2
                    && old(outboundMsgs)[i].next == PUBCOMP ==>
                  && outboundMsgs == old(outboundMsgs)[..i] + old(outboundMsgs)[i + 1..]
                  && Writes(log[|old(log)|..]) == []
                  && (1 <= id < 10000 ==> Forgotten(old(store), store, id))
    {
      hide RemoveSentOps;
      SentForgotten(store, id);
      var i := FindOutbound(id);
      assert forall j | 0 <= j < |outboundMsgs| && DistinctIds(outboundMsgs) && outboundMsgs[j].id == id :: j == i;
      if i < |outboundMsgs| {
        var m := outboundMsgs[i];
        if m.msg.qos == 2 && m.next == PUBCOMP {
          RemoveSent(id);
          outboundMsgs := outboundMsgs[..i] + outboundMsgs[i + 1..];
        }
      }
    }

    /** One entry of retries; `written` says that a packet went to the socket. */
    method Resend(m: OutMsg) returns (written: bool)
      modifies this`store, this`log
      ensures log == old(log) + ResendOps(v5, m) && store == ApplyOps(old(store), ResendOps(v5, m))
      ensures |Writes(ResendOps(v5, m))| == if written then 1 else 0
    {
      ResendWrites(v5, m);
      written := true;
      if m.msg.qos == 1 || (m.msg.qos == 2 && m.next == PUBREC) {
        SendPublish(m.id, true, m.msg);
      } else if m.msg.qos != 0 && m.next == PUBCOMP {
        SendPubrel(m.id);
      } else {
        written := false;
      }
    }

    /**
     * retries: entry by entry, those that are due are sent again, for as long as the socket takes packets
     * without an error or a pending write; `room` writes are taken.
     */
    method Retries(due: seq<bool>, room: nat) returns (n: nat, ghost at: seq<nat>)
      requires |due| == |outboundMsgs|
      modifies this`store, this`log
      ensures n <= |outboundMsgs| && log == old(log) + RetryOps(v5, outboundMsgs, due, n)
      ensures store == ApplyOps(old(store), RetryOps(v5, outboundMsgs, due, n))
      ensures room >= |outboundMsgs| ==> n == |outboundMsgs|
      ensures (forall e | e in outboundMsgs :: e.msg.qos == 1 || e.msg.qos == 2) ==>
                var packets := Writes(log[|old(log)|..]);
                && |packets| == |at|
                && (forall j, k | 0 <= j < k < |at| :: at[j] < at[k])
                && (forall k | 0 <= k < |at| :: at[k] < n && due[at[k]])
                && (forall k | 0 <= k < |at| ::
                      var e := outboundMsgs[at[k]];
                      packets[k] == if e.msg.qos == 1 || e.next == PUBREC then Publish(e.id, true, e.msg)
                                    else Pubrel(e.id, false))
                && (forall i | 0 <= i < n && due[i] :: i in at)
      ensures var packets := Writes(log[|old(log)|..]);
              |packets| <= room && (n < |outboundMsgs| ==> |packets| == room)
    {
      hide ResendOps, ApplyOp, Writes;
      n := 0;
      WritesNone();
      var left: nat := room;
      while n < |outboundMsgs| && left > 0
        invariant n <= |outboundMsgs| && left + n >= room
        invariant left + |Writes(RetryOps(v5, outboundMsgs, due, n))| == room
        invariant log == old(log) + RetryOps(v5, outboundMsgs, due, n)
        invariant store == ApplyOps(old(store), RetryOps(v5, outboundMsgs, due, n))
      {
        if due[n] {
          ApplyBoth(old(store), RetryOps(v5, outboundMsgs, due, n), ResendOps(v5, outboundMsgs[n]));
          WritesBoth(RetryOps(v5, outboundMsgs, due, n), ResendOps(v5, outboundMsgs[n]));
          var written := Resend(outboundMsgs[n]);
          left := if written then left - 1 else left;
        } else {
          assert RetryOps(v5, outboundMsgs, due, n) + [] == RetryOps(v5, outboundMsgs, due, n);
        }
        n := n + 1;
      }
      assert log[|old(log)|..] == RetryOps(v5, outboundMsgs, due, n);
      assert |Writes(log[|old(log)|..])| == room - left;
      at := [];
      if forall e | e in outboundMsgs :: e.msg.qos == 1 || e.msg.qos == 2 {
        at := RetryWrites(v5, outboundMsgs, due, n);
      }
    }

    // ----- the receiver role -----

    /** handlePublishes; `free` says that the socket has no pending write. */
    method HandlePublish(id: int, dup: bool, m: Message, free: bool)
      requires DistinctIn(inboundMsgs)
      modifies this`inboundMsgs, this`messageQueue, this`log
      ensures DistinctIn(inboundMsgs)
      ensures var r := E.React(v5, Records(old(inboundMsgs)), Publish(id, dup, m), free);
              && Records(inboundMsgs) == r.inb
              && messageQueue == old(messageQueue) + r.deliver
              && log == old(log) + Sends(r.reply)
      ensures m.qos == 0 ==>
                messageQueue == old(messageQueue) + [m] && inboundMsgs == old(inboundMsgs) && log == old(log)
      ensures m.qos > 0 && !free ==>
                messageQueue == old(messageQueue) && inboundMsgs == old(inboundMsgs) && log == old(log)
      ensures m.qos == 1 && free ==>
                && messageQueue == old(messageQueue) + [m]
                && inboundMsgs == old(inboundMsgs)
                && log == old(log) + [Send(Puback(id))]
      ensures m.qos == 2 && free ==> log == old(log) + [Send(Pubrec(id, 0))]
      ensures m.qos == 2 && free && (forall i | 0 <= i < |old(inboundMsgs)| :: old(inboundMsgs)[i].id != id) ==>
                && messageQueue == old(messageQueue) + (if v5 then [m] else [])
                && inboundMsgs == old(inboundMsgs) + [InMsg(id, if v5 then E.Nothing else E.Held(m))]
      ensures forall i | 0 <= i < |old(inboundMsgs)| && m.qos == 2 && free && old(inboundMsgs)[i].id == id ::
                messageQueue == old(messageQueue) && inboundMsgs == old(inboundMsgs)[i := InMsg(id, E.Held(m))]
    {
      OneSend(Puback(id));
      OneSend(Pubrec(id, 0));
      if m.qos == 0 {
        messageQueue := messageQueue + [m];
      } else if !free {
      } else if m.qos == 1 {
        Write(Puback(id));
        messageQueue := messageQueue + [m];
      } else if m.qos == 2 {
        var entry := InMsg(id, E.Held(m));
        var i := FindInbound(id);
        RecordsFind(inboundMsgs, id, i);
        var already_received := i < |inboundMsgs|;
        if already_received {
          RecordsUpdate(inboundMsgs, i, entry);
          assert inboundMsgs[i := entry] == inboundMsgs[..i] + [entry] + inboundMsgs[i + 1..];
          inboundMsgs := inboundMsgs[..i] + [entry] + inboundMsgs[i + 1..];
        } else {
          RecordsAppend(inboundMsgs, entry);
          inboundMsgs := inboundMsgs + [entry];
        }
        Write(Pubrec(id, 0));
        if v5 && !already_received {
          messageQueue := messageQueue + [m];
          RecordsUpdate(inboundMsgs, i, InMsg(id, E.Nothing));
          inboundMsgs := inboundMsgs[..i] + [InMsg(id, E.Nothing)] + inboundMsgs[i + 1..];
        }
      }
    }

    /** handlePubrels: the message held is delivered, the PUBREL answered and the record dropped. */
    method HandlePubrel(id: int, dup: bool, free: bool)
      requires DistinctIn(inboundMsgs)
      modifies this`inboundMsgs, this`messageQueue, this`store, this`log
      ensures DistinctIn(inboundMsgs)
      ensures var r := E.React(v5, Records(old(inboundMsgs)), Pubrel(id, dup), free);
              var removed := if id in Records(old(inboundMsgs)) && free then RemoveReceivedOps(id) else [];
              && Records(inboundMsgs) == r.inb
              && messageQueue == old(messageQueue) + r.deliver
              && log == old(log) + Sends(r.reply) + removed
              && store == ApplyOps(old(store), removed)
      ensures (forall i | 0 <= i < |old(inboundMsgs)| :: old(inboundMsgs)[i].id != id) ==>
                && messageQueue == old(messageQueue) && inboundMsgs == old(inboundMsgs) && store == old(store)
                && log == old(log) + (if dup && free then [Send(Pubcomp(id))] else [])
      ensures forall i | 0 <= i < |old(inboundMsgs)| && old(inboundMsgs)[i].id == id && !free ::
                && messageQueue == old(messageQueue) && inboundMsgs == old(inboundMsgs) && store == old(store)
                && log == old(log)
      ensures forall i | 0 <= i < |old(inboundMsgs)| && old(inboundMsgs)[i].id == id && free ::
                && inboundMsgs == old(inboundMsgs)[..i] + old(inboundMsgs)[i + 1..]
                && messageQueue == old(messageQueue)
                     + (if !v5 && old(inboundMsgs)[i].held.Held? then [old(inboundMsgs)[i].held.msg] else [])
                && Writes(log[|old(log)|..]) == [Pubcomp(id)]
                && (MsgId(id) ==> Released(old(store), store, id))
    {
      OneSend(Pubcomp(id));
      ReceivedReleased(store, id);
      WritesAfter(Pubcomp(id), RemoveReceivedOps(id));
      hide RemoveReceivedOps;
      var i := FindInbound(id);
      RecordsFind(inboundMsgs, id, i);
      if i == |inboundMsgs| {
        if dup && free {
          Write(Pubcomp(id));
        }
      } else if free {
        Write(Pubcomp(id));
        var entry := inboundMsgs[i];
        if !v5 && entry.held.Held? {
          messageQueue := messageQueue + [entry.held.msg];
        }
        RemoveReceived(id);
        RecordsWithout(inboundMsgs, i);
        inboundMsgs := inboundMsgs[..i] + inboundMsgs[i + 1..];
      }
    }

    // ----- restart -----

    method InsertOutbound(m: OutMsg)
      modifies this`outboundMsgs
      ensures outboundMsgs == InsertInOrder(old(outboundMsgs), m)
    {
      var i := 0;
      while i < |outboundMsgs| && m.id >= outboundMsgs[i].id
        invariant i <= |outboundMsgs|
        invariant InsertInOrder(outboundMsgs, m) == outboundMsgs[..i] + InsertInOrder(outboundMsgs[i..], m)
      {
        i := i + 1;
      }
      outboundMsgs := outboundMsgs[..i] + [m] + outboundMsgs[i..];
    }

    /** The list is cut in front of the element behind the widest gap and the two parts change places. */
    method WrapMsgID()
      modifies this`outboundMsgs
      ensures outboundMsgs == Wrapped(old(outboundMsgs))
    {
      var wrapel := 0;
      if |outboundMsgs| > 0 {
        var gap := MAX_MSG_ID - outboundMsgs[|outboundMsgs| - 1].id + outboundMsgs[0].id;
        var current := 1;
        while current < |outboundMsgs|
          invariant 1 <= current <= |outboundMsgs|
          invariant wrapel == WidestGap(outboundMsgs, current) && gap == Gap(outboundMsgs, wrapel)
        {
          var curgap := outboundMsgs[current].id - outboundMsgs[current - 1].id;
          if curgap > gap {
            gap := curgap;
            wrapel := current;
          }
          current := current + 1;
        }
      }
      if wrapel != 0 {
        outboundMsgs := outboundMsgs[wrapel..] + outboundMsgs[..wrapel];
      } else {
        assert outboundMsgs[0..] + outboundMsgs[..0] == outboundMsgs;
      }
    }

    /** One key of the restore loop. */
    method RestoreKey(k: Key) returns (ok: bool)
      requires k in store && store[k].id == k.id && (k.kind == PUBREL_SENT <==> store[k].RecPubrel?)
      modifies this`outboundMsgs, this`inboundMsgs, this`store, this`log
      ensures ok == KeyRestorable(v5, k)
      ensures ok && k.kind == SENT ==>
                outboundMsgs == InsertInOrder(old(outboundMsgs), RestoredMsg(v5, old(store), old(store)[k]))
      ensures ok && k.kind != SENT ==> outboundMsgs == old(outboundMsgs)
      ensures ok ==> inboundMsgs == old(inboundMsgs) + RestoredRecord(v5, old(store), k)
      ensures ok ==>
                && log == old(log) + PurgeOf(v5, old(store), k)
                && store == ApplyOps(old(store), PurgeOf(v5, old(store), k))
    {
      ok := true;
      if k.kind == RECEIVED {
        inboundMsgs := inboundMsgs + [InMsg(store[k].id, if v5 then E.Nothing else E.Held(store[k].msg))];
      } else if k.kind == SENT {
        var rel := Key(v5, PUBREL_SENT, store[k].id);
        if |KeyString(rel)| >= KEYSIZE {
          ok := false;
        } else {
          InsertOutbound(OutMsg(store[k].id, store[k].msg, if rel in store then PUBCOMP else PUBREC));
        }
      } else {
        var sent := Key(v5, SENT, store[k].id);
        if |KeyString(sent)| >= KEYSIZE {
          ok := false;
        } else if sent !in store {
          ApplyOne(store, Remove(k));
          PRemove(k);
        }
      }
    }

    /**
     * restorePackets, the keys coming in the order of `keys`. The loop looks keys up in a store from which
     * it has itself removed orphaned PUBRELs.
     */
    method RestorePackets(keys: seq<Key>) returns (ok: bool)
      requires WellFormedStore(v5, store) && Enumerates(keys, store)
      requires outboundMsgs == [] && inboundMsgs == [] && log == []
      modifies this`outboundMsgs, this`inboundMsgs, this`store, this`log
      ensures ok <==> Restorable(old(store))
      ensures ok ==> outboundMsgs == Restored(v5, old(store), keys)
      ensures ok ==> log == PurgeOps(old(store), keys) && store == ApplyOps(old(store), PurgeOps(old(store), keys))
      ensures ok ==> inboundMsgs == RestoredInbound(v5, old(store), keys)
      ensures ok ==> ReceivedBack(v5, old(store), inboundMsgs)
    {
      RestoredBack(v5, store, keys);
      RestorableKeys(v5, store, keys);
      hide KeyRestorable, RestoreSorted, RestoredInbound, PurgeOps, WellFormedStore, Enumerates, Restorable,
          RestoreStep,
           ReceivedBack, ApplyOps, Wrapped, RestorableUpTo;
      ok := RestoreKeys(keys);
      if ok {
        RestoreDone(v5, old(store), store, keys, outboundMsgs, inboundMsgs, log);
        WrapMsgID();
      }
    }

    /** The loop over the keys. */
    method RestoreKeys(keys: seq<Key>) returns (ok: bool)
      requires WellFormedStore(v5, store) && Enumerates(keys, store)
      requires outboundMsgs == [] && inboundMsgs == [] && log == []
      modifies this`outboundMsgs, this`inboundMsgs, this`store, this`log
      ensures ok <==> RestorableUpTo(v5, keys, |keys|)
      ensures ok ==> RestoreStep(v5, old(store), store, keys, outboundMsgs, inboundMsgs, log)
    {
      hide RestorableUpTo, RestoreStep, WellFormedStore, Enumerates, KeyRestorable;
      ok := true;
      var i := 0;
      RestoreBegin(v5, store, keys);
      RestorableNext(v5, keys, 0);
      while ok && i < |keys|
        invariant i <= |keys|
        invariant ok ==> RestoreStep(v5, old(store), store, keys[..i], outboundMsgs, inboundMsgs, log)
        invariant ok <==> RestorableUpTo(v5, keys, i)
        decreases |keys| - i, ok
      {
        RestorableNext(v5, keys, i);
        ok := RestoreOne(keys, i, old(store));
        i := i + 1;
      }
      RestorableNext(v5, keys, i);
      assert keys[..|keys|] == keys;
    }

    /** The key the loop has come to. */
    method RestoreOne(keys: seq<Key>, i: nat, ghost before: Store) returns (ok: bool)
      requires WellFormedStore(v5, before) && Enumerates(keys, before) && i < |keys|
      requires RestoreStep(v5, before, store, keys[..i], outboundMsgs, inboundMsgs, log)
      modifies this`outboundMsgs, this`inboundMsgs, this`store, this`log
      ensures ok == KeyRestorable(v5, keys[i])
      ensures ok ==> RestoreStep(v5, before, store, keys[..i + 1], outboundMsgs, inboundMsgs, log)
    {
      hide KeyRestorable, RestoreStep, WellFormedStore, Enumerates, InsertInOrder, RestoredMsg, RestoredRecord, PurgeOf,
           ApplyOps, Orphan;
      ghost var now, out, inb, done := store, outboundMsgs, inboundMsgs, log;
      KeyUntouched(v5, before, store, keys, i, outboundMsgs, inboundMsgs, log);
      ok := RestoreKey(keys[i]);
      if ok { RestoreMore(v5, before, now, keys, i, out, inb, done, store, outboundMsgs, inboundMsgs, log); }
    }
  }

  /** One entry for each record of a received message; only an older client still has it to deliver. */
  ghost predicate ReceivedBack(v5: bool, store: Store, list: seq<InMsg>) {
    && DistinctIn(list)
    && (forall x :: Key(v5, RECEIVED, x) in store <==> exists i :: 0 <= i < |list| && list[i].id == x)
    && (forall i | 0 <= i < |list| ::
          var k := Key(v5, RECEIVED, list[i].id);
          && k in store && store[k].RecPublish?
          && list[i].held == if v5 then E.Nothing else E.Held(store[k].msg))
  }

  lemma ReceivedAt(v5: bool, store: Store, list: seq<InMsg>, id: int) returns (i: nat)
    requires ReceivedBack(v5, store, list) && Key(v5, RECEIVED, id) in store
    ensures i < |list| && list[i].id == id && store[Key(v5, RECEIVED, id)].RecPublish? && DistinctIn(list)
    ensures list[i].held == if v5 then E.Nothing else E.Held(store[Key(v5, RECEIVED, id)].msg)
    ensures forall j | 0 <= j < |list| && j != i :: list[j].id != id
  {
    var j :| 0 <= j < |list| && list[j].id == id;
    i := j;
  }

  lemma RestoredBack(v5: bool, store: Store, keys: seq<Key>)
    requires WellFormedStore(v5, store) && Enumerates(keys, store)
    ensures ReceivedBack(v5, store, RestoredInbound(v5, store, keys))
  {
    hide Fits, RestoredInbound;
    RestoredReceived(v5, store, keys);
    var l := RestoredInbound(v5, store, keys);
    forall i | 0 <= i < |l| ensures Key(v5, RECEIVED, l[i].id) in store { assert l[i] in l; }
    forall x | Key(v5, RECEIVED, x) in store ensures exists i :: 0 <= i < |l| && l[i].id == x {
      assert Key(v5, RECEIVED, x) in keys;
    }
  }

  /** A restart and then a PUBREL: the message kept in the store is what an older client delivers. */
  method ReleaseAfterRestart(c: Client, keys: seq<Key>, id: int) returns (ok: bool)
    requires WellFormedStore(c.v5, c.store) && Enumerates(keys, c.store) && Restorable(c.store)
    requires c.outboundMsgs == [] && c.inboundMsgs == [] && c.log == [] && c.messageQueue == []
    requires Key(c.v5, RECEIVED, id) in c.store
    modifies c
    ensures ok && old(c.store)[Key(c.v5, RECEIVED, id)].RecPublish?
    ensures c.messageQueue == if c.v5 then [] else [old(c.store)[Key(c.v5, RECEIVED, id)].msg]
    ensures Writes(c.log) == [Pubcomp(id)] && Key(c.v5, RECEIVED, id) !in c.store
    ensures forall i | 0 <= i < |c.inboundMsgs| :: c.inboundMsgs[i].id != id
  {
    hide RestoredInbound, Restored, PurgeOps, Restorable, Enumerates, ApplyOps, Fits, Writes, ReceivedBack, DistinctIn,
         WellFormedStore, E.React, RemoveReceivedOps, Records, Sends;
    ReceivedId(c.v5, c.store, id);
    ok := c.RestorePackets(keys);
    ghost var log, list := c.log, c.inboundMsgs;
    PurgeWrites(old(c.store), keys);
    ghost var i := ReceivedAt(c.v5, old(c.store), list, id);
    c.HandlePubrel(id, false, true);
    assert c.inboundMsgs == list[..i] + list[i + 1..];
    WritesBoth(log, c.log[|log|..]);
    assert log + c.log[|log|..] == c.log;
  }

  lemma ReceivedId(v5: bool, store: Store, id: int)
    requires WellFormedStore(v5, store) && Key(v5, RECEIVED, id) in store
    ensures MsgId(id)
  {
  }

  lemma PurgeWrites(store: Store, keys: seq<Key>)
    ensures Writes(PurgeOps(store, keys)) == []
  {
    PurgeRemoves(store, keys);
    WritesNothing(PurgeOps(store, keys));
  }

  lemma {:induction false} PurgeRemoves(store: Store, keys: seq<Key>)
    ensures forall op | op in PurgeOps(store, keys) :: op.Remove?
  {
    if keys != [] { PurgeRemoves(store, keys[..|keys| - 1]); }
  }

  /** The records of received messages come back once each, whatever the order of the keys. */
  lemma {:induction false} RestoredReceived(v5: bool, store: Store, keys: seq<Key>)
    requires WellFormedStore(v5, store) && forall i, j | 0 <= i < j < |keys| :: keys[i] != keys[j]
    ensures var l := RestoredInbound(v5, store, keys);
            && DistinctIn(l)
            && (forall e | e in l ::
                  var k := Key(v5, RECEIVED, e.id);
                  && k in keys && k in store && store[k].RecPublish?
                  && e.held == if v5 then E.Nothing else E.Held(store[k].msg))
            && (forall k | k in keys && k in store && k.kind == RECEIVED ::
                  exists i :: 0 <= i < |l| && l[i].id == k.id)
  {
    hide Fits;
    if keys != [] {
      var rest, k := keys[..|keys| - 1], keys[|keys| - 1];
      RestoredReceived(v5, store, rest);
      assert keys == rest + [k];
      var l0 := RestoredInbound(v5, store, rest);
      RecordOf(v5, store, k);
      hide RestoredRecord, WellFormedStore;
      ReceivedMore(v5, store, rest, k, l0, RestoredRecord(v5, store, k));
    }
  }

  lemma RecordOf(v5: bool, store: Store, k: Key)
    requires WellFormedStore(v5, store)
    ensures RestoredRecord(v5, store, k) ==
            if k in store && k.kind == RECEIVED then [InMsg(k.id, if v5 then E.Nothing else E.Held(store[k].msg))]
                else []
    ensures k in store && k.kind == RECEIVED ==> k.v5 == v5 && store[k].RecPublish?
  {
    hide Fits;
  }

  lemma ReceivedMore(v5: bool, store: Store, rest: seq<Key>, k: Key, l: seq<InMsg>, more: seq<InMsg>)
    requires DistinctIn(l) && k !in rest
    requires forall e | e in l ::
               var q := Key(v5, RECEIVED, e.id);
               q in rest && q in store && store[q].RecPublish? && e.held == if v5 then E.Nothing
                   else E.Held(store[q].msg)
    requires forall q | q in rest && q in store && q.kind == RECEIVED :: exists i :: 0 <= i < |l| && l[i].id == q.id
    requires k in store && k.kind == RECEIVED ==> k.v5 == v5 && store[k].RecPublish?
    requires more ==
             if k in store && k.kind == RECEIVED then [InMsg(k.id, if v5 then E.Nothing else E.Held(store[k].msg))]
                 else []
    ensures DistinctIn(l + more)
    ensures forall e | e in l + more ::
              var q := Key(v5, RECEIVED, e.id);
              && q in rest + [k] && q in store && store[q].RecPublish?
              && e.held == if v5 then E.Nothing else E.Held(store[q].msg)
    ensures forall q | q in rest + [k] && q in store && q.kind == RECEIVED ::
              exists i :: 0 <= i < |l + more| && (l + more)[i].id == q.id
  {
    var all := l + more;
    forall i | 0 <= i < |l| && more != [] ensures l[i].id != k.id { assert l[i] in l; }
    forall q | q in rest + [k] && q in store && q.kind == RECEIVED
        ensures exists i :: 0 <= i < |all| && all[i].id == q.id {
      if q in rest {
        var i :| 0 <= i < |l| && l[i].id == q.id;
        assert all[i].id == q.id;
      } else {
        assert all[|l|].id == q.id;
      }
    }
  }

  // ----- the id search -----

  /** The first n - 1 ids after `start` are taken. */
  ghost predicate Taken(list: seq<OutMsg>, start: int, n: nat) {
    forall k | 1 <= k < n :: HasId(list, Nth(start, k))
  }

  lemma FirstNth(start: int)
    requires 0 <= start <= MAX_MSG_ID
    ensures Nth(start, 1) == (if start == MAX_MSG_ID then 1 else start + 1) && Nth(start, 1) != start
  {
    assert Nth(start, 0) == start;
  }

  lemma AllTaken(list: seq<OutMsg>)
    requires Taken(list, 0, MAX_MSG_ID) && HasId(list, Nth(0, MAX_MSG_ID))
    ensures forall x | MsgId(x) :: HasId(list, x)
  {
    forall x | MsgId(x) ensures HasId(list, x) { NthIs(0, x); }
  }

  lemma TakenMore(list: seq<OutMsg>, start: int, n: nat)
    requires 0 <= start <= MAX_MSG_ID && SearchEnds(list, start) && 1 <= n <= MAX_MSG_ID
    requires Taken(list, start, n) && Nth(start, n) != start && Find(list, Nth(start, n)) < |list|
    ensures n < MAX_MSG_ID && Taken(list, start, n + 1)
    ensures MsgId(Nth(start, n + 1)) && Nth(start, n + 1) == Next(Nth(start, n))
    ensures Nth(start, n + 1) == start ==> n + 1 == MAX_MSG_ID
  {
    assert list[Find(list, Nth(start, n))].id == Nth(start, n);
    NthIs(start, n);
    if n == MAX_MSG_ID { AllTaken(list); } else { NthIs(start, n + 1); }
  }

  lemma TakenRound(list: seq<OutMsg>, start: int, n: nat)
    requires MsgId(start) && n == MAX_MSG_ID && Taken(list, start, n)
    ensures Chosen(list, start, 0)
  {
    forall x | MsgId(x) && x != start ensures HasId(list, x) {
      var k := NthReaches(start, x);
    }
  }

  lemma FreeFound(list: seq<OutMsg>, start: int, n: nat)
    requires 1 <= n <= MAX_MSG_ID && Taken(list, start, n) && MsgId(Nth(start, n)) && Nth(start, n) != start
    requires Find(list, Nth(start, n)) == |list|
    ensures Chosen(list, start, Nth(start, n)) && !HasId(list, Nth(start, n))
  {
  }

  /** The ids passed over, without counting through them. */
  lemma TakenIds(list: seq<OutMsg>, start: int, n: nat)
    requires 0 <= start <= MAX_MSG_ID && 1 <= n <= MAX_MSG_ID && Taken(list, start, n) && Nth(start, n) != start
    ensures var id := Nth(start, n);
            && (id > start ==> forall x | start < x < id :: HasId(list, x))
            && (id < start ==> forall x | start < x <= MAX_MSG_ID || 1 <= x < id :: HasId(list, x))
  {
    var id := Nth(start, n);
    NthIs(start, n);
    hide HasId, Nth;
    forall x | MsgId(x) && (start < x < id || (id < start && (start < x || x < id))) ensures HasId(list, x) {
      var k := if x > start then x - start else x - start + MAX_MSG_ID;
      NthIs(start, k);
      assert HasId(list, Nth(start, k));
    }
  }

  lemma NoneFree(list: seq<OutMsg>, start: int)
    requires Chosen(list, start, 0)
    ensures forall x | MsgId(x) && x != start :: HasId(list, x)
  {
  }

  // ----- what the operations come to -----

  /** One packet for each entry that is due, in the order of the list. */
  lemma {:induction false} RetryWrites(v5: bool, list: seq<OutMsg>, due: seq<bool>, n: nat) returns (at: seq<nat>)
    requires n <= |list| == |due| && forall e | e in list :: e.msg.qos == 1 || e.msg.qos == 2
    ensures var packets := Writes(RetryOps(v5, list, due, n));
            && |packets| == |at|
            && (forall j, k | 0 <= j < k < |at| :: at[j] < at[k])
            && (forall k | 0 <= k < |at| :: at[k] < n && due[at[k]])
            && (forall k | 0 <= k < |at| ::
                  var e := list[at[k]];
                  packets[k] == if e.msg.qos == 1 || e.next == PUBREC then Publish(e.id, true, e.msg)
                                else Pubrel(e.id, false))
            && (forall i | 0 <= i < n && due[i] :: i in at)
  {
    hide Writes, ResendOps;
    WritesNone();
    at := [];
    if n > 0 {
      at := RetryWrites(v5, list, due, n - 1);
      var before, e := RetryOps(v5, list, due, n - 1), list[n - 1];
      assert e in list;
      if due[n - 1] {
        WritesBoth(before, ResendOps(v5, e));
        ResendWrites(v5, e);
        at := at + [n - 1];
      } else {
        assert before + [] == before;
      }
    }
  }

  lemma OneSend(p: Packet)
    ensures Sends([p]) == [Send(p)] && Sends([]) == []
  {
  }

  /** No record of a received message is left under the id, and every other record is as before. */
  ghost predicate Released(before: Store, now: Store, id: int) {
    && (forall k :: k in now <==> k in before && !(k.id == id && k.kind == RECEIVED))
    && forall k | k in now :: now[k] == before[k]
  }

  lemma ReceivedReleased(store: Store, id: int)
    ensures Writes(RemoveReceivedOps(id)) == []
    ensures MsgId(id) ==> Released(store, ApplyOps(store, RemoveReceivedOps(id)), id)
  {
    WritesNothing(RemoveReceivedOps(id));
    if MsgId(id) {
      FitsExactly(Key(true, RECEIVED, id));
      FitsExactly(Key(false, RECEIVED, id));
      hide Fits;
      ApplyTwo(store, Remove(Key(true, RECEIVED, id)), Remove(Key(false, RECEIVED, id)));
    }
  }

  lemma WritesAfter(p: Packet, ops: seq<Op>)
    requires Writes(ops) == []
    ensures Writes([Send(p)] + ops) == [p]
  {
    assert ([Send(p)] + ops)[1..] == ops;
  }

  /** No record of an outbound message is left under the id, and every other record is as before. */
  ghost predicate Forgotten(before: Store, now: Store, id: int) {
    && (forall k :: k in now <==> k in before && !(k.id == id && (k.kind == SENT || k.kind == PUBREL_SENT)))
    && forall k | k in now :: now[k] == before[k]
  }

  lemma ApplyTwo(store: Store, a: Op, b: Op)
    ensures ApplyOps(store, [a, b]) == ApplyOp(ApplyOp(store, a), b)
  {
    ApplyOne(store, a);
    ApplyMore(store, [a], b);
    assert [a] + [b] == [a, b];
  }

  lemma PublishTwice(v5: bool, store: Store, id: int, dup: bool, m: Message)
    requires MsgId(id)
    ensures var ops := [Put(Key(v5, SENT, id), RecPublish(id, dup, m)), Send(Publish(id, dup, m))];
            && PublishOps(v5, id, dup, m) == ops
            && ApplyOps(store, ops) == store[Key(v5, SENT, id) := RecPublish(id, dup, m)]
  {
    FitsExactly(Key(v5, SENT, id));
    ApplyTwo(store, Put(Key(v5, SENT, id), RecPublish(id, dup, m)), Send(Publish(id, dup, m)));
    hide Fits;
  }

  lemma PubrelWritten(v5: bool, store: Store, id: int)
    ensures Writes(PubrelOps(v5, id)) == [Pubrel(id, false)]
    ensures 1 <= id < 10000 ==>
              ApplyOps(store, PubrelOps(v5, id)) == store[Key(v5, PUBREL_SENT, id) := RecPubrel(id)]
  {
    PubrelWrites(v5, id);
    if 1 <= id < 10000 {
      FitsExactly(Key(v5, PUBREL_SENT, id));
      hide Fits, Writes;
      ApplyTwo(store, Put(Key(v5, PUBREL_SENT, id), RecPubrel(id)), Send(Pubrel(id, false)));
    }
  }

  lemma SentForgotten(store: Store, id: int)
    ensures Writes(RemoveSentOps(id)) == []
    ensures 1 <= id < 10000 ==> Forgotten(store, ApplyOps(store, RemoveSentOps(id)), id)
  {
    var ops := RemoveSentOps(id);
    WritesNothing(ops);
    if 1 <= id < 10000 {
      var a, b, c, d := Key(true, SENT, id), Key(true, PUBREL_SENT, id), Key(false, SENT, id),
          Key(false, PUBREL_SENT, id);
      FitsExactly(a);
      FitsExactly(b);
      FitsExactly(c);
      FitsExactly(d);
      hide Fits;
      ApplyTwo(store, Remove(a), Remove(b));
      ApplyTwo(store - {a} - {b}, Remove(c), Remove(d));
      ApplyBoth(store, [Remove(a), Remove(b)], [Remove(c), Remove(d)]);
      assert ops == [Remove(a), Remove(b)] + [Remove(c), Remove(d)];
    }
  }

  // ----- composing operations -----

  lemma ApplyOne(store: Store, op: Op)
    ensures ApplyOps(store, [op]) == ApplyOp(store, op)
  {
    assert [op][..0] == [];
  }

  lemma ApplyMore(store: Store, ops: seq<Op>, op: Op)
    ensures ApplyOps(store, ops + [op]) == ApplyOp(ApplyOps(store, ops), op)
  {
    assert (ops + [op])[..|ops|] == ops;
  }

  lemma {:induction false} ApplyBoth(store: Store, a: seq<Op>, b: seq<Op>)
    ensures ApplyOps(store, a + b) == ApplyOps(ApplyOps(store, a), b)
  {
    if b == [] {
      assert a + b == a;
    } else {
      ApplyBoth(store, a, b[..|b| - 1]);
      assert (a + b)[..|a + b| - 1] == a + b[..|b| - 1];
    }
  }

  // ----- the receiver's list as records -----

  lemma {:induction false} RecordsFind(list: seq<InMsg>, id: int, i: nat)
    requires i <= |list| && (i < |list| ==> list[i].id == id) && forall j | 0 <= j < i :: list[j].id != id
    ensures id in Records(list) <==> i < |list|
    ensures i < |list| ==> Records(list)[id] == list[i].held
  {
    if i > 0 { RecordsFind(list[1..], id, i - 1); }
    else if list != [] {}
  }

  lemma {:induction false} RecordsAppend(list: seq<InMsg>, e: InMsg)
    requires DistinctIn(list) && e.id !in Records(list)
    ensures DistinctIn(list + [e]) && Records(list + [e]) == Records(list)[e.id := e.held]
  {
    if list != [] {
      RecordsAppend(list[1..], e);
      assert (list + [e])[1..] == list[1..] + [e];
    }
  }

  lemma {:induction false} RecordsUpdate(list: seq<InMsg>, i: nat, e: InMsg)
    requires DistinctIn(list) && i < |list| && list[i].id == e.id
    ensures var l := list[..i] + [e] + list[i + 1..];
            DistinctIn(l) && Records(l) == Records(list)[e.id := e.held]
  {
    var l := list[..i] + [e] + list[i + 1..];
    if i == 0 {
      assert l[1..] == list[1..];
    } else {
      RecordsUpdate(list[1..], i - 1, e);
      assert l[1..] == list[1..][..i - 1] + [e] + list[1..][i..];
    }
  }

  lemma {:induction false} RecordsMissing(list: seq<InMsg>, id: int)
    requires forall j | 0 <= j < |list| :: list[j].id != id
    ensures id !in Records(list)
  {
    if list != [] { RecordsMissing(list[1..], id); }
  }

  lemma {:induction false} RecordsWithout(list: seq<InMsg>, i: nat)
    requires DistinctIn(list) && i < |list|
    ensures var l := list[..i] + list[i + 1..];
            DistinctIn(l) && Records(l) == Records(list) - {list[i].id}
  {
    var l := list[..i] + list[i + 1..];
    if i == 0 {
      assert l == list[1..];
      RecordsMissing(list[1..], list[0].id);
    } else {
      RecordsWithout(list[1..], i - 1);
      assert l[1..] == list[1..][..i - 1] + list[1..][i..];
      UpdateElsewhere(Records(list[1..]), list[0].id, list[0].held, list[i].id);
    }
  }

  lemma UpdateElsewhere(m: map<int, E.Held>, x: int, h: E.Held, y: int)
    requires x != y
    ensures m[x := h] - {y} == (m - {y})[x := h]
  {
  }
}
