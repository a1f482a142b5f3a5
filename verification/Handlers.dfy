// What each outbound handler does, as functions on values: the store operations and socket
// writes in order, and the list of outbound messages it leaves in memory.

module Handlers {
  import opened Packets
  import opened Persistence
  import Exchange

  datatype Handler =
    | Start(id: int, msg: Message)
    | Ack(packet: Packet)
    | Resend(entry: OutMsg)
    | Restart(purge: seq<Op>, list: seq<OutMsg>)

  /** The position of the first entry with this id, or |list|. */
  function Find(list: seq<OutMsg>, id: int): (i: nat)
    ensures i <= |list|
    ensures i < |list| ==> list[i].id == id
    ensures forall j | 0 <= j < i :: list[j].id != id
  {
    if list == [] || list[0].id == id then 0 else 1 + Find(list[1..], id)
  }

  function Without(list: seq<OutMsg>, i: nat): seq<OutMsg>
    requires i < |list|
  {
    list[..i] + list[i + 1..]
  }

  datatype Verdict = Ignore | Drop | Release

  /** What an acknowledgement means for the entry it names. */
  function Judge(v5: bool, list: seq<OutMsg>, p: Packet): Verdict {
    var i := Find(list, p.id);
    if i == |list| then Ignore
    else
      var e := list[i];
      match p
      case Puback(_) => if e.msg.qos == 1 then Drop else Ignore
      case Pubrec(_, rc) =>
        if e.msg.qos != 2 || e.next != PUBREC then Ignore
        else if v5 && rc >= UNSPECIFIED_ERROR then Drop
        else Release
      case Pubcomp(_) => if e.msg.qos == 2 && e.next == PUBCOMP then Drop else Ignore
      case _ => Ignore
  }

  function PublishOps(v5: bool, id: int, dup: bool, m: Message): seq<Op> {
    PutOps(Key(v5, SENT, id), RecPublish(id, dup, m)) + [Send(Publish(id, dup, m))]
  }

  function PubrelOps(v5: bool, id: int): seq<Op> {
    PutOps(Key(v5, PUBREL_SENT, id), RecPubrel(id)) + [Send(Pubrel(id, false))]
  }

  function AckOps(v5: bool, list: seq<OutMsg>, p: Packet): seq<Op> {
    match Judge(v5, list, p)
    case Ignore => []
    case Drop => RemoveSentOps(p.id)
    case Release => PubrelOps(v5, p.id)
  }

  function AckAfter(v5: bool, list: seq<OutMsg>, p: Packet): seq<OutMsg> {
    var i := Find(list, p.id);
    match Judge(v5, list, p)
    case Ignore => list
    case Drop => Without(list, i)
    case Release => list[i := list[i].(next := PUBCOMP)]
  }

  /** What retries sends for one entry. */
  function ResendOps(v5: bool, e: OutMsg): seq<Op> {
    if e.msg.qos == 1 || (e.msg.qos == 2 && e.next == PUBREC) then PublishOps(v5, e.id, true, e.msg)
    else if e.msg.qos != 0 && e.next == PUBCOMP then PubrelOps(v5, e.id)
    else []
  }

  function Ops(v5: bool, list: seq<OutMsg>, h: Handler): seq<Op> {
    match h
    case Start(id, m) => PublishOps(v5, id, false, m)
    case Ack(p) => AckOps(v5, list, p)
    case Resend(e) => ResendOps(v5, e)
    case Restart(purge, _) => purge
  }

  function After(v5: bool, list: seq<OutMsg>, h: Handler): seq<OutMsg> {
    match h
    case Start(id, m) => list + [OutMsg(id, m, PUBREC)]
    case Ack(p) => AckAfter(v5, list, p)
    case Resend(_) => list
    case Restart(_, restored) => restored
  }

  /** How many operations the handler needs before its effect survives a crash. */
  function CommitAt(v5: bool, list: seq<OutMsg>, h: Handler): nat {
    match h
    case Start(_, _) => 1
    case Ack(p) => (match Judge(v5, list, p) case Ignore => 0 case Drop => if v5 then 1 else 3 case Release => 1)
    case Resend(_) => 0
    case Restart(_, _) => 0
  }

  /** The packets among some operations. */
  function Writes(ops: seq<Op>): seq<Packet> {
    if ops == [] then [] else (if ops[0].Send? then [ops[0].packet] else []) + Writes(ops[1..])
  }

  lemma {:induction false} WritesNothing(ops: seq<Op>)
    requires forall op | op in ops :: !op.Send?
    ensures Writes(ops) == []
  {
    if ops != [] { WritesNothing(ops[1..]); }
  }

  lemma WritesNone()
    ensures Writes([]) == []
  {
  }

  lemma {:induction false} WritesBoth(a: seq<Op>, b: seq<Op>)
    ensures Writes(a + b) == Writes(a) + Writes(b)
  {
    if a == [] {
      assert a + b == b;
    } else {
      assert (a + b)[1..] == a[1..] + b;
      WritesBoth(a[1..], b);
    }
  }

  lemma PubrelWrites(v5: bool, id: int)
    ensures Writes(PubrelOps(v5, id)) == [Pubrel(id, false)]
  {
    hide Fits;
    PutThenSend(Put(Key(v5, PUBREL_SENT, id), RecPubrel(id)), Pubrel(id, false));
  }

  lemma PutThenSend(put: Op, p: Packet)
    requires put.Put?
    ensures Writes([put] + [Send(p)]) == Writes([] + [Send(p)]) == [p]
  {
    assert ([put] + [Send(p)])[1..] == [Send(p)] && [Send(p)][1..] == [] && [] + [Send(p)] == [Send(p)];
  }

  /** What is sent for an entry again: its PUBLISH marked as a duplicate, or its PUBREL. */
  lemma ResendWrites(v5: bool, e: OutMsg)
    ensures |Writes(ResendOps(v5, e))| == if e.msg.qos == 0
              || (e.msg.qos != 1 && e.msg.qos != 2 && e.next == PUBREC) then 0 else 1
    ensures e.msg.qos == 1 || e.msg.qos == 2 ==>
              Writes(ResendOps(v5, e)) ==
              [if e.msg.qos == 1 || e.next == PUBREC then Publish(e.id, true, e.msg) else Pubrel(e.id, false)]
  {
    PubrelWrites(v5, e.id);
    PutThenSend(Put(Key(v5, SENT, e.id), RecPublish(e.id, true, e.msg)), Publish(e.id, true, e.msg));
    hide Fits, PubrelOps, Writes;
  }

  // ----- the unfinished messages, by id -----

  function EntryOf(e: OutMsg): Exchange.Entry {
    Exchange.Entry(e.msg, if e.msg.qos == 2 then e.next else PUBREC)
  }

  /** As the memory has it; the first entry of an id counts. */
  function TableOf(list: seq<OutMsg>): map<int, Exchange.Entry> {
    if list == [] then map[] else TableOf(list[1..])[list[0].id := EntryOf(list[0])]
  }

  function StoredEntry(v5: bool, store: Store, x: int, m: Message): Exchange.Entry {
    Exchange.Entry(m, if m.qos == 2 && Key(v5, PUBREL_SENT, x) in store then PUBCOMP else PUBREC)
  }

  function SentIds(v5: bool, store: Store): set<int> {
    set k | k in store && k.kind == SENT && k.v5 == v5 :: k.id
  }

  /**
   * As the store has it: a message is unfinished while its PUBLISH is stored, and past PUBREC once its PUBREL is too.
   */
  ghost function Table(v5: bool, store: Store): map<int, Exchange.Entry>
    requires WellFormedStore(v5, store)
  {
    map x | x in SentIds(v5, store) ::
      StoredEntry(v5, store, x, store[Key(v5, SENT, x)].msg)
  }
}
