// The QoS 1 and QoS 2 exchange as an abstract protocol: a sender that may send the packet
// of its current phase at any moment, a receiver, and two FIFO channels that may lose any
// packet when it is written and everything when the connection is re-established.

module Exchange {
  import opened Packets
  import MsgIds

  /** An unfinished outbound message. */
  datatype Entry = Entry(msg: Message, next: Phase)

  /** A QoS 2 message the receiver holds until PUBREL; the V5 rule hands its publication over at once. */
  datatype Held = Nothing | Held(msg: Message)

  /** What has been put on the wire, in order, by tag. */
  datatype Event = PublishSent(tag: nat) | PubrelSent(tag: nat)

  /**
   * `last` is the id given out last (msgID). `owed` counts, by id, the PUBACKs that the PUBLISHes written on the
   * present connection still ask for. Like `published`, `delivered`, `clean` and `log` it is history: no decision
   * depends on it.
   */
  datatype State = State(
    last: int,
    out: map<int, Entry>,
    inb: map<int, Held>,
    s2r: seq<Packet>,
    r2s: seq<Packet>,
    published: seq<Message>,
    delivered: seq<Message>,
    owed: multiset<int>,
    clean: set<nat>,
    log: seq<Event>)

  datatype Step =
    | Accept(id: int, msg: Message)
    | TakeId(id: int)
    | SendQos0(msg: Message, sent: bool)
    | SendPublish(id: int, dup: bool, sent: bool)
    | SendPubrel(id: int, sent: bool)
    | SenderReceives
    | ReceiverReceives(free: bool, sent: bool)
    | Reconnect
    | Restart(table: map<int, Entry>)

  const Init := State(0, map[], map[], [], [], [], [], multiset{}, {}, [])

  // ----- packet kinds -----

  predicate IsPub(p: Packet, qos: int, x: int) { p.Publish? && p.msg.qos == qos && p.id == x }
  predicate IsAck(p: Packet, x: int) { p.Puback? && p.id == x }
  predicate IsRec(p: Packet, x: int) { p.Pubrec? && p.id == x }
  predicate IsRel(p: Packet, x: int) { p.Pubrel? && p.id == x }
  predicate IsComp(p: Packet, x: int) { p.Pubcomp? && p.id == x }

  ghost predicate NoPub(ch: seq<Packet>, qos: int, x: int) { forall i | 0 <= i < |ch| :: !IsPub(ch[i], qos, x) }
  ghost predicate NoAck(ch: seq<Packet>, x: int) { forall i | 0 <= i < |ch| :: !IsAck(ch[i], x) }
  ghost predicate NoRec(ch: seq<Packet>, x: int) { forall i | 0 <= i < |ch| :: !IsRec(ch[i], x) }
  ghost predicate NoRel(ch: seq<Packet>, x: int) { forall i | 0 <= i < |ch| :: !IsRel(ch[i], x) }
  ghost predicate NoComp(ch: seq<Packet>, x: int) { forall i | 0 <= i < |ch| :: !IsComp(ch[i], x) }

  /** The PUBACKs a packet asks for, and those it is. */
  function Asks(p: Packet): multiset<int> { if p.Publish? && p.msg.qos == 1 then multiset{p.id} else multiset{} }
  function Answers(p: Packet): multiset<int> { if p.Puback? then multiset{p.id} else multiset{} }

  // ----- the two roles -----

  /** What the receiver does with one packet: its new records, what it delivers and what it answers. */
  datatype Reaction = Reaction(inb: map<int, Held>, deliver: seq<Message>, reply: seq<Packet>)

  /**
   * `free` says that no earlier write is pending on the socket: otherwise a packet that must be
   * acknowledged is refused.
   */
  function React(v5: bool, inb: map<int, Held>, p: Packet, free: bool): Reaction {
    match p
    case Publish(id, dup, m) =>
      if m.qos == 0 then Reaction(inb, [m], [])
      else if !free then Reaction(inb, [], [])
      else if m.qos == 1 then Reaction(inb, [m], [Puback(id)])
      else if m.qos == 2 then
        if v5 && id !in inb then Reaction(inb[id := Nothing], [m], [Pubrec(id, 0)])
        else Reaction(inb[id := Held(m)], [], [Pubrec(id, 0)])
      else Reaction(inb, [], [])
    case Pubrel(id, dup) =>
      if id !in inb then Reaction(inb, [], if dup && free then [Pubcomp(id)] else [])
      else if !free then Reaction(inb, [], [])
      else Reaction(inb - {id}, if v5 || inb[id].Nothing? then [] else [inb[id].msg], [Pubcomp(id)])
    case _ => Reaction(inb, [], [])
  }

  /** The sender's records after it has acted on one packet. */
  function Acknowledge(v5: bool, out: map<int, Entry>, p: Packet): map<int, Entry> {
    match p
    case Puback(id) =>
      if id in out && out[id].msg.qos == 1 then out - {id} else out
    case Pubrec(id, rc) =>
      if id in out && out[id].msg.qos == 2 && out[id].next == PUBREC then
        if v5 && rc >= UNSPECIFIED_ERROR then out - {id} else out[id := out[id].(next := PUBCOMP)]
      else out
    case Pubcomp(id) =>
      if id in out && out[id].msg.qos == 2 && out[id].next == PUBCOMP then out - {id} else out
    case _ => out
  }

  /** The id on offer goes to a QoS 1 or 2 message. */
  ghost predicate Acceptable(s: State, x: int, m: Message) {
    x != 0 && x !in s.out && MsgIds.NextFree(s.out.Keys, s.last, x) && m.tag == |s.published|
        && (m.qos == 1 || m.qos == 2)
  }

  // ----- runs -----

  /** One step; a step that is not possible in `s` changes nothing. */
  ghost function Apply(v5: bool, s: State, step: Step): State {
    match step
    case Accept(x, m) =>
      if !Acceptable(s, x, m) then s
      else
        s.(last := x,
           out := s.out[x := Entry(m, PUBREC)],
           published := s.published + [m],
           clean := if m.qos == 1 && NoPub(s.s2r, 1, x) && NoAck(s.r2s, x) then s.clean + {m.tag} else s.clean)
    case TakeId(x) =>
      // SUBSCRIBE and UNSUBSCRIBE draw from the same ids
      if x != 0 && MsgIds.NextFree(s.out.Keys, s.last, x) then s.(last := x) else s
    case SendQos0(m, sent) =>
      if m.tag != |s.published| || m.qos != 0 then s
      else s.(published := s.published + [m], s2r := if sent then s.s2r + [Publish(0, false, m)] else s.s2r)
    case SendPublish(x, dup, sent) =>
      if x !in s.out || (s.out[x].msg.qos == 2 && s.out[x].next != PUBREC) then s
      else
        var m := s.out[x].msg;
        s.(s2r := if sent then s.s2r + [Publish(x, dup, m)] else s.s2r,
           owed := if m.qos == 1 then s.owed + multiset{x} else s.owed,
           log := s.log + [PublishSent(m.tag)])
    case SendPubrel(x, sent) =>
      if x !in s.out || s.out[x].msg.qos != 2 || s.out[x].next != PUBCOMP then s
      else
        s.(s2r := if sent then s.s2r + [Pubrel(x, false)] else s.s2r, log := s.log + [PubrelSent(s.out[x].msg.tag)])
    case SenderReceives =>
      if s.r2s == [] then s
      else s.(out := Acknowledge(v5, s.out, s.r2s[0]), r2s := s.r2s[1..], owed := s.owed - Answers(s.r2s[0]))
    case ReceiverReceives(free, sent) =>
      if s.s2r == [] then s
      else
        var r := React(v5, s.inb, s.s2r[0], free);
        s.(inb := r.inb, s2r := s.s2r[1..], delivered := s.delivered + r.deliver,
           r2s := if sent then s.r2s + r.reply else s.r2s)
    case Reconnect =>
      s.(s2r := [], r2s := [], owed := multiset{})
    case Restart(table) =>
      if RestartOk(s, table) then s.(last := 0, out := table, s2r := [], r2s := [], owed := multiset{}) else s
  }

  /**
   * What a restarted sender may believe: every unfinished message is still there, perhaps already past
   * PUBREC, and messages that were finished may be back, but a QoS 2 message only past PUBREC.
   */
  ghost predicate RestartOk(s: State, table: map<int, Entry>) {
    && (forall x | x in s.out ::
          && x in table
          && table[x].msg == s.out[x].msg
          && (table[x] == s.out[x] || (table[x].msg.qos == 2 && table[x].next == PUBCOMP)))
    && (forall x | x in table && x !in s.out :: Returns(s, table[x]))
    && (forall x, y | x in table && y in table && x != y :: table[x].msg.tag != table[y].msg.tag)
  }

  ghost predicate Returns(s: State, e: Entry) {
    && e.msg.tag < |s.published| && s.published[e.msg.tag] == e.msg
    && (e.msg.qos == 1 || (e.msg.qos == 2 && e.next == PUBCOMP))
  }

  ghost function Run(v5: bool, steps: seq<Step>): State {
    if steps == [] then Init else Apply(v5, Run(v5, steps[..|steps| - 1]), steps[|steps| - 1])
  }

  // ----- invariant, one id at a time -----

  /** No record of the sender needs QoS 2 packets for x: only stale PUBRELs may still be in flight. */
  ghost predicate Quiet(s: State, x: int) {
    NoPub(s.s2r, 2, x) && NoRec(s.r2s, x) && NoComp(s.r2s, x) && x !in s.inb
  }

  ghost predicate PubsCarry(ch: seq<Packet>, qos: int, x: int, m: Message) {
    forall i | 0 <= i < |ch| :: IsPub(ch[i], qos, x) ==> ch[i].msg == m
  }

  /** Every QoS 2 PUBLISH for x in flight, and the receiver's record of it, is of m. */
  ghost predicate Carries(v5: bool, s: State, x: int, m: Message) {
    && PubsCarry(s.s2r, 2, x, m)
    && (x in s.inb ==> s.inb[x] == Held(m) || (v5 && s.inb[x] == Nothing))
  }

  ghost predicate RelsBeforePubs(ch: seq<Packet>, x: int) {
    forall i, j | 0 <= i < j < |ch| :: IsPub(ch[i], 2, x) ==> !IsRel(ch[j], x)
  }

  ghost predicate PubsBeforeRels(ch: seq<Packet>, x: int) {
    forall i, j | 0 <= i < j < |ch| :: IsRel(ch[i], x) ==> !IsPub(ch[j], 2, x)
  }

  ghost predicate CompLast(ch: seq<Packet>, x: int) {
    forall i, j | 0 <= i < j < |ch| :: IsComp(ch[i], x) ==> !IsRec(ch[j], x) && !IsComp(ch[j], x)
  }

  ghost predicate AwaitsPubrec(v5: bool, s: State, x: int, m: Message) {
    && Carries(v5, s, x, m)
    && NoComp(s.r2s, x)
    && RelsBeforePubs(s.s2r, x)
    && (if x in s.inb then NoRel(s.s2r, x) else NoRec(s.r2s, x))
    && multiset(s.delivered)[m] == (if v5 && x in s.inb then 1 else 0)
  }

  ghost predicate AwaitsPubcomp(v5: bool, s: State, x: int, m: Message) {
    && Carries(v5, s, x, m)
    && PubsBeforeRels(s.s2r, x)
    && CompLast(s.r2s, x)
    && (if x in s.inb then NoComp(s.r2s, x) else NoPub(s.s2r, 2, x))
    && (if v5 || x !in s.inb then
          multiset(s.delivered)[m] == 1 || (x !in s.inb && multiset(s.delivered)[m] == 0 && NoComp(s.r2s, x))
        else multiset(s.delivered)[m] == 0)
  }

  ghost predicate IdInv(v5: bool, s: State, x: int) {
    if x in s.out && s.out[x].msg.qos == 2 then
      if s.out[x].next == PUBREC then AwaitsPubrec(v5, s, x, s.out[x].msg)
      else AwaitsPubcomp(v5, s, x, s.out[x].msg)
    else Quiet(s, x)
  }

  ghost predicate PacketsOk(s: State) {
    && (forall i | 0 <= i < |s.s2r| ::
          var p := s.s2r[i];
          && (p.Pubrel? ==> !p.dup)
          && (p.Publish? ==> p.msg.tag < |s.published| && s.published[p.msg.tag] == p.msg))
    && (forall i | 0 <= i < |s.r2s| :: s.r2s[i].Pubrec? ==> s.r2s[i].rc == 0)
  }

  ghost predicate HistoryOk(s: State) {
    && (forall k | 0 <= k < |s.published| :: s.published[k].tag == k)
    && (forall i | 0 <= i < |s.delivered| ::
          s.delivered[i].tag < |s.published| && s.published[s.delivered[i].tag] == s.delivered[i])
    && (forall x | x in s.out ::
          s.out[x].msg.tag < |s.published| && s.published[s.out[x].msg.tag] == s.out[x].msg
          && (s.out[x].msg.qos == 1 || s.out[x].msg.qos == 2))
    && (forall x, y | x in s.out && y in s.out && x != y :: s.out[x].msg.tag != s.out[y].msg.tag)
  }

  /** The message is still in the sender's records. */
  ghost predicate Unfinished(s: State, m: Message) {
    exists x :: x in s.out && s.out[x].msg == m
  }

  ghost predicate FinishedOk(s: State) {
    forall k | 0 <= k < |s.published| ::
      s.published[k].qos == 2 && !Unfinished(s, s.published[k]) ==> multiset(s.delivered)[s.published[k]] == 1
  }

  ghost predicate Qos1IdOk(s: State, x: int, m: Message) {
    PubsCarry(s.s2r, 1, x, m) && (NoAck(s.r2s, x) || multiset(s.delivered)[m] >= 1)
  }

  /** QoS 1, for messages whose id was unused on the wire when it was assigned. */
  ghost predicate Qos1Ok(s: State) {
    && (forall k | k in s.clean :: k < |s.published| && s.published[k].qos == 1)
    && (forall k | k in s.clean :: !Unfinished(s, s.published[k]) ==> multiset(s.delivered)[s.published[k]] >= 1)
    && (forall x | x in s.out && s.out[x].msg.tag in s.clean :: Qos1IdOk(s, x, s.out[x].msg))
  }

  /** Once PUBREL of a tag is on the log the tag is past its PUBREC phase, and no PUBLISH follows. */
  ghost predicate LogOk(s: State) {
    && (forall i | 0 <= i < |s.log| ::
          s.log[i].tag < |s.published| && (s.log[i].PubrelSent? ==> s.published[s.log[i].tag].qos == 2))
    && (forall i, x | 0 <= i < |s.log| && x in s.out ::
          s.log[i] == PubrelSent(s.out[x].msg.tag) ==> s.out[x].msg.qos == 2 && s.out[x].next == PUBCOMP)
    && (forall i, j | 0 <= i < j < |s.log| :: s.log[i].PubrelSent? ==> s.log[j] != PublishSent(s.log[i].tag))
  }

  ghost predicate Inv(v5: bool, s: State) {
    && PacketsOk(s)
    && HistoryOk(s)
    && (forall x :: IdInv(v5, s, x))
    && FinishedOk(s)
    && Qos1Ok(s)
    && LogOk(s)
  }
}
