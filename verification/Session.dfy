// A persistent sending client and a receiving client joined by two channels, one store
// operation or socket write at a time, with a crash of the sender possible between any two.

module Session {
  import opened Packets
  import opened Persistence
  import opened Handlers
  import MsgIds
  import E = Exchange

  /**
   * Idle: between handlers. Busy: `done` operations of a handler have been performed and `list` is the
   * memory from when it began. Failed: the restart found a record it cannot restore.
   */
  datatype Sender =
    | Idle(list: seq<OutMsg>)
    | Busy(list: seq<OutMsg>, handler: Handler, done: nat)
    | Failed

  /**
   * `last` is the id given out last. The rest of the sender's side is history: `owed` as in module Exchange, and
   * `clear`, the QoS 1 messages for whose id no PUBACK was owed when they were stored.
   */
  datatype State = State(
    last: int,
    sender: Sender,
    store: Store,
    inb: map<int, E.Held>,
    s2r: seq<Packet>,
    r2s: seq<Packet>,
    published: seq<Message>,
    delivered: seq<Message>,
    owed: multiset<int>,
    clear: set<nat>,
    log: seq<E.Event>)

  datatype Step =
    | Submit(id: int, msg: Message)
    | TakeId(id: int)
    | SubmitQos0(msg: Message, sent: bool)
    | TakePacket
    | Retry(i: nat)
    | Advance(sent: bool)
    | ReceiverTakesPacket(free: bool, sent: bool)
    | Reconnect
    | Crash(keys: seq<Key>)

  const Init := State(0, Idle([]), map[], map[], [], [], [], [], multiset{}, {}, [])

  /** The exchange a socket write belongs to. */
  function TagOf(list: seq<OutMsg>, h: Handler): nat {
    match h
    case Start(_, m) => m.tag
    case Resend(e) => e.msg.tag
    case Ack(p) => if Find(list, p.id) < |list| then list[Find(list, p.id)].msg.tag else 0
    case Restart(_, _) => 0
  }

  /** The id on offer (MQTTProtocol_assignMsgId). */
  ghost predicate Given(list: seq<OutMsg>, last: int, x: int) { x != 0 && MsgIds.Chosen(list, last, x) }

  function Begin(s: State, list: seq<OutMsg>, h: Handler): State {
    s.(sender := Busy(list, h, 0))
  }

  function Perform(s: State, list: seq<OutMsg>, h: Handler, op: Op, sent: bool): State {
    match op
    case Put(k, r) =>
      s.(store := ApplyOp(s.store, op),
         published := if h.Start? then s.published + [h.msg] else s.published,
         clear := if h.Start? && h.msg.qos == 1 && s.owed[h.id] == 0 then s.clear + {h.msg.tag} else s.clear)
    case Remove(k) => s.(store := ApplyOp(s.store, op))
    case Send(p) =>
      s.(s2r := if sent then s.s2r + [p] else s.s2r,
         owed := s.owed + E.Asks(p),
         log := s.log + [if p.Publish? then E.PublishSent(TagOf(list, h)) else E.PubrelSent(TagOf(list, h))])
  }

  /** One step; a step that is not possible in `s` changes nothing. */
  ghost function Apply(v5: bool, s: State, step: Step): State {
    match step
    case Submit(x, m) =>
      if s.sender.Idle? && Given(s.sender.list, s.last, x) && m.tag == |s.published| && (m.qos == 1 || m.qos == 2)
      then Begin(s.(last := x), s.sender.list, Start(x, m)) else s
    case TakeId(x) =>
      if s.sender.Idle? && Given(s.sender.list, s.last, x) then s.(last := x) else s
    case SubmitQos0(m, sent) =>
      if s.sender.Idle? && m.tag == |s.published| && m.qos == 0
      then s.(published := s.published + [m], s2r := if sent then s.s2r + [Publish(0, false, m)] else s.s2r)
      else s
    case TakePacket =>
      if s.sender.Idle? && s.r2s != []
      then Begin(s.(r2s := s.r2s[1..], owed := s.owed - E.Answers(s.r2s[0])), s.sender.list, Ack(s.r2s[0])) else s
    case Retry(i) =>
      if s.sender.Idle? && i < |s.sender.list|
      then Begin(s, s.sender.list, Resend(s.sender.list[i])) else s
    case Advance(sent) =>
      if !s.sender.Busy? then s
      else
        var Busy(list, h, n) := s.sender;
        var ops := Ops(v5, list, h);
        if n < |ops| then Perform(s, list, h, ops[n], sent).(sender := Busy(list, h, n + 1))
        else s.(sender := Idle(After(v5, list, h)))
    case ReceiverTakesPacket(free, sent) =>
      if s.s2r == [] then s
      else
        var r := E.React(v5, s.inb, s.s2r[0], free);
        s.(inb := r.inb, s2r := s.s2r[1..], delivered := s.delivered + r.deliver,
           r2s := if sent then s.r2s + r.reply else s.r2s)
    case Reconnect =>
      if s.sender.Idle? then s.(s2r := [], r2s := [], owed := multiset{}) else s
    case Crash(keys) =>
      if s.sender.Failed? || !Enumerates(keys, s.store) then s
      else
        var restarted := s.(last := 0, s2r := [], r2s := [], owed := multiset{});
        if !Restorable(s.store) then restarted.(sender := Failed)
        else Begin(restarted, [], Restart(PurgeOps(s.store, keys), Restored(v5, s.store, keys)))
  }

  ghost function Run(v5: bool, steps: seq<Step>): State {
    if steps == [] then Init else Apply(v5, Run(v5, steps[..|steps| - 1]), steps[|steps| - 1])
  }
}
