// The proof that every run of the exchange keeps its invariant, one packet kind and one id at a
// time, and what follows about deliveries and phases.

module ExchangeProofs {
  import opened Packets
  import opened Exchange
  import MsgIds

  // ----- channels: what writing at the back and reading at the front do to each predicate -----

  lemma Push(ch: seq<Packet>, p: Packet, x: int)
    ensures forall q :: NoPub(ch + [p], q, x) <==> NoPub(ch, q, x) && !IsPub(p, q, x)
    ensures NoAck(ch + [p], x) <==> NoAck(ch, x) && !IsAck(p, x)
    ensures NoRec(ch + [p], x) <==> NoRec(ch, x) && !IsRec(p, x)
    ensures NoRel(ch + [p], x) <==> NoRel(ch, x) && !IsRel(p, x)
    ensures NoComp(ch + [p], x) <==> NoComp(ch, x) && !IsComp(p, x)
  {
    var c := ch + [p];
    assert c[|ch|] == p;
    assert forall i | 0 <= i < |ch| :: c[i] == ch[i];
  }

  lemma PushOrder(ch: seq<Packet>, p: Packet, x: int)
    ensures RelsBeforePubs(ch + [p], x) <==> RelsBeforePubs(ch, x) && (IsRel(p, x) ==> NoPub(ch, 2, x))
    ensures PubsBeforeRels(ch + [p], x) <==> PubsBeforeRels(ch, x) && (IsPub(p, 2, x) ==> NoRel(ch, x))
    ensures CompLast(ch + [p], x) <==> CompLast(ch, x) && (IsRec(p, x) || IsComp(p, x) ==> NoComp(ch, x))
  {
    var c := ch + [p];
    assert c[|ch|] == p;
    assert forall i | 0 <= i < |ch| :: c[i] == ch[i];
  }

  lemma OrderTrivial(ch: seq<Packet>, x: int)
    ensures NoRel(ch, x) ==> PubsBeforeRels(ch, x)
    ensures NoPub(ch, 2, x) ==> RelsBeforePubs(ch, x)
    ensures NoComp(ch, x) ==> CompLast(ch, x)
  {
  }

  lemma PushCarry(ch: seq<Packet>, p: Packet, q: int, x: int, m: Message)
    ensures PubsCarry(ch + [p], q, x, m) <==> PubsCarry(ch, q, x, m) && (IsPub(p, q, x) ==> p.msg == m)
  {
    var c := ch + [p];
    assert c[|ch|] == p;
    assert forall i | 0 <= i < |ch| :: c[i] == ch[i];
  }

  lemma Pop(ch: seq<Packet>, x: int)
    requires ch != []
    ensures forall q :: NoPub(ch, q, x) <==> NoPub(ch[1..], q, x) && !IsPub(ch[0], q, x)
    ensures NoAck(ch, x) <==> NoAck(ch[1..], x) && !IsAck(ch[0], x)
    ensures NoRec(ch, x) <==> NoRec(ch[1..], x) && !IsRec(ch[0], x)
    ensures NoRel(ch, x) <==> NoRel(ch[1..], x) && !IsRel(ch[0], x)
    ensures NoComp(ch, x) <==> NoComp(ch[1..], x) && !IsComp(ch[0], x)
  {
    assert forall i | 0 < i < |ch| :: ch[i] == ch[1..][i - 1];
  }

  lemma PopOrder(ch: seq<Packet>, x: int)
    requires ch != []
    ensures RelsBeforePubs(ch, x) <==> RelsBeforePubs(ch[1..], x) && (IsPub(ch[0], 2, x) ==> NoRel(ch[1..], x))
    ensures PubsBeforeRels(ch, x) <==> PubsBeforeRels(ch[1..], x) && (IsRel(ch[0], x) ==> NoPub(ch[1..], 2, x))
    ensures CompLast(ch, x) <==> CompLast(ch[1..], x) && (IsComp(ch[0], x) ==> NoRec(ch[1..], x) && NoComp(ch[1..], x))
  {
    assert forall i | 0 < i < |ch| :: ch[i] == ch[1..][i - 1];
  }

  lemma PopCarry(ch: seq<Packet>, q: int, x: int, m: Message)
    requires ch != []
    ensures PubsCarry(ch, q, x, m) <==> PubsCarry(ch[1..], q, x, m) && (IsPub(ch[0], q, x) ==> ch[0].msg == m)
  {
    assert forall i | 0 < i < |ch| :: ch[i] == ch[1..][i - 1];
  }

  // ----- each step keeps the invariant of each id -----

  lemma AcceptId(v5: bool, s: State, y: int, m: Message, x: int)
    requires IdInv(v5, s, x) && HistoryOk(s)
    ensures IdInv(v5, Apply(v5, s, Accept(y, m)), x)
  {
    if m.tag == |s.published| {
      assert m !in s.delivered;
    }
  }

  lemma SendPublishId(v5: bool, s: State, y: int, dup: bool, sent: bool, x: int)
    requires IdInv(v5, s, x)
    ensures IdInv(v5, Apply(v5, s, SendPublish(y, dup, sent)), x)
  {
    hide NoPub, NoAck, NoRec, NoRel, NoComp, RelsBeforePubs, PubsBeforeRels, CompLast, PubsCarry;
    if y in s.out {
      var p := Publish(y, dup, s.out[y].msg);
      Push(s.s2r, p, x);
      PushOrder(s.s2r, p, x);
      if x in s.out { PushCarry(s.s2r, p, 2, x, s.out[x].msg); }
    }
  }

  lemma SendPubrelId(v5: bool, s: State, y: int, sent: bool, x: int)
    requires IdInv(v5, s, x)
    ensures IdInv(v5, Apply(v5, s, SendPubrel(y, sent)), x)
  {
    hide NoPub, NoAck, NoRec, NoRel, NoComp, RelsBeforePubs, PubsBeforeRels, CompLast, PubsCarry;
    var p := Pubrel(y, false);
    Push(s.s2r, p, x);
    PushOrder(s.s2r, p, x);
    if x in s.out { PushCarry(s.s2r, p, 2, x, s.out[x].msg); }
  }

  lemma SendQos0Id(v5: bool, s: State, m: Message, sent: bool, x: int)
    requires IdInv(v5, s, x)
    ensures IdInv(v5, Apply(v5, s, SendQos0(m, sent)), x)
  {
    hide NoPub, NoAck, NoRec, NoRel, NoComp, RelsBeforePubs, PubsBeforeRels, CompLast, PubsCarry;
    var p := Publish(0, false, m);
    Push(s.s2r, p, x);
    PushOrder(s.s2r, p, x);
    if x in s.out { PushCarry(s.s2r, p, 2, x, s.out[x].msg); }
  }

  lemma SenderOtherId(v5: bool, s: State, x: int)
    requires IdInv(v5, s, x) && s.r2s != [] && s.r2s[0].id != x
    ensures IdInv(v5, Apply(v5, s, SenderReceives), x)
  {
    hide NoPub, NoAck, NoRec, NoRel, NoComp, RelsBeforePubs, PubsBeforeRels, CompLast, PubsCarry;
    Pop(s.r2s, x);
    PopOrder(s.r2s, x);
  }

  lemma SenderId(v5: bool, s: State, x: int)
    requires IdInv(v5, s, x) && PacketsOk(s) && s.r2s != [] && s.r2s[0].id == x
    ensures IdInv(v5, Apply(v5, s, SenderReceives), x)
  {
    hide NoPub, NoAck, NoRec, NoRel, NoComp, RelsBeforePubs, PubsBeforeRels, CompLast, PubsCarry;
    Pop(s.r2s, x);
    PopOrder(s.r2s, x);
    OrderTrivial(s.s2r, x);
    OrderTrivial(s.r2s[1..], x);
  }

  /** A packet that is not about x's QoS 2 exchange leaves x's record alone and is not answered for x. */
  lemma ReactOther(v5: bool, inb: map<int, Held>, p: Packet, free: bool, x: int)
    requires !IsPub(p, 2, x) && !IsRel(p, x)
    ensures var r := React(v5, inb, p, free);
            && (x in r.inb <==> x in inb) && (x in inb ==> r.inb[x] == inb[x])
            && (r.reply == [] || exists q :: r.reply == [q] && !IsRec(q, x) && !IsComp(q, x))
  {
    var r := React(v5, inb, p, free);
    if r.reply != [] { assert r.reply == [r.reply[0]]; }
  }

  lemma ReceiverOtherId(v5: bool, s: State, free: bool, sent: bool, x: int)
    requires IdInv(v5, s, x) && s.s2r != []
    requires !IsPub(s.s2r[0], 2, x) && !IsRel(s.s2r[0], x)
    requires x in s.out && s.out[x].msg.qos == 2 ==> s.out[x].msg !in React(v5, s.inb, s.s2r[0], free).deliver
    ensures IdInv(v5, Apply(v5, s, ReceiverReceives(free, sent)), x)
  {
    hide NoPub, NoAck, NoRec, NoRel, NoComp, RelsBeforePubs, PubsBeforeRels, CompLast, PubsCarry, React, IsPub,
         IsRel, IsRec, IsComp;
    var r := React(v5, s.inb, s.s2r[0], free);
    ReactOther(v5, s.inb, s.s2r[0], free, x);
    if x in s.out { PopCarry(s.s2r, 2, x, s.out[x].msg); }
    Pop(s.s2r, x);
    PopOrder(s.s2r, x);
    if r.reply != [] {
      var q :| r.reply == [q] && !IsRec(q, x) && !IsComp(q, x);
      Push(s.r2s, q, x);
      PushOrder(s.r2s, q, x);
    }
    assert s.r2s + [] == s.r2s;
  }

  lemma ReceiverPublishId(v5: bool, s: State, free: bool, sent: bool, x: int)
    requires IdInv(v5, s, x) && PacketsOk(s) && s.s2r != [] && IsPub(s.s2r[0], 2, x)
    ensures IdInv(v5, Apply(v5, s, ReceiverReceives(free, sent)), x)
  {
    hide NoPub, NoAck, NoRec, NoRel, NoComp, RelsBeforePubs, PubsBeforeRels, CompLast, PubsCarry;
    if x in s.out { PopCarry(s.s2r, 2, x, s.out[x].msg); }
    Pop(s.s2r, x);
    PopOrder(s.s2r, x);
    Push(s.r2s, Pubrec(x, 0), x);
    PushOrder(s.r2s, Pubrec(x, 0), x);
    assert s.r2s + [] == s.r2s;
    assert s.delivered + [] == s.delivered;
  }

  lemma ReceiverPubrelId(v5: bool, s: State, free: bool, sent: bool, x: int)
    requires IdInv(v5, s, x) && PacketsOk(s) && s.s2r != [] && IsRel(s.s2r[0], x)
    ensures IdInv(v5, Apply(v5, s, ReceiverReceives(free, sent)), x)
  {
    hide NoPub, NoAck, NoRec, NoRel, NoComp, RelsBeforePubs, PubsBeforeRels, CompLast, PubsCarry;
    if x in s.out { PopCarry(s.s2r, 2, x, s.out[x].msg); }
    Pop(s.s2r, x);
    PopOrder(s.s2r, x);
    Push(s.r2s, Pubcomp(x), x);
    PushOrder(s.r2s, Pubcomp(x), x);
    OrderTrivial(s.r2s, x);
    assert s.r2s + [] == s.r2s;
    assert s.delivered + [] == s.delivered;
  }

  lemma ReconnectId(v5: bool, s: State, x: int)
    requires IdInv(v5, s, x)
    ensures IdInv(v5, Apply(v5, s, Reconnect), x)
  {
  }

  lemma RestartId(v5: bool, s: State, table: map<int, Entry>, x: int)
    requires IdInv(v5, s, x) && HistoryOk(s) && FinishedOk(s)
    ensures IdInv(v5, Apply(v5, s, Restart(table)), x)
  {
    if RestartOk(s, table) {
      ReconnectId(v5, s, x);
      assert x in table && x !in s.out ==> !Unfinished(s, table[x].msg);
    }
  }

  // ----- what one packet can deliver -----

  lemma Delivers(v5: bool, s: State, free: bool)
    requires Inv(v5, s) && s.s2r != []
    ensures var d := React(v5, s.inb, s.s2r[0], free).deliver;
            |d| <= 1 && forall m | m in d ::
              && m.tag < |s.published| && s.published[m.tag] == m
              && (m.qos == 2 ==> s.s2r[0].id in s.out && s.out[s.s2r[0].id].msg == m)
  {
    hide NoPub, NoAck, NoRec, NoRel, NoComp, RelsBeforePubs, PubsBeforeRels, CompLast, PubsCarry, FinishedOk,
        LogOk, Qos1Ok;
    var x := s.s2r[0].id;
    assert IdInv(v5, s, x);
    if x in s.out { PopCarry(s.s2r, 2, x, s.out[x].msg); }
    Pop(s.s2r, x);
  }

  // ----- every step keeps the whole invariant -----

  lemma TakeIdId(v5: bool, s: State, y: int, x: int)
    requires IdInv(v5, s, x)
    ensures IdInv(v5, Apply(v5, s, TakeId(y)), x)
  {
  }

  lemma NothingToRead(v5: bool, s: State)
    ensures s.r2s == [] ==> Apply(v5, s, SenderReceives) == s
    ensures s.s2r == [] ==> forall free, sent :: Apply(v5, s, ReceiverReceives(free, sent)) == s
  {
  }

  lemma KeepsIds(v5: bool, s: State, step: Step, x: int)
    requires Inv(v5, s)
    ensures IdInv(v5, Apply(v5, s, step), x)
  {
    assert IdInv(v5, s, x);
    hide Apply, IdInv, React, HistoryOk, FinishedOk, PacketsOk, Qos1Ok, LogOk;
    match step
    case Accept(y, m) => AcceptId(v5, s, y, m, x);
    case TakeId(y) => TakeIdId(v5, s, y, x);
    case SendQos0(m, sent) => SendQos0Id(v5, s, m, sent, x);
    case SendPublish(y, dup, sent) => SendPublishId(v5, s, y, dup, sent, x);
    case SendPubrel(y, sent) => SendPubrelId(v5, s, y, sent, x);
    case SenderReceives =>
      if s.r2s == [] { NothingToRead(v5, s); }
      else if s.r2s[0].id == x { SenderId(v5, s, x); }
      else { SenderOtherId(v5, s, x); }
    case ReceiverReceives(free, sent) =>
      if s.s2r == [] { NothingToRead(v5, s); }
      else {
        var p := s.s2r[0];
        if IsPub(p, 2, x) { ReceiverPublishId(v5, s, free, sent, x); }
        else if IsRel(p, x) { ReceiverPubrelId(v5, s, free, sent, x); }
        else {
          Delivers(v5, s, free);
          ReceiverOtherId(v5, s, free, sent, x);
        }
      }
    case Reconnect => ReconnectId(v5, s, x);
    case Restart(table) => RestartId(v5, s, table, x);
  }

  lemma KeepsPackets(v5: bool, s: State, step: Step)
    requires PacketsOk(s) && HistoryOk(s)
    ensures PacketsOk(Apply(v5, s, step))
  {
  }

  lemma KeepsHistory(v5: bool, s: State, step: Step)
    requires Inv(v5, s)
    ensures HistoryOk(Apply(v5, s, step))
  {
    match step
    case Accept(_, _) => AcceptHistory(v5, s, step);
    case ReceiverReceives(free, _) => if s.s2r != [] {
        Delivers(v5, s, free);
        DeliverHistory(s, React(v5, s.inb, s.s2r[0], free).deliver);
        hide HistoryOk, IdInv, PacketsOk, FinishedOk, Qos1Ok, LogOk, React;
        HistoryFrame(s.(delivered := s.delivered + React(v5, s.inb, s.s2r[0], free).deliver), Apply(v5, s, step));
      }
    case SenderReceives => SenderHistory(v5, s);
    case Restart(table) => RestartHistory(v5, s, table);
    case _ => SendHistory(v5, s, step);
  }

  lemma HistoryFrame(s: State, t: State)
    requires HistoryOk(s) && t.out == s.out && t.published == s.published && t.delivered == s.delivered
    ensures HistoryOk(t)
  {
  }

  lemma AcceptHistory(v5: bool, s: State, step: Step)
    requires HistoryOk(s) && step.Accept?
    ensures HistoryOk(Apply(v5, s, step))
  {
    hide NoPub, NoAck;
  }

  lemma SendHistory(v5: bool, s: State, step: Step)
    requires HistoryOk(s)
              && (step.TakeId? || step.SendQos0? || step.SendPublish? || step.SendPubrel? || step.Reconnect?)
    ensures HistoryOk(Apply(v5, s, step))
  {
  }

  lemma RestartHistory(v5: bool, s: State, table: map<int, Entry>)
    requires HistoryOk(s)
    ensures HistoryOk(Apply(v5, s, Restart(table)))
  {
  }

  lemma SenderHistory(v5: bool, s: State)
    requires HistoryOk(s)
    ensures HistoryOk(Apply(v5, s, SenderReceives))
  {
  }

  lemma DeliverHistory(s: State, d: seq<Message>)
    requires HistoryOk(s)
    requires forall m | m in d :: m.tag < |s.published| && s.published[m.tag] == m
    ensures HistoryOk(s.(delivered := s.delivered + d))
  {
  }

  lemma PublishedGrows(v5: bool, s: State, step: Step)
    ensures s.published <= Apply(v5, s, step).published
  {
    hide NoPub, NoAck, React, Acceptable, RestartOk, Acknowledge;
  }

  /** The entry was there before, or is new, or is of a published message and past PUBREC. */
  ghost predicate Onward(s: State, x: int, e: Entry) {
    || (x in s.out && e == s.out[x])
    || e.msg.tag >= |s.published|
    || (s.published[e.msg.tag] == e.msg && (e.msg.qos == 2 ==> e.next == PUBCOMP))
  }

  lemma AcknowledgeOnward(v5: bool, s: State, p: Packet, x: int)
    requires HistoryOk(s) && x in Acknowledge(v5, s.out, p)
    ensures Onward(s, x, Acknowledge(v5, s.out, p)[x])
  {
  }

  lemma RestartOnward(s: State, table: map<int, Entry>, x: int)
    requires HistoryOk(s) && RestartOk(s, table) && x in table
    ensures Onward(s, x, table[x])
  {
  }

  lemma StepOnward(v5: bool, s: State, step: Step, x: int)
    requires HistoryOk(s) && x in Apply(v5, s, step).out
    ensures Onward(s, x, Apply(v5, s, step).out[x])
  {
    hide NoPub, NoAck, React, MsgIds.NextFree, RestartOk, Acknowledge, HistoryOk;
    if step.SenderReceives? && s.r2s != [] { AcknowledgeOnward(v5, s, s.r2s[0], x); }
    if step.Restart? && RestartOk(s, step.table) { RestartOnward(s, step.table, x); }
  }

  lemma OnwardLog(s: State, t: State)
    requires LogOk(s) && t.log == s.log && s.published <= t.published && forall x | x in t.out :: Onward(s, x, t.out[x])
    ensures LogOk(t)
  {
  }

  lemma SameLog(v5: bool, s: State, step: Step)
    requires !step.SendPublish? && !step.SendPubrel?
    ensures Apply(v5, s, step).log == s.log
  {
    hide NoPub, NoAck, React, Acceptable, RestartOk, Acknowledge;
  }

  /** Steps that write neither a PUBLISH nor a PUBREL. */
  lemma QuietLog(v5: bool, s: State, step: Step)
    requires HistoryOk(s) && LogOk(s) && !step.SendPublish? && !step.SendPubrel?
    ensures LogOk(Apply(v5, s, step))
  {
    hide Apply, HistoryOk, LogOk, Onward;
    var t := Apply(v5, s, step);
    PublishedGrows(v5, s, step);
    SameLog(v5, s, step);
    forall x | x in t.out ensures Onward(s, x, t.out[x]) { StepOnward(v5, s, step, x); }
    OnwardLog(s, t);
  }

  lemma PublishLog(v5: bool, s: State, x: int, dup: bool, sent: bool)
    requires HistoryOk(s) && LogOk(s)
    ensures LogOk(Apply(v5, s, SendPublish(x, dup, sent)))
  {
  }

  lemma PubrelLog(v5: bool, s: State, x: int, sent: bool)
    requires HistoryOk(s) && LogOk(s)
    ensures LogOk(Apply(v5, s, SendPubrel(x, sent)))
  {
  }

  lemma KeepsLog(v5: bool, s: State, step: Step)
    requires HistoryOk(s) && LogOk(s)
    ensures LogOk(Apply(v5, s, step))
  {
    hide HistoryOk, LogOk, Apply;
    match step
    case SendPublish(x, dup, sent) => PublishLog(v5, s, x, dup, sent);
    case SendPubrel(x, sent) => PubrelLog(v5, s, x, sent);
    case _ => QuietLog(v5, s, step);
  }

  lemma AcceptedUnfinished(v5: bool, s: State, step: Step)
    ensures var t := Apply(v5, s, step);
            |s.published| <= |t.published| && forall k | |s.published| <= k < |t.published|
                && t.published[k].qos > 0 :: Unfinished(t, t.published[k])
  {
    var t := Apply(v5, s, step);
    if step.Accept? && |t.published| > |s.published| {
      assert step.id in t.out;
    }
  }

  /** A message the sender has let go is not delivered any more. */
  lemma NotAgain(v5: bool, s: State, step: Step, m: Message)
    requires Inv(v5, s) && m.qos == 2 && !Unfinished(s, m)
    ensures multiset(Apply(v5, s, step).delivered)[m] == multiset(s.delivered)[m]
  {
    hide Inv, NoPub, NoAck, React, Acceptable, RestartOk, Acknowledge;
    if step.ReceiverReceives? && s.s2r != [] { Delivers(v5, s, step.free); }
  }

  lemma KeepsFinishedAt(v5: bool, s: State, step: Step, k: nat)
    requires Inv(v5, s)
    ensures var t := Apply(v5, s, step);
            k < |t.published| && t.published[k].qos == 2 && !Unfinished(t, t.published[k]) ==>
                multiset(t.delivered)[t.published[k]] == 1
  {
    AcceptedUnfinished(v5, s, step);
    PublishedGrows(v5, s, step);
    hide Apply, HistoryOk, IdInv, PacketsOk, Qos1Ok, LogOk;
    if k < |s.published| {
      var m := s.published[k];
      if Unfinished(s, m) {
        var x :| x in s.out && s.out[x].msg == m;
        if m.qos == 2 { FinishesDelivered(v5, s, step, x); }
      } else if m.qos == 2 {
        NotAgain(v5, s, step, m);
      }
    }
  }

  lemma KeepsFinished(v5: bool, s: State, step: Step)
    requires Inv(v5, s)
    ensures FinishedOk(Apply(v5, s, step))
  {
    hide Apply, Inv, Unfinished;
    var t := Apply(v5, s, step);
    forall k | 0 <= k < |t.published| && t.published[k].qos == 2 && !Unfinished(t, t.published[k])
      ensures multiset(t.delivered)[t.published[k]] == 1
    {
      KeepsFinishedAt(v5, s, step, k);
    }
  }

  lemma OnlySenderFinishes(v5: bool, s: State, step: Step, x: int)
    requires x in s.out
    ensures var t := Apply(v5, s, step);
            step.SenderReceives? || (x in t.out && t.out[x].msg == s.out[x].msg)
    ensures var t := Apply(v5, s, step); multiset(s.delivered) <= multiset(t.delivered)
  {
    hide NoPub, NoAck, React;
  }

  /** A message leaves the sender's records only on PUBCOMP, and by then it has been delivered once. */
  lemma FinishesDelivered(v5: bool, s: State, step: Step, x: int)
    requires Inv(v5, s) && x in s.out && s.out[x].msg.qos == 2
    ensures var t := Apply(v5, s, step);
            (x in t.out && t.out[x].msg == s.out[x].msg) || multiset(t.delivered)[s.out[x].msg] == 1
  {
    hide NoPub, NoAck, NoRec, NoRel, NoComp, RelsBeforePubs, PubsBeforeRels, CompLast, PubsCarry, React,
         FinishedOk, LogOk, Qos1Ok, HistoryOk;
    assert IdInv(v5, s, x);
    if step.SenderReceives? {
      if s.r2s != [] { Pop(s.r2s, x); }
    } else {
      OnlySenderFinishes(v5, s, step, x);
    }
  }

  lemma ReceiverQos1Id(v5: bool, s: State, free: bool, sent: bool, x: int, m: Message)
    requires Qos1IdOk(s, x, m) && s.s2r != []
    ensures Qos1IdOk(Apply(v5, s, ReceiverReceives(free, sent)), x, m)
  {
    hide NoPub, NoAck, PubsCarry;
    var r := React(v5, s.inb, s.s2r[0], free);
    PopCarry(s.s2r, 1, x, m);
    if r.reply != [] {
      assert r.reply == [r.reply[0]];
      Push(s.r2s, r.reply[0], x);
    }
    assert s.r2s + [] == s.r2s;
  }

  lemma SendQos1Id(v5: bool, s: State, step: Step, x: int, m: Message)
    requires
      && Qos1IdOk(s, x, m) && x in s.out && s.out[x].msg == m
      && (step.TakeId? || step.SendQos0? || step.SendPublish? || step.SendPubrel?)
    ensures Qos1IdOk(Apply(v5, s, step), x, m)
  {
  }

  /** Acting on an acknowledgement changes no message. */
  lemma AcknowledgeKeeps(v5: bool, out: map<int, Entry>, p: Packet, x: int)
    ensures var after := Acknowledge(v5, out, p); x in after ==> x in out && after[x].msg == out[x].msg
  {
  }

  lemma SenderQos1Id(v5: bool, s: State, x: int)
    requires Qos1Ok(s)
    requires var t := Apply(v5, s, SenderReceives); x in t.out && t.out[x].msg.tag in t.clean
    ensures var t := Apply(v5, s, SenderReceives); Qos1IdOk(t, x, t.out[x].msg)
  {
    hide NoPub, NoAck, NoRec, NoRel, NoComp, PubsCarry, Acknowledge, Unfinished;
    if s.r2s != [] {
      AcknowledgeKeeps(v5, s.out, s.r2s[0], x);
      Pop(s.r2s, x);
    }
  }

  lemma ReconnectQos1Id(v5: bool, s: State, x: int, m: Message)
    ensures Qos1IdOk(Apply(v5, s, Reconnect), x, m)
  {
  }

  lemma RestartQos1Id(v5: bool, s: State, table: map<int, Entry>, x: int)
    requires Qos1Ok(s)
    requires var t := Apply(v5, s, Restart(table)); x in t.out && t.out[x].msg.tag in t.clean
    ensures var t := Apply(v5, s, Restart(table)); Qos1IdOk(t, x, t.out[x].msg)
  {
  }

  lemma AcceptQos1Id(v5: bool, s: State, y: int, m: Message, x: int)
    requires HistoryOk(s) && Qos1Ok(s)
    requires var t := Apply(v5, s, Accept(y, m)); x in t.out && t.out[x].msg.tag in t.clean
    ensures var t := Apply(v5, s, Accept(y, m)); Qos1IdOk(t, x, t.out[x].msg)
  {
  }

  lemma KeepsQos1Id(v5: bool, s: State, step: Step, x: int)
    requires HistoryOk(s) && Qos1Ok(s)
    requires var t := Apply(v5, s, step); x in t.out && t.out[x].msg.tag in t.clean
    ensures var t := Apply(v5, s, step); Qos1IdOk(t, x, t.out[x].msg)
  {
    hide NoPub, NoAck, PubsCarry, Qos1IdOk;
    match step
    case Accept(y, m) => AcceptQos1Id(v5, s, y, m, x);
    case SenderReceives => SenderQos1Id(v5, s, x);
    case ReceiverReceives(free, sent) => if s.s2r != [] { ReceiverQos1Id(v5, s, free, sent, x, s.out[x].msg); }
    case Reconnect => ReconnectQos1Id(v5, s, x, s.out[x].msg);
    case Restart(table) => RestartQos1Id(v5, s, table, x);
    case _ => SendQos1Id(v5, s, step, x, s.out[x].msg);
  }

  lemma Qos1FinishesDelivered(v5: bool, s: State, step: Step, x: int)
    requires HistoryOk(s) && Qos1Ok(s) && x in s.out && s.out[x].msg.tag in s.clean
    ensures var t := Apply(v5, s, step);
            (x in t.out && t.out[x].msg == s.out[x].msg) || multiset(t.delivered)[s.out[x].msg] >= 1
  {
    hide NoPub, NoRec, NoRel, NoComp, PubsCarry, React;
    if step.SenderReceives? {
      if s.r2s != [] { Pop(s.r2s, x); }
    } else {
      OnlySenderFinishes(v5, s, step, x);
    }
  }

  lemma KeepsQos1Delivered(v5: bool, s: State, step: Step, k: nat)
    requires Inv(v5, s)
    requires var t := Apply(v5, s, step); k in t.clean && k < |t.published| && !Unfinished(t, t.published[k])
    ensures var t := Apply(v5, s, step); multiset(t.delivered)[t.published[k]] >= 1
  {
    var t := Apply(v5, s, step);
    AcceptedUnfinished(v5, s, step);
    PublishedGrows(v5, s, step);
    CleanIsQos1(v5, s, step);
    MoreDelivered(v5, s, step);
    hide Apply, HistoryOk, PacketsOk, IdInv, LogOk, FinishedOk, Qos1IdOk;
    var m := t.published[k];
    assert k < |s.published|;
    if Unfinished(s, m) {
      var x :| x in s.out && s.out[x].msg == m;
      Qos1FinishesDelivered(v5, s, step, x);
    }
  }

  lemma MoreDelivered(v5: bool, s: State, step: Step)
    ensures multiset(s.delivered) <= multiset(Apply(v5, s, step).delivered)
  {
    hide NoPub, NoAck, React, Acceptable, RestartOk, Acknowledge;
  }

  lemma CleanIsQos1(v5: bool, s: State, step: Step)
    requires Qos1Ok(s)
    ensures var t := Apply(v5, s, step); forall k | k in t.clean :: k < |t.published| && t.published[k].qos == 1
    ensures var t := Apply(v5, s, step); forall k | k in t.clean && k < |s.published| :: k in s.clean
  {
    hide NoPub, NoAck, React, RestartOk, Acknowledge, Qos1IdOk;
  }

  lemma KeepsQos1(v5: bool, s: State, step: Step)
    requires Inv(v5, s)
    ensures Qos1Ok(Apply(v5, s, step))
  {
    CleanIsQos1(v5, s, step);
    hide Apply, Inv, IdInv, Unfinished, Qos1IdOk;
    var t := Apply(v5, s, step);
    forall x | x in t.out && t.out[x].msg.tag in t.clean
      ensures Qos1IdOk(t, x, t.out[x].msg)
    {
      KeepsQos1Id(v5, s, step, x);
    }
    forall k | k in t.clean && !Unfinished(t, t.published[k])
      ensures multiset(t.delivered)[t.published[k]] >= 1
    {
      KeepsQos1Delivered(v5, s, step, k);
    }
  }

  lemma KeepsInv(v5: bool, s: State, step: Step)
    requires Inv(v5, s)
    ensures Inv(v5, Apply(v5, s, step))
  {
    forall x ensures IdInv(v5, Apply(v5, s, step), x) { KeepsIds(v5, s, step, x); }
    KeepsPackets(v5, s, step);
    KeepsHistory(v5, s, step);
    KeepsFinished(v5, s, step);
    KeepsQos1(v5, s, step);
    KeepsLog(v5, s, step);
  }

  // ----- the theorems -----

  lemma {:induction false} RunInv(v5: bool, steps: seq<Step>)
    ensures Inv(v5, Run(v5, steps))
  {
    if steps == [] {
    } else {
      RunInv(v5, steps[..|steps| - 1]);
      KeepsInv(v5, Run(v5, steps[..|steps| - 1]), steps[|steps| - 1]);
    }
  }

  /** In every run each QoS 2 message is delivered at most once, and exactly once when the sender has let it go. */
  lemma Qos2Deliveries(v5: bool, steps: seq<Step>, k: nat)
    ensures var s := Run(v5, steps);
            k < |s.published| && s.published[k].qos == 2 ==>
              && multiset(s.delivered)[s.published[k]] <= 1
              && (!Unfinished(s, s.published[k]) ==> multiset(s.delivered)[s.published[k]] == 1)
  {
    var s := Run(v5, steps);
    RunInv(v5, steps);
    if k < |s.published| && s.published[k].qos == 2 && Unfinished(s, s.published[k]) {
      var x :| x in s.out && s.out[x].msg == s.published[k];
      assert IdInv(v5, s, x);
    }
  }

  /** A QoS 2 message the sender has past its PUBREC phase, or no longer has. */
  ghost predicate Past(s: State, k: nat) {
    k < |s.published| && s.published[k].qos == 2
    && forall x | x in s.out && s.out[x].msg.tag == k :: s.out[x].msg.qos == 2 && s.out[x].next == PUBCOMP
  }

  lemma KeepsPast(v5: bool, s: State, step: Step, k: nat)
    requires HistoryOk(s) && Past(s, k)
    ensures Past(Apply(v5, s, step), k)
  {
    hide Apply, HistoryOk;
    PublishedGrows(v5, s, step);
    var t := Apply(v5, s, step);
    forall x | x in t.out && t.out[x].msg.tag == k ensures t.out[x].msg.qos == 2 && t.out[x].next == PUBCOMP {
      StepOnward(v5, s, step, x);
    }
  }

  /** A phase never goes backwards, and a message that is finished never needs its PUBLISH again. */
  lemma {:induction false} PhaseNeverBack(v5: bool, steps: seq<Step>, n: nat, k: nat)
    requires n <= |steps| && Past(Run(v5, steps[..n]), k)
    ensures Past(Run(v5, steps), k)
  {
    hide Past, Apply, HistoryOk;
    if n == |steps| {
      assert steps[..n] == steps;
    } else {
      var before := steps[..|steps| - 1];
      assert before[..n] == steps[..n];
      PhaseNeverBack(v5, before, n, k);
      RunInv(v5, before);
      KeepsPast(v5, Run(v5, before), steps[|steps| - 1], k);
    }
  }

  lemma RunOne(v5: bool, steps: seq<Step>, step: Step)
    ensures Run(v5, steps + [step]) == Apply(v5, Run(v5, steps), step)
  {
    assert (steps + [step])[..|steps|] == steps;
  }
}
