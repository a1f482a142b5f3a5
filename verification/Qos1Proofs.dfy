// QoS 1: the PUBACKs still owed for an id, and when a message that is given the id cannot be lost.

module Qos1Proofs {
  import opened Packets
  import opened Exchange
  import opened ExchangeProofs
  import MsgIds

  // ----- the PUBACKs on their way -----

  function Asked(ch: seq<Packet>): multiset<int> {
    if ch == [] then multiset{} else Asks(ch[0]) + Asked(ch[1..])
  }

  function Answered(ch: seq<Packet>): multiset<int> {
    if ch == [] then multiset{} else Answers(ch[0]) + Answered(ch[1..])
  }

  /** The ids of the PUBACKs that may still come, whether already written or only asked for. */
  function Coming(s: State): multiset<int> { Asked(s.s2r) + Answered(s.r2s) }

  /** What a sender can count itself bounds what is on its way. */
  ghost predicate OwedOk(s: State) { Coming(s) <= s.owed }

  lemma {:induction false} AskedPush(ch: seq<Packet>, p: Packet)
    ensures Asked(ch + [p]) == Asked(ch) + Asks(p)
  {
    if ch == [] {
      assert [] + [p] == [p] && [p][1..] == [];
    } else {
      assert (ch + [p])[1..] == ch[1..] + [p];
      AskedPush(ch[1..], p);
    }
  }

  lemma {:induction false} AnsweredPush(ch: seq<Packet>, p: Packet)
    ensures Answered(ch + [p]) == Answered(ch) + Answers(p)
  {
    if ch == [] {
      assert [] + [p] == [p] && [p][1..] == [];
    } else {
      assert (ch + [p])[1..] == ch[1..] + [p];
      AnsweredPush(ch[1..], p);
    }
  }

  lemma {:induction false} AskedNone(ch: seq<Packet>, x: int)
    ensures Asked(ch)[x] == 0 <==> NoPub(ch, 1, x)
  {
    if ch != [] {
      AskedNone(ch[1..], x);
      Pop(ch, x);
    }
  }

  lemma {:induction false} AnsweredNone(ch: seq<Packet>, x: int)
    ensures Answered(ch)[x] == 0 <==> NoAck(ch, x)
  {
    if ch != [] {
      AnsweredNone(ch[1..], x);
      Pop(ch, x);
    }
  }

  lemma NoneComing(s: State, x: int)
    ensures Coming(s)[x] == 0 <==> NoPub(s.s2r, 1, x) && NoAck(s.r2s, x)
  {
    AskedNone(s.s2r, x);
    AnsweredNone(s.r2s, x);
  }

  /** Nothing written is lost, and the receiver is never too busy to answer. */
  predicate Lossless(step: Step) {
    && (step.SendPublish? ==> step.sent)
    && (step.ReceiverReceives? ==> step.free && step.sent)
  }

  /** The receiver answers a QoS 1 PUBLISH by its PUBACK, or not at all. */
  lemma ReactAnswers(v5: bool, inb: map<int, Held>, p: Packet, free: bool)
    ensures Answered(React(v5, inb, p, free).reply) <= Asks(p)
    ensures free ==> Answered(React(v5, inb, p, free).reply) == Asks(p)
    ensures var r := React(v5, inb, p, free).reply; r == [] || exists q :: r == [q]
  {
    var r := React(v5, inb, p, free).reply;
    ReplyIs(v5, inb, p, free);
    hide React, Answered, Asks, Answers;
    AnsweredOne(p);
    if r != [] {
      AnsweredOne(r[0]);
      assert r == [r[0]];
    }
  }

  lemma ReplyIs(v5: bool, inb: map<int, Held>, p: Packet, free: bool)
    ensures var r := React(v5, inb, p, free).reply;
            if r == [] then free ==> Asks(p) == multiset{}
            else |r| == 1 && Answers(r[0]) <= Asks(p) && (free ==> Answers(r[0]) == Asks(p))
  {
  }

  lemma AnsweredOne(p: Packet)
    ensures Answered([p]) == Answers(p) && Answered([]) == multiset{}
  {
    assert [p][1..] == [];
  }

  /** What the step adds to the two channels and takes from them, against what it adds to the count. */
  ghost predicate OwedKept(s: State, t: State, lossless: bool) {
    OwedOk(s) ==> OwedOk(t) && (Coming(s) == s.owed && lossless ==> Coming(t) == t.owed)
  }

  lemma PublishOwed(v5: bool, s: State, x: int, dup: bool, sent: bool)
    ensures OwedKept(s, Apply(v5, s, SendPublish(x, dup, sent)), sent)
  {
    hide Asked, Answered;
    if x in s.out { AskedPush(s.s2r, Publish(x, dup, s.out[x].msg)); }
  }

  lemma Qos0Owed(v5: bool, s: State, m: Message, sent: bool)
    ensures OwedKept(s, Apply(v5, s, SendQos0(m, sent)), true)
  {
    hide Asked, Answered;
    AskedPush(s.s2r, Publish(0, false, m));
  }

  lemma PubrelOwed(v5: bool, s: State, x: int, sent: bool)
    ensures OwedKept(s, Apply(v5, s, SendPubrel(x, sent)), true)
  {
    hide Asked, Answered;
    AskedPush(s.s2r, Pubrel(x, false));
  }

  lemma SameChannels(s: State, t: State)
    requires t.s2r == s.s2r && t.r2s == s.r2s && t.owed == s.owed
    ensures OwedKept(s, t, true)
  {
  }

  lemma ClearedOwed(s: State, t: State)
    requires t.s2r == [] && t.r2s == []
    ensures OwedOk(t) && (t.owed == multiset{} ==> Coming(t) == t.owed)
  {
  }

  lemma SenderOwed(v5: bool, s: State)
    ensures OwedKept(s, Apply(v5, s, SenderReceives), true)
  {
    if s.r2s != [] {
      assert Answered(s.r2s) == Answers(s.r2s[0]) + Answered(s.r2s[1..]);
      hide Asked, Answered, Acknowledge, Answers;
      Taken(Asked(s.s2r), Answers(s.r2s[0]), Answered(s.r2s[1..]), s.owed);
    }
  }

  lemma Taken(asked: multiset<int>, answer: multiset<int>, rest: multiset<int>, owed: multiset<int>)
    ensures asked + (answer + rest) <= owed ==> asked + rest <= owed - answer
    ensures asked + (answer + rest) == owed ==> asked + rest == owed - answer
  {
  }

  lemma KeepsOwed(v5: bool, s: State, step: Step)
    requires OwedOk(s)
    ensures OwedOk(Apply(v5, s, step))
    ensures Coming(s) == s.owed && Lossless(step) ==> Coming(Apply(v5, s, step)) == Apply(v5, s, step).owed
  {
    hide Acceptable, NoPub, NoAck, RestartOk;
    var t := Apply(v5, s, step);
    match step
    case SendPublish(x, dup, sent) => hide Apply; PublishOwed(v5, s, x, dup, sent);
    case SenderReceives => hide Apply; SenderOwed(v5, s);
    case ReceiverReceives(free, sent) =>
      if s.s2r != [] { ReceiverOwed(v5, s, free, sent); assert t.owed == s.owed; }
    case Reconnect => ClearedOwed(s, t);
    case Restart(table) => if RestartOk(s, table) { ClearedOwed(s, t); }
    case SendQos0(m, sent) => hide Apply; Qos0Owed(v5, s, m, sent);
    case SendPubrel(x, sent) => hide Apply; PubrelOwed(v5, s, x, sent);
    case _ => SameChannels(s, t);
  }

  lemma Moved(asks: multiset<int>, rest: multiset<int>, answers: multiset<int>, reply: multiset<int>)
    requires reply <= asks
    ensures rest + (answers + reply) <= (asks + rest) + answers && rest + answers <= (asks + rest) + answers
    ensures reply == asks ==> rest + (answers + reply) == (asks + rest) + answers
  {
  }

  lemma AnsweredReply(ch: seq<Packet>, reply: seq<Packet>)
    requires reply == [] || exists q :: reply == [q]
    ensures Answered(ch + reply) == Answered(ch) + Answered(reply)
  {
    if reply == [] {
      assert ch + [] == ch;
    } else {
      AnsweredPush(ch, reply[0]);
      AnsweredOne(reply[0]);
      assert reply == [reply[0]];
    }
  }

  lemma ReceiverOwed(v5: bool, s: State, free: bool, sent: bool)
    requires s.s2r != []
    ensures var t := Apply(v5, s, ReceiverReceives(free, sent));
            Coming(t) <= Coming(s) && (free && sent ==> Coming(t) == Coming(s))
  {
    hide Apply, React, Asks, Answers, Asked, Answered;
    var p, rest := s.s2r[0], s.s2r[1..];
    var reply := React(v5, s.inb, p, free).reply;
    ReactAnswers(v5, s.inb, p, free);
    AnsweredReply(s.r2s, reply);
    AskedHead(s.s2r);
    ReceiverMoves(v5, s, free, sent);
    Moved(Asks(p), Asked(rest), Answered(s.r2s), Answered(reply));
  }

  lemma AskedHead(ch: seq<Packet>)
    requires ch != []
    ensures Asked(ch) == Asks(ch[0]) + Asked(ch[1..])
  {
  }

  lemma ReceiverMoves(v5: bool, s: State, free: bool, sent: bool)
    requires s.s2r != []
    ensures var t, reply := Apply(v5, s, ReceiverReceives(free, sent)), React(v5, s.inb, s.s2r[0], free).reply;
            t.s2r == s.s2r[1..] && t.r2s == if sent then s.r2s + reply else s.r2s
  {
    hide React;
  }

  lemma {:induction false} RunOwed(v5: bool, steps: seq<Step>)
    ensures OwedOk(Run(v5, steps))
    ensures (forall i | 0 <= i < |steps| :: Lossless(steps[i])) ==> Coming(Run(v5, steps)) == Run(v5, steps).owed
  {
    hide Apply;
    if steps != [] {
      var before := steps[..|steps| - 1];
      RunOwed(v5, before);
      KeepsOwed(v5, Run(v5, before), steps[|steps| - 1]);
      assert forall i | 0 <= i < |before| :: before[i] == steps[i];
    }
  }

  // ----- a message whose id is owed nothing is delivered -----

  /** A message whose id was not in flight when it was given is delivered by the time the sender lets it go. */
  lemma Qos1Deliveries(v5: bool, steps: seq<Step>, k: nat)
    ensures var s := Run(v5, steps);
            k in s.clean ==>
              k < |s.published| && s.published[k].qos == 1
              && (!Unfinished(s, s.published[k]) ==> multiset(s.delivered)[s.published[k]] >= 1)
  {
    RunInv(v5, steps);
  }

  lemma HistoryGrows(v5: bool, s: State, step: Step)
    ensures s.published <= Apply(v5, s, step).published && s.clean <= Apply(v5, s, step).clean
  {
    hide Acceptable, NoPub, NoAck, RestartOk, Acknowledge, React;
  }

  lemma {:induction false} RunGrows(v5: bool, steps: seq<Step>, more: seq<Step>)
    ensures Run(v5, steps).published <= Run(v5, steps + more).published
    ensures Run(v5, steps).clean <= Run(v5, steps + more).clean
  {
    hide Apply;
    if more == [] {
      assert steps + more == steps;
    } else {
      var n := |more| - 1;
      RunGrows(v5, steps, more[..n]);
      assert steps + more == (steps + more[..n]) + [more[n]];
      RunOne(v5, steps + more[..n], more[n]);
      HistoryGrows(v5, Run(v5, steps + more[..n]), more[n]);
    }
  }

  /** However the run goes on after m is given the id x, m is delivered by the time the sender has let it go. */
  ghost predicate Kept(v5: bool, steps: seq<Step>, x: int, m: Message) {
    forall more: seq<Step> ::
      var s := Run(v5, steps + [Accept(x, m)] + more); Unfinished(s, m) || m in s.delivered
  }

  lemma CleanKept(v5: bool, steps: seq<Step>, x: int, m: Message)
    requires Acceptable(Run(v5, steps), x, m) && m.qos == 1 && Coming(Run(v5, steps))[x] == 0
    ensures Kept(v5, steps, x, m)
  {
    var s, begun := Run(v5, steps), steps + [Accept(x, m)];
    NoneComing(s, x);
    RunOne(v5, steps, Accept(x, m));
    assert m.tag in Run(v5, begun).clean && Run(v5, begun).published[m.tag] == m;
    hide Apply;
    forall more: seq<Step> ensures var t := Run(v5, begun + more); Unfinished(t, m) || m in t.delivered {
      RunGrows(v5, begun, more);
      Qos1Deliveries(v5, begun + more, m.tag);
    }
  }

  // ----- a message whose id is owed a PUBACK can be lost -----

  /** The entry x is m, which was never written, and a PUBACK with its id will come. */
  ghost predicate Doomed(s: State, x: int, m: Message) {
    && x in s.out && s.out[x].msg == m && m.qos == 1
    && m !in s.delivered && (forall p | p in s.s2r :: p.Publish? ==> p.msg != m)
    && Coming(s)[x] > 0
  }

  lemma HeldQos2(v5: bool, s: State, y: int)
    requires Inv(v5, s) && y in s.inb && s.inb[y].Held?
    ensures s.inb[y].msg.qos == 2
  {
    assert IdInv(v5, s, y);
  }

  /** The receiver's packet is not a PUBLISH of m, nor does it hold m. */
  lemma NotDelivered(v5: bool, s: State, m: Message)
    requires Inv(v5, s) && s.s2r != [] && m.qos == 1 && (forall p | p in s.s2r :: p.Publish? ==> p.msg != m)
    ensures m !in React(v5, s.inb, s.s2r[0], true).deliver
  {
    hide IdInv, FinishedOk, Qos1Ok, LogOk, PacketsOk, HistoryOk;
    var p := s.s2r[0];
    assert p in s.s2r;
    if p.Pubrel? && p.id in s.inb && s.inb[p.id].Held? { HeldQos2(v5, s, p.id); }
  }

  lemma DoomedReceives(v5: bool, s: State, x: int, m: Message)
    requires Inv(v5, s) && OwedOk(s) && Doomed(s, x, m) && s.s2r != []
    ensures var t := Apply(v5, s, ReceiverReceives(true, true)); Doomed(t, x, m) && t.s2r == s.s2r[1..]
  {
    hide Coming, Inv, React;
    ReceiverOwed(v5, s, true, true);
    NotDelivered(v5, s, m);
  }

  /** The receiver reads all there is. */
  lemma {:induction false} DrainReceiver(v5: bool, steps: seq<Step>, x: int, m: Message) returns (more: seq<Step>)
    requires Doomed(Run(v5, steps), x, m)
    ensures Doomed(Run(v5, steps + more), x, m) && Run(v5, steps + more).s2r == []
    decreases |Run(v5, steps).s2r|
  {
    hide Apply, Doomed, Inv, OwedOk;
    if Run(v5, steps).s2r == [] {
      more := [];
      assert steps + more == steps;
    } else {
      RunInv(v5, steps);
      RunOwed(v5, steps);
      DoomedReceives(v5, Run(v5, steps), x, m);
      var step := ReceiverReceives(true, true);
      RunOne(v5, steps, step);
      var rest := DrainReceiver(v5, steps + [step], x, m);
      more := [step] + rest;
      assert steps + more == steps + [step] + rest;
    }
  }

  lemma DoomedFalls(v5: bool, s: State, x: int, m: Message)
    requires Inv(v5, s) && Doomed(s, x, m) && s.s2r == []
    ensures s.r2s != []
    ensures var t := Apply(v5, s, SenderReceives);
            if s.r2s[0] == Puback(x) then !Unfinished(t, m) && m !in t.delivered
            else Doomed(t, x, m) && t.s2r == [] && t.r2s == s.r2s[1..]
  {
    hide IdInv, FinishedOk, Qos1Ok, LogOk, PacketsOk, Acceptable, React, RestartOk;
    assert Answered(s.r2s)[x] > 0 && Answered(s.r2s) == Answers(s.r2s[0]) + Answered(s.r2s[1..]);
    AcknowledgeOther(v5, s.out, s.r2s[0], x);
    hide Asked, Answered, Acknowledge;
    if s.r2s[0] == Puback(x) {
      var t := Apply(v5, s, SenderReceives);
      forall y | y in t.out ensures t.out[y].msg != m { AcknowledgeKeeps(v5, s.out, s.r2s[0], y); }
    }
  }

  /** Only its PUBACK takes a QoS 1 entry away. */
  lemma AcknowledgeOther(v5: bool, out: map<int, Entry>, p: Packet, x: int)
    requires x in out && out[x].msg.qos == 1
    ensures if p == Puback(x) then x !in Acknowledge(v5, out, p)
            else x in Acknowledge(v5, out, p) && Acknowledge(v5, out, p)[x] == out[x]
  {
  }

  /** The sender reads on until the stale PUBACK takes the entry away. */
  lemma {:induction false} DrainSender(v5: bool, steps: seq<Step>, x: int, m: Message) returns (more: seq<Step>)
    requires Doomed(Run(v5, steps), x, m) && Run(v5, steps).s2r == []
    ensures var s := Run(v5, steps + more); !Unfinished(s, m) && m !in s.delivered
    decreases |Run(v5, steps).r2s|
  {
    hide Apply, Doomed, Inv;
    RunInv(v5, steps);
    DoomedFalls(v5, Run(v5, steps), x, m);
    RunOne(v5, steps, SenderReceives);
    more := [SenderReceives];
    if Run(v5, steps).r2s[0] != Puback(x) {
      var rest := DrainSender(v5, steps + [SenderReceives], x, m);
      more := [SenderReceives] + rest;
      assert steps + more == steps + [SenderReceives] + rest;
    }
  }

  lemma AcceptDoomed(v5: bool, s: State, x: int, m: Message)
    requires Inv(v5, s) && Acceptable(s, x, m) && m.qos == 1 && Coming(s)[x] > 0
    ensures Doomed(Apply(v5, s, Accept(x, m)), x, m)
  {
    hide IdInv, FinishedOk, Qos1Ok, LogOk, React, RestartOk;
    forall p | p in s.s2r && p.Publish? ensures p.msg != m {
      var i :| 0 <= i < |s.s2r| && s.s2r[i] == p;
    }
  }

  lemma DirtyLost(v5: bool, steps: seq<Step>, x: int, m: Message)
    requires Acceptable(Run(v5, steps), x, m) && m.qos == 1 && Coming(Run(v5, steps))[x] > 0
    ensures !Kept(v5, steps, x, m)
  {
    hide Apply, Inv, Doomed, Acceptable, Coming;
    var begun := steps + [Accept(x, m)];
    RunInv(v5, steps);
    RunOne(v5, steps, Accept(x, m));
    AcceptDoomed(v5, Run(v5, steps), x, m);
    var read := DrainReceiver(v5, begun, x, m);
    var taken := DrainSender(v5, begun + read, x, m);
    assert begun + read + taken == begun + (read + taken);
    hide Run, Unfinished;
    var t := Run(v5, begun + (read + taken));
    assert !(Unfinished(t, m) || m in t.delivered);
  }

  /**
   * A QoS 1 message is certain to be delivered by the time it is let go if and only if no PUBACK with its id can
   * still come when the id is given to it. That is so whenever none is owed, which the sender can count; and unless
   * something written was lost, only then.
   */
  lemma Qos1KeptIff(v5: bool, steps: seq<Step>, x: int, m: Message)
    requires Acceptable(Run(v5, steps), x, m) && m.qos == 1
    ensures Kept(v5, steps, x, m) <==> Coming(Run(v5, steps))[x] == 0
    ensures Run(v5, steps).owed[x] == 0 ==> Kept(v5, steps, x, m)
    ensures (forall i | 0 <= i < |steps| :: Lossless(steps[i])) ==>
              (Kept(v5, steps, x, m) <==> Run(v5, steps).owed[x] == 0)
  {
    RunOwed(v5, steps);
    assert Coming(Run(v5, steps))[x] <= Run(v5, steps).owed[x];
    hide Kept, Coming;
    if Coming(Run(v5, steps))[x] == 0 { CleanKept(v5, steps, x, m); } else { DirtyLost(v5, steps, x, m); }
  }

  // ----- a sender that never asks twice -----

  /** Every PUBACK owed belongs to an entry, and no QoS 1 message was given an id that one was owed for. */
  ghost predicate Sparing(s: State) {
    && (forall x :: s.owed[x] <= 1 && (s.owed[x] > 0 ==> x in s.out && s.out[x].msg.qos == 1))
    && (forall k | 0 <= k < |s.published| :: s.published[k].qos == 1 ==> k in s.clean)
  }

  lemma SparingOut(v5: bool, s: State, step: Step, x: int)
    requires Sparing(s) && Apply(v5, s, step).owed[x] <= 1
    ensures var t := Apply(v5, s, step); t.owed[x] > 0 ==> x in t.out && t.out[x].msg.qos == 1
  {
    hide NoPub, NoAck, RestartOk, React, MsgIds.NextFree, Acknowledge;
    if step.SenderReceives? && s.r2s != [] && x in s.out && s.out[x].msg.qos == 1 {
      AcknowledgeOther(v5, s.out, s.r2s[0], x);
    }
  }

  lemma SparingClean(v5: bool, s: State, step: Step, k: nat)
    requires OwedOk(s) && Sparing(s)
    ensures var t := Apply(v5, s, step); k < |t.published| && t.published[k].qos == 1 ==> k in t.clean
  {
    hide NoPub, NoAck, RestartOk, React, MsgIds.NextFree, Acknowledge, Coming;
    if step.Accept? && step.id !in s.out {
      NoneComing(s, step.id);
      assert Coming(s)[step.id] <= s.owed[step.id];
    }
  }

  lemma KeepsSparing(v5: bool, s: State, step: Step)
    requires OwedOk(s) && Sparing(s) && forall x :: Apply(v5, s, step).owed[x] <= 1
    ensures Sparing(Apply(v5, s, step))
  {
    var t := Apply(v5, s, step);
    hide Apply;
    forall x ensures t.owed[x] <= 1 && (t.owed[x] > 0 ==> x in t.out && t.out[x].msg.qos == 1) {
      SparingOut(v5, s, step, x);
    }
    forall k | 0 <= k < |t.published| ensures t.published[k].qos == 1 ==> k in t.clean { SparingClean(v5, s, step, k); }
  }
}
