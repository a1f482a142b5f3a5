// When a sender can be certain of a QoS 1 message, store operations, writes and crashes included.

module Qos1Certainty {
  import opened Packets
  import opened Persistence
  import opened Handlers
  import opened Session
  import opened SessionProofs
  import opened Qos1Sessions
  import C = CrashProofs
  import E = Exchange
  import X = ExchangeProofs
  import Q = Qos1Proofs
  import MsgIds

  /** The ids of the PUBACKs that may still come. */
  function StillComing(s: State): multiset<int> { Q.Asked(s.s2r) + Q.Answered(s.r2s) }

  /** However the run goes on after m is stored under the id x, m is delivered by the time the sender has let it go. */
  ghost predicate Certain(v5: bool, steps: seq<Step>, x: int, m: Message) {
    forall more: seq<Step> ::
      var s := Run(v5, steps + [Submit(x, m), Advance(true)] + more); LetGo(s, m) ==> m in s.delivered
  }

  /** The id is given to a QoS 1 message. */
  ghost predicate Submittable(s: State, x: int, m: Message) {
    s.sender.Idle? && Given(s.sender.list, s.last, x) && m.tag == |s.published| && m.qos == 1
  }

  // ----- no PUBACK can come -----

  lemma ShowsComing(v5: bool, s: State, a: E.State)
    requires Shows(v5, s, a) && s.sender.Idle?
    ensures Q.Coming(a) == StillComing(s) && a.owed == s.owed
  {
    assert [] + s.r2s == s.r2s;
  }

  lemma StartAcceptable(v5: bool, s: State, a: E.State)
    requires Shows(v5, s, a) && s.sender.Busy? && s.sender.handler.Start? && s.sender.done == 0
    ensures E.Acceptable(a, s.sender.handler.id, s.sender.handler.msg)
  {
    hide Table, TableOf, WellFormedStore, Compatible, StoredOnce, DistinctIds, MsgIds.NextFree;
    NewIdTable(s.sender.list, s.sender.handler.id);
    TableIds(s.sender.list);
  }

  lemma CleanStart(v5: bool, a: E.State, x: int, m: Message)
    requires E.Acceptable(a, x, m) && m.qos == 1 && Q.Coming(a)[x] == 0
    ensures var b := E.Apply(v5, a, E.Accept(x, m));
            m.tag in b.clean && m.tag < |b.published| && b.published[m.tag] == m
  {
    Q.NoneComing(a, x);
  }

  /** The exchange of a run that stores m, with m noted as clean. */
  lemma StoredClean(v5: bool, steps: seq<Step>, x: int, m: Message) returns (exchange: seq<E.Step>)
    requires Submittable(Run(v5, steps), x, m) && StillComing(Run(v5, steps))[x] == 0
    ensures Shows(v5, Run(v5, steps + [Submit(x, m), Advance(true)]), E.Run(v5, exchange))
    ensures var b := E.Run(v5, exchange); m.tag in b.clean && m.tag < |b.published| && b.published[m.tag] == m
  {
    var s := Run(v5, steps);
    exchange := Refines(v5, steps);
    var a := E.Run(v5, exchange);
    Q.RunOwed(v5, exchange);
    ShowsComing(v5, s, a);
    FollowSubmit(v5, s, x, m, a);
    var s1 := Apply(v5, s, Submit(x, m));
    assert s1.sender == Busy(s.sender.list, Start(x, m), 0);
    hide Shows, Apply, E.Apply, Q.Coming, StillComing, Q.OwedOk, E.Acceptable;
    StartAcceptable(v5, s1, a);
    FollowStartPut(v5, s1, true, a);
    CleanStart(v5, a, x, m);
    X.RunOne(v5, exchange, E.Accept(x, m));
    exchange := exchange + [E.Accept(x, m)];
    RunPair(v5, steps, Submit(x, m), Advance(true));
  }

  lemma RunPair(v5: bool, steps: seq<Step>, a: Step, b: Step)
    ensures Run(v5, steps + [a, b]) == Apply(v5, Apply(v5, Run(v5, steps), a), b)
  {
    hide Apply;
    assert (steps + [a, b])[..|steps| + 1] == steps + [a];
    assert (steps + [a])[..|steps|] == steps;
  }

  lemma NoneComingCertain(v5: bool, steps: seq<Step>, x: int, m: Message)
    requires Submittable(Run(v5, steps), x, m) && StillComing(Run(v5, steps))[x] == 0
    ensures Certain(v5, steps, x, m)
  {
    hide Shows, Run, E.Run, Submittable, LetGo, StillComing;
    var begun := steps + [Submit(x, m), Advance(true)];
    var exchange := StoredClean(v5, steps, x, m);
    forall more: seq<Step> | LetGo(Run(v5, begun + more), m) ensures m in Run(v5, begun + more).delivered {
      var all := begun + more;
      assert all[..|begun|] == begun;
      var longer := RefinesOn(v5, all, |begun|, exchange);
      assert longer == exchange + longer[|exchange|..];
      Q.RunGrows(v5, exchange, longer[|exchange|..]);
      Q.Qos1Deliveries(v5, longer, m.tag);
      LetGoFinished(v5, Run(v5, all), E.Run(v5, longer), m);
      FollowOwed(v5, Run(v5, all), E.Run(v5, longer));
    }
  }

  // ----- a PUBACK can come -----

  /**
   * The sender has m under x, its PUBLISH is behind the first k packets, and a PUBACK for x comes before it is read.
   */
  ghost predicate Doomed(s: State, x: int, m: Message, k: nat) {
    && s.sender.Idle? && m.qos == 1 && m !in s.delivered && k <= |s.s2r|
    && x in TableOf(s.sender.list) && TableOf(s.sender.list)[x].msg == m
    && (forall i | 0 <= i < k :: s.s2r[i].Publish? ==> s.s2r[i].msg != m)
    && (Q.Asked(s.s2r[..k]) + Q.Answered(s.r2s))[x] > 0
  }

  lemma NotHeld(v5: bool, s: State, a: E.State, m: Message)
    requires Shows(v5, s, a) && E.Inv(v5, a) && m.qos == 1
    ensures forall y | y in s.inb && s.inb[y].Held? :: s.inb[y].msg != m
  {
    forall y | y in s.inb && s.inb[y].Held? ensures s.inb[y].msg != m { Q.HeldQos2(v5, a, y); }
  }

  lemma NoDelivery(v5: bool, inb: map<int, E.Held>, p: Packet, m: Message)
    requires (p.Publish? ==> p.msg != m) && forall y | y in inb && inb[y].Held? :: inb[y].msg != m
    ensures m !in E.React(v5, inb, p, true).deliver
  {
  }

  lemma ReadComing(v5: bool, s: State, k: nat)
    requires 0 < k <= |s.s2r|
    ensures var reply := E.React(v5, s.inb, s.s2r[0], true).reply;
            Q.Asked(s.s2r[1..][..k - 1]) + Q.Answered(s.r2s + reply) == Q.Asked(s.s2r[..k]) + Q.Answered(s.r2s)
  {
    var p := s.s2r[0];
    var reply := E.React(v5, s.inb, p, true).reply;
    assert s.s2r[..k][1..] == s.s2r[1..][..k - 1];
    Q.ReactAnswers(v5, s.inb, p, true);
    Q.AnsweredReply(s.r2s, reply);
    assert Q.Asked(s.s2r[..k]) == E.Asks(p) + Q.Asked(s.s2r[1..][..k - 1]);
    hide E.React, E.Asks, Q.Asked, Q.Answered;
    Q.Moved(E.Asks(p), Q.Asked(s.s2r[1..][..k - 1]), Q.Answered(s.r2s), Q.Answered(reply));
  }

  lemma DoomedRead(v5: bool, s: State, a: E.State, x: int, m: Message, k: nat)
    requires Shows(v5, s, a) && E.Inv(v5, a) && Doomed(s, x, m, k) && k > 0
    ensures Doomed(Apply(v5, s, ReceiverTakesPacket(true, true)), x, m, k - 1)
  {
    hide Shows, E.Inv, E.React, TableOf, Q.Asked, Q.Answered;
    NotHeld(v5, s, a, m);
    NoDelivery(v5, s.inb, s.s2r[0], m);
    ReadComing(v5, s, k);
    var t := Apply(v5, s, ReceiverTakesPacket(true, true));
    assert t.s2r == s.s2r[1..];
  }

  /** The receiver reads the packets ahead of m's PUBLISH. */
  lemma {:induction false} ReadAhead(v5: bool, steps: seq<Step>, x: int, m: Message, k: nat) returns (more: seq<Step>)
    requires Doomed(Run(v5, steps), x, m, k)
    ensures Doomed(Run(v5, steps + more), x, m, 0)
    decreases k
  {
    hide Shows, Doomed, Apply, E.Inv;
    if k == 0 {
      more := [];
      assert steps + more == steps;
    } else {
      var step := ReceiverTakesPacket(true, true);
      var exchange := Refines(v5, steps);
      X.RunInv(v5, exchange);
      DoomedRead(v5, Run(v5, steps), E.Run(v5, exchange), x, m, k);
      assert (steps + [step])[..|steps|] == steps;
      var rest := ReadAhead(v5, steps + [step], x, m, k - 1);
      more := [step] + rest;
      assert steps + more == steps + [step] + rest;
    }
  }

  /** The steps that handle one acknowledgement. */
  function TakeSteps(v5: bool, s: State): seq<Step>
    requires s.sender.Idle? && s.r2s != []
  {
    [TakePacket] + Advances(|Ops(v5, s.sender.list, Ack(s.r2s[0]))|)
  }

  lemma TakesAck(v5: bool, s: State)
    requires s.sender.Idle? && s.r2s != []
    ensures var t := Goes(v5, s, TakeSteps(v5, s));
            && t.sender == Idle(AckAfter(v5, s.sender.list, s.r2s[0]))
            && t.r2s == s.r2s[1..] && t.delivered == s.delivered
  {
    var s1 := Apply(v5, s, TakePacket);
    var n := |Ops(v5, s.sender.list, Ack(s.r2s[0]))|;
    assert s1.sender == Busy(s.sender.list, Ack(s.r2s[0]), 0) && s1.r2s == s.r2s[1..] && s1.delivered == s.delivered;
    hide Apply, Goes, Ops, AckAfter;
    HandlerGoes(v5, s1, n);
    GoesOn(v5, s, TakePacket, Advances(n));
  }

  lemma DoomedTaken(v5: bool, s: State, a: E.State, x: int, m: Message)
    requires Shows(v5, s, a) && E.Inv(v5, a) && Doomed(s, x, m, 0)
    ensures s.r2s != []
    ensures var t := Goes(v5, s, TakeSteps(v5, s));
            if s.r2s[0] == Puback(x) then LetGo(t, m) && m !in t.delivered
            else Doomed(t, x, m, 0) && t.r2s == s.r2s[1..]
  {
    hide Shows, E.Inv, TableOf, DistinctIds, Goes, E.Acknowledge, AckAfter, TakeSteps;
    AnswerComing(s, x);
    ShownList(v5, s, a);
    hide Q.Answered, Q.Asked;
    var list, p := s.sender.list, s.r2s[0];
    var t := Goes(v5, s, TakeSteps(v5, s));
    TakesAck(v5, s);
    C.AckTable(v5, list, p);
    Q.AcknowledgeOther(v5, TableOf(list), p, x);
    if p == Puback(x) {
      forall e | e in t.sender.list ensures e.msg != m {
        C.TableMember(t.sender.list, e);
        X.AcknowledgeKeeps(v5, TableOf(list), p, e.id);
      }
    } else {
      NothingAsked(t.s2r);
    }
  }

  lemma AnswerComing(s: State, x: int)
    requires (Q.Asked(s.s2r[..0]) + Q.Answered(s.r2s))[x] > 0
    ensures s.r2s != [] && (s.r2s[0] == Puback(x) || Q.Answered(s.r2s[1..])[x] > 0)
  {
    assert s.s2r[..0] == [];
    assert Q.Answered(s.r2s) == E.Answers(s.r2s[0]) + Q.Answered(s.r2s[1..]);
  }

  lemma NothingAsked(ch: seq<Packet>)
    ensures Q.Asked(ch[..0]) == multiset{}
  {
    assert ch[..0] == [];
  }

  lemma ShownList(v5: bool, s: State, a: E.State)
    requires Shows(v5, s, a) && E.Inv(v5, a) && s.sender.Idle?
    ensures DistinctIds(s.sender.list)
    ensures var out := TableOf(s.sender.list);
            forall x, y | x in out && y in out && x != y :: out[x].msg != out[y].msg
  {
    hide Table, TableOf, WellFormedStore, Compatible, StoredOnce, DistinctIds, E.IdInv, E.FinishedOk, E.Qos1Ok, E.LogOk,
         E.PacketsOk;
  }

  /** The sender reads on until the PUBACK takes m away. */
  lemma {:induction false} TakeAll(v5: bool, steps: seq<Step>, x: int, m: Message) returns (more: seq<Step>)
    requires Doomed(Run(v5, steps), x, m, 0)
    ensures var s := Run(v5, steps + more); LetGo(s, m) && m !in s.delivered
    decreases |Run(v5, steps).r2s|
  {
    hide Shows, Doomed, Apply, E.Inv, Goes, TakeSteps, LetGo;
    var s := Run(v5, steps);
    var exchange := Refines(v5, steps);
    X.RunInv(v5, exchange);
    IdleDoomed(s, x, m);
    DoomedTaken(v5, s, E.Run(v5, exchange), x, m);
    more := TakeSteps(v5, s);
    RunGoes(v5, steps, more);
    if s.r2s[0] != Puback(x) {
      var rest := TakeAll(v5, steps + more, x, m);
      assert steps + (more + rest) == steps + more + rest;
      more := more + rest;
    }
  }

  lemma IdleDoomed(s: State, x: int, m: Message)
    requires Doomed(s, x, m, 0)
    ensures s.sender.Idle?
  {
  }

  /** The message is stored and written, and the handler has ended. */
  lemma SubmitDoomed(v5: bool, s: State, a: E.State, x: int, m: Message)
    requires Shows(v5, s, a) && E.Inv(v5, a) && Submittable(s, x, m) && StillComing(s)[x] > 0
    ensures Doomed(Goes(v5, s, SubmitSteps(x, m)), x, m, |s.s2r|)
  {
    hide Goes, Shows, E.Inv, TableOf, Q.Asked, Q.Answered, DistinctIds, Given, HasId, SubmitSteps;
    NewMessage(v5, s, a, m);
    ShownLast(v5, s, a);
    GivenIsNew(s.sender.list, s.last, x);
    ShownList(v5, s, a);
    C.AppendTable(s.sender.list, OutMsg(x, m, PUBREC));
    SubmitGoes(v5, s, x, m);
    var t := Goes(v5, s, SubmitSteps(x, m));
    assert t.s2r[..|s.s2r|] == s.s2r;
  }

  lemma ShownLast(v5: bool, s: State, a: E.State)
    requires Shows(v5, s, a) && s.sender.Idle?
    ensures 0 <= s.last <= MAX_MSG_ID
  {
  }

  /** A new message is nowhere yet. */
  lemma NewMessage(v5: bool, s: State, a: E.State, m: Message)
    requires Shows(v5, s, a) && E.Inv(v5, a) && m.tag == |s.published|
    ensures m !in s.delivered && forall i | 0 <= i < |s.s2r| :: s.s2r[i].Publish? ==> s.s2r[i].msg != m
  {
    hide Table, WellFormedStore, Compatible, StoredOnce, HandlerOk, OutOf, E.IdInv, E.FinishedOk, E.Qos1Ok, E.LogOk;
  }

  lemma ComingUncertain(v5: bool, steps: seq<Step>, x: int, m: Message)
    requires Submittable(Run(v5, steps), x, m) && StillComing(Run(v5, steps))[x] > 0
    ensures !Certain(v5, steps, x, m)
  {
    hide Shows, Doomed, Apply, E.Inv, Goes, Submittable, StillComing, LetGo, Certain, Run, SubmitSteps, Advances;
    var exchange := Refines(v5, steps);
    X.RunInv(v5, exchange);
    var begun := steps + SubmitSteps(x, m);
    SubmitDoomed(v5, Run(v5, steps), E.Run(v5, exchange), x, m);
    RunGoes(v5, steps, SubmitSteps(x, m));
    var ahead := ReadAhead(v5, begun, x, m, |Run(v5, steps).s2r|);
    var taken := TakeAll(v5, begun + ahead, x, m);
    Uncertain(v5, steps, x, m, ahead, taken);
  }

  lemma SubmitIs(x: int, m: Message)
    ensures SubmitSteps(x, m) == [Submit(x, m), Advance(true)] + Advances(1)
  {
  }

  /** A run after the submission that loses m. */
  lemma Uncertain(v5: bool, steps: seq<Step>, x: int, m: Message, ahead: seq<Step>, taken: seq<Step>)
    requires var s := Run(v5, steps + SubmitSteps(x, m) + ahead + taken); LetGo(s, m) && m !in s.delivered
    ensures !Certain(v5, steps, x, m)
  {
    hide Run, LetGo, SubmitSteps, Advances;
    SubmitIs(x, m);
    var rest := Advances(1) + ahead + taken;
    assert steps + SubmitSteps(x, m) + ahead + taken == steps + [Submit(x, m), Advance(true)] + rest;
  }

  /**
   * QoS 1 for the persistent sender, over every run and every continuation with losses and crashes: a message stored
   * under x is certain to be delivered by the time it is let go if and only if no PUBACK for x could still come when
   * it got the id; so whenever the sender counts none owed.
   */
  lemma Qos1CertainIff(v5: bool, steps: seq<Step>, x: int, m: Message)
    requires Submittable(Run(v5, steps), x, m)
    ensures Certain(v5, steps, x, m) <==> StillComing(Run(v5, steps))[x] == 0
    ensures Run(v5, steps).owed[x] == 0 ==> Certain(v5, steps, x, m)
  {
    hide Certain, Shows;
    var s := Run(v5, steps);
    var exchange := Refines(v5, steps);
    Q.RunOwed(v5, exchange);
    ShowsComing(v5, s, E.Run(v5, exchange));
    assert StillComing(s)[x] <= s.owed[x];
    hide StillComing;
    if StillComing(s)[x] == 0 { NoneComingCertain(v5, steps, x, m); } else { ComingUncertain(v5, steps, x, m); }
  }
}
