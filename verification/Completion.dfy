// What a session can still finish: without losses every message the sender has is delivered and let go, but for one
// that waits for a PUBCOMP the receiver will not send.

module Completion {
  import opened Packets
  import opened Persistence
  import opened Handlers
  import opened Session
  import opened SessionProofs
  import opened Qos1Sessions
  import C = CrashProofs
  import E = Exchange
  import X = ExchangeProofs
  import Q = Qos1Certainty

  /** The sender waits for a PUBCOMP, and the receiver has no record any more that would make it answer a PUBREL. */
  predicate Stuck(s: State, e: OutMsg) {
    e.msg.qos == 2 && e.next == PUBCOMP && e.id !in s.inb
  }

  /** Nothing is lost, nothing is refused and nobody crashes. */
  predicate Smooth(steps: seq<Step>) {
    forall step | step in steps ::
      && !step.Crash?
      && (step.Advance? ==> step.sent)
      && (step.ReceiverTakesPacket? ==> step.free && step.sent)
  }

  lemma SmoothAdvances(n: nat)
    ensures Smooth(Advances(n))
  {
  }

  lemma SmoothBoth(a: seq<Step>, b: seq<Step>)
    requires Smooth(a) && Smooth(b)
    ensures Smooth(a + b)
  {
  }

  // ----- one handler, one packet -----

  function RetryAll(v5: bool, list: seq<OutMsg>, i: nat): (steps: seq<Step>)
    requires i < |list|
    ensures Smooth(steps)
  {
    SmoothAdvances(|ResendOps(v5, list[i])|);
    [Retry(i)] + Advances(|ResendOps(v5, list[i])|)
  }

  function TakeOne(v5: bool, list: seq<OutMsg>, p: Packet): (steps: seq<Step>)
    ensures Smooth(steps)
  {
    SmoothAdvances(|AckOps(v5, list, p)|);
    [TakePacket] + Advances(|AckOps(v5, list, p)|)
  }

  lemma RetriesOne(v5: bool, s: State, i: nat)
    requires s.sender.Idle? && i < |s.sender.list|
    requires var e := s.sender.list[i]; e.msg.qos == 1 || e.msg.qos == 2
    ensures var t, e := Goes(v5, s, RetryAll(v5, s.sender.list, i)), s.sender.list[i];
            && t.sender == s.sender && t.inb == s.inb && t.r2s == s.r2s && t.delivered == s.delivered
            && t.s2r == s.s2r + [if e.msg.qos == 1 || e.next == PUBREC then Publish(e.id, true, e.msg)
                                 else Pubrel(e.id, false)]
  {
    var e := s.sender.list[i];
    var s1 := Apply(v5, s, Retry(i));
    assert s1 == s.(sender := Busy(s.sender.list, Resend(e), 0));
    hide Apply, Goes, ResendOps;
    ResendWrites(v5, e);
    HandlerGoes(v5, s1, |ResendOps(v5, e)|);
    GoesOn(v5, s, Retry(i), Advances(|ResendOps(v5, e)|));
    assert ResendOps(v5, e)[0..] == ResendOps(v5, e);
  }

  lemma TakesOne(v5: bool, s: State)
    requires s.sender.Idle? && s.r2s != []
    ensures var t, p := Goes(v5, s, TakeOne(v5, s.sender.list, s.r2s[0])), s.r2s[0];
            && t.sender == Idle(AckAfter(v5, s.sender.list, p)) && t.inb == s.inb && t.r2s == s.r2s[1..]
            && t.delivered == s.delivered && t.s2r == s.s2r + Writes(AckOps(v5, s.sender.list, p))
  {
    var p := s.r2s[0];
    var s1 := Apply(v5, s, TakePacket);
    assert s1 == s.(r2s := s.r2s[1..], owed := s.owed - E.Answers(p), sender := Busy(s.sender.list, Ack(p), 0));
    hide Apply, Goes, AckOps, AckAfter, E.Answers;
    HandlerGoes(v5, s1, |AckOps(v5, s.sender.list, p)|);
    GoesOn(v5, s, TakePacket, Advances(|AckOps(v5, s.sender.list, p)|));
    assert AckOps(v5, s.sender.list, p)[0..] == AckOps(v5, s.sender.list, p);
  }

  /** What the receiver does with the only packet there is. */
  lemma ReadsOne(v5: bool, s: State)
    requires |s.s2r| == 1 && s.r2s == []
    ensures var t, p := Goes(v5, s, [ReceiverTakesPacket(true, true)]), s.s2r[0];
            && t.sender == s.sender && t.s2r == []
            && (p.Publish? && p.msg.qos == 1 ==> t.r2s == [Puback(p.id)] && t.delivered == s.delivered + [p.msg])
            && (p.Publish? && p.msg.qos == 2 ==> t.r2s == [Pubrec(p.id, 0)] && p.id in t.inb)
            && (p.Pubrel? && p.id in s.inb ==> t.r2s == [Pubcomp(p.id)])
  {
    GoesOn(v5, s, ReceiverTakesPacket(true, true), []);
    assert [ReceiverTakesPacket(true, true)] + [] == [ReceiverTakesPacket(true, true)];
    assert s.s2r == [s.s2r[0]];
  }

  lemma Dropped(v5: bool, list: seq<OutMsg>, i: nat, p: Packet)
    requires DistinctIds(list) && i < |list| && p.id == list[i].id
    requires (p.Puback? && list[i].msg.qos == 1) || (p.Pubcomp? && list[i].msg.qos == 2 && list[i].next == PUBCOMP)
    ensures AckAfter(v5, list, p) == Without(list, i) && Writes(AckOps(v5, list, p)) == []
  {
    hide RemoveSentOps;
    C.FindDistinct(list, i);
    RemoveShape(p.id);
    WritesNothing(RemoveSentOps(p.id));
  }

  lemma Released(v5: bool, list: seq<OutMsg>, i: nat, x: int)
    requires DistinctIds(list) && i < |list| && x == list[i].id && list[i].msg.qos == 2 && list[i].next == PUBREC
    ensures AckAfter(v5, list, Pubrec(x, 0)) == list[i := list[i].(next := PUBCOMP)]
    ensures Writes(AckOps(v5, list, Pubrec(x, 0))) == [Pubrel(x, false)]
  {
    hide PubrelOps, Writes;
    C.FindDistinct(list, i);
    PubrelWrites(v5, x);
  }

  // ----- the rest of an exchange -----

  /** The PUBREL is on its way to a receiver that has the record. */
  lemma FinishRelease(v5: bool, s: State, i: nat) returns (more: seq<Step>)
    requires s.sender.Idle? && DistinctIds(s.sender.list) && i < |s.sender.list|
    requires var e := s.sender.list[i];
             e.msg.qos == 2 && e.next == PUBCOMP && s.s2r == [Pubrel(e.id, false)] && s.r2s == [] && e.id in s.inb
    ensures Smooth(more) && Goes(v5, s, more).sender == Idle(Without(s.sender.list, i))
  {
    hide Goes, AckAfter, AckOps, Writes, TakeOne;
    var list, e := s.sender.list, s.sender.list[i];
    var read := [ReceiverTakesPacket(true, true)];
    ReadsOne(v5, s);
    var t := Goes(v5, s, read);
    TakesOne(v5, t);
    Dropped(v5, list, i, Pubcomp(e.id));
    more := read + TakeOne(v5, list, Pubcomp(e.id));
    SmoothBoth(read, TakeOne(v5, list, Pubcomp(e.id)));
    GoesBoth(v5, s, read, TakeOne(v5, list, Pubcomp(e.id)));
  }

  /** The QoS 2 PUBLISH is on its way. */
  lemma FinishPublish(v5: bool, s: State, i: nat) returns (more: seq<Step>)
    requires s.sender.Idle? && DistinctIds(s.sender.list) && i < |s.sender.list|
    requires var e := s.sender.list[i];
             e.msg.qos == 2 && e.next == PUBREC && s.s2r == [Publish(e.id, true, e.msg)] && s.r2s == []
    ensures Smooth(more) && Goes(v5, s, more).sender == Idle(Without(s.sender.list, i))
  {
    hide Goes, AckAfter, AckOps, Writes, TakeOne, Smooth;
    var list, e := s.sender.list, s.sender.list[i];
    var read := [ReceiverTakesPacket(true, true)];
    SmoothRead();
    ReadsOne(v5, s);
    var t := Goes(v5, s, read);
    TakesOne(v5, t);
    Released(v5, list, i, e.id);
    var take := TakeOne(v5, list, Pubrec(e.id, 0));
    var u := Goes(v5, t, take);
    StillDistinct(list, i);
    assert u.s2r == [Pubrel(e.id, false)];
    var rest := FinishRelease(v5, u, i);
    SameWithout(list, i);
    more := read + take + rest;
    SmoothBoth(read, take);
    SmoothBoth(read + take, rest);
    GoesBoth(v5, s, read, take);
    GoesBoth(v5, s, read + take, rest);
  }

  lemma SmoothRead()
    ensures Smooth([ReceiverTakesPacket(true, true)]) && Smooth([Reconnect])
  {
  }

  lemma StillDistinct(list: seq<OutMsg>, i: nat)
    requires DistinctIds(list) && i < |list|
    ensures DistinctIds(list[i := list[i].(next := PUBCOMP)])
  {
  }

  lemma SameWithout(list: seq<OutMsg>, i: nat)
    requires i < |list|
    ensures Without(list[i := list[i].(next := PUBCOMP)], i) == Without(list, i)
  {
  }

  lemma FinishQos1(v5: bool, s: State, i: nat) returns (more: seq<Step>)
    requires s.sender.Idle? && DistinctIds(s.sender.list) && i < |s.sender.list|
    requires var e := s.sender.list[i]; e.msg.qos == 1 && s.s2r == [Publish(e.id, true, e.msg)] && s.r2s == []
    ensures Smooth(more) && Goes(v5, s, more).sender == Idle(Without(s.sender.list, i))
    ensures s.sender.list[i].msg in Goes(v5, s, more).delivered
  {
    hide Goes, AckAfter, AckOps, Writes, TakeOne;
    var list, e := s.sender.list, s.sender.list[i];
    var read := [ReceiverTakesPacket(true, true)];
    ReadsOne(v5, s);
    var t := Goes(v5, s, read);
    TakesOne(v5, t);
    Dropped(v5, list, i, Puback(e.id));
    more := read + TakeOne(v5, list, Puback(e.id));
    SmoothBoth(read, TakeOne(v5, list, Puback(e.id)));
    GoesBoth(v5, s, read, TakeOne(v5, list, Puback(e.id)));
  }

  /** After a reconnect, an entry that is not stuck is sent again and finished. */
  lemma Finish(v5: bool, s: State, i: nat) returns (more: seq<Step>)
    requires s.sender.Idle? && DistinctIds(s.sender.list) && i < |s.sender.list|
    requires var e := s.sender.list[i]; (e.msg.qos == 1 || e.msg.qos == 2) && !Stuck(s, e)
    ensures Smooth(more) && Goes(v5, s, more).sender == Idle(Without(s.sender.list, i))
    ensures s.sender.list[i].msg.qos == 1 ==> s.sender.list[i].msg in Goes(v5, s, more).delivered
  {
    hide Goes, Smooth, RetryAll;
    var list, e := s.sender.list, s.sender.list[i];
    var t := Apply(v5, s, Reconnect);
    assert t == s.(s2r := [], r2s := [], owed := multiset{});
    hide Apply;
    GoesOn(v5, s, Reconnect, []);
    GoesNone(v5, t);
    assert [Reconnect] + [] == [Reconnect];
    SmoothRead();
    RetriesOne(v5, t, i);
    var again := RetryAll(v5, list, i);
    var u := Goes(v5, t, again);
    var rest;
    if e.msg.qos == 1 { rest := FinishQos1(v5, u, i); }
    else if e.next == PUBREC { rest := FinishPublish(v5, u, i); }
    else { rest := FinishRelease(v5, u, i); }
    more := [Reconnect] + again + rest;
    SmoothBoth([Reconnect], again);
    SmoothBoth([Reconnect] + again, rest);
    GoesBoth(v5, s, [Reconnect], again);
    GoesBoth(v5, s, [Reconnect] + again, rest);
  }

  lemma GoesNone(v5: bool, s: State)
    ensures Goes(v5, s, []) == s
  {
  }

  // ----- every run -----

  /** What the exchange says of an entry. */
  lemma EntryKnown(v5: bool, s: State, a: E.State, i: nat)
    requires Shows(v5, s, a) && E.Inv(v5, a) && s.sender.Idle? && i < |s.sender.list|
    ensures DistinctIds(s.sender.list)
    ensures var m := s.sender.list[i].msg;
            (m.qos == 1 || m.qos == 2) && m.tag < |s.published| && s.published[m.tag] == m
    ensures forall j | 0 <= j < |s.sender.list| && j != i :: s.sender.list[j].msg != s.sender.list[i].msg
  {
    hide Table, TableOf, WellFormedStore, Compatible, StoredOnce, E.IdInv, E.FinishedOk, E.Qos1Ok, E.LogOk, E.PacketsOk;
    C.TableMember(s.sender.list, s.sender.list[i]);
    forall j | 0 <= j < |s.sender.list| && j != i ensures s.sender.list[j].msg != s.sender.list[i].msg {
      C.TableMember(s.sender.list, s.sender.list[j]);
    }
  }

  lemma PublishedGrows(v5: bool, steps: seq<Step>, more: seq<Step>)
    ensures Run(v5, steps).published <= Run(v5, steps + more).published
    decreases |more|
  {
    hide Apply;
    if more == [] {
      assert steps + more == steps;
    } else {
      var n := |more| - 1;
      PublishedGrows(v5, steps, more[..n]);
      var all := steps + more;
      assert all[..|all| - 1] == steps + more[..n];
      StepGrows(v5, Run(v5, steps + more[..n]), more[n]);
    }
  }

  lemma StepGrows(v5: bool, s: State, step: Step)
    ensures s.published <= Apply(v5, s, step).published
  {
    hide Ops, Given, Enumerates, Restorable, PurgeOps, Restored, E.React, E.Answers, After;
  }

  lemma LeftOut(list: seq<OutMsg>, i: nat)
    requires i < |list| && forall j | 0 <= j < |list| && j != i :: list[j].msg != list[i].msg
    ensures forall e | e in Without(list, i) :: e.msg != list[i].msg
  {
    var l := Without(list, i);
    assert forall j | 0 <= j < |l| :: l[j] == list[if j < i then j else j + 1];
  }

  /**
   * From every point of every run, crashes and losses included, each message the sender has is let go in some smooth
   * continuation unless it is stuck, and has then been delivered, a QoS 2 message exactly once.
   */
  lemma CanFinish(v5: bool, steps: seq<Step>, i: nat) returns (more: seq<Step>)
    requires Run(v5, steps).sender.Idle? && i < |Run(v5, steps).sender.list|
    requires !Stuck(Run(v5, steps), Run(v5, steps).sender.list[i])
    ensures Smooth(more)
    ensures var m, t := Run(v5, steps).sender.list[i].msg, Run(v5, steps + more);
            && LetGo(t, m) && m in t.delivered
            && (m.qos == 2 ==> multiset(t.delivered)[m] == 1)
  {
    hide Shows, Apply, E.Inv, Goes, Run, Smooth;
    var s := Run(v5, steps);
    var m := s.sender.list[i].msg;
    var exchange := Refines(v5, steps);
    X.RunInv(v5, exchange);
    EntryKnown(v5, s, E.Run(v5, exchange), i);
    more := Finish(v5, s, i);
    RunGoes(v5, steps, more);
    LeftOut(s.sender.list, i);
    PublishedGrows(v5, steps, more);
    if m.qos == 2 { Qos2ExactlyOnce(v5, steps + more, m.tag); }
  }

  /** From every point between handlers, a new message can be sent, delivered and let go, for both delivery rules. */
  lemma CanSend(v5: bool, steps: seq<Step>, x: int, m: Message) returns (more: seq<Step>)
    requires var s := Run(v5, steps);
             s.sender.Idle? && Given(s.sender.list, s.last, x) && m.tag == |s.published| && (m.qos == 1 || m.qos == 2)
    ensures Smooth(more)
    ensures var t := Run(v5, steps + [Submit(x, m)] + more);
            && LetGo(t, m) && m in t.delivered
            && (m.qos == 2 ==> multiset(t.delivered)[m] == 1)
  {
    hide Shows, Apply, E.Inv, Goes, Run, Smooth, Given;
    var s := Run(v5, steps);
    var exchange := Refines(v5, steps);
    LastInRange(v5, s, E.Run(v5, exchange));
    GivenIsNew(s.sender.list, s.last, x);
    SubmitGoes(v5, s, x, m);
    RunGoes(v5, steps, SubmitSteps(x, m));
    var rest := CanFinish(v5, steps + SubmitSteps(x, m), |s.sender.list|);
    SmoothAdvances(2);
    SmoothBoth(Advances(2), rest);
    more := Advances(2) + rest;
    assert steps + SubmitSteps(x, m) + rest == steps + [Submit(x, m)] + more;
  }

  lemma LastInRange(v5: bool, s: State, a: E.State)
    requires Shows(v5, s, a) && s.sender.Idle?
    ensures 0 <= s.last <= MAX_MSG_ID
  {
  }

  // ----- the exception -----

  /** In the exchange: the sender waits for a PUBCOMP for x that is not coming. */
  ghost predicate StuckAt(a: E.State, x: int, m: Message) {
    && x in a.out && a.out[x] == E.Entry(m, PUBCOMP) && m.qos == 2 && x !in a.inb
    && E.NoPub(a.s2r, 2, x) && E.NoComp(a.r2s, x)
  }

  lemma StuckReceiver(v5: bool, a: E.State, free: bool, sent: bool, x: int, m: Message)
    requires StuckAt(a, x, m) && E.PacketsOk(a)
    ensures StuckAt(E.Apply(v5, a, E.ReceiverReceives(free, sent)), x, m)
  {
    hide E.NoPub, E.NoComp;
    if a.s2r != [] {
      var r := E.React(v5, a.inb, a.s2r[0], free);
      X.Pop(a.s2r, x);
      if r.reply != [] {
        assert r.reply == [r.reply[0]];
        X.Push(a.r2s, r.reply[0], x);
      }
      assert a.r2s + [] == a.r2s;
    }
  }

  lemma StuckSend(v5: bool, a: E.State, step: E.Step, x: int, m: Message)
    requires StuckAt(a, x, m) && (step.SendQos0? || step.SendPublish? || step.SendPubrel?)
    ensures StuckAt(E.Apply(v5, a, step), x, m)
  {
    hide E.NoPub, E.NoComp;
    match step
    case SendQos0(q, _) => X.Push(a.s2r, Publish(0, false, q), x);
    case SendPublish(y, dup, _) => if y in a.out { X.Push(a.s2r, Publish(y, dup, a.out[y].msg), x); }
    case SendPubrel(y, _) => X.Push(a.s2r, Pubrel(y, false), x);
  }

  lemma StuckSender(v5: bool, a: E.State, x: int, m: Message)
    requires StuckAt(a, x, m)
    ensures StuckAt(E.Apply(v5, a, E.SenderReceives), x, m)
  {
    hide E.NoPub, E.NoComp;
    if a.r2s != [] { X.Pop(a.r2s, x); }
  }

  lemma KeepsStuck(v5: bool, a: E.State, step: E.Step, x: int, m: Message)
    requires StuckAt(a, x, m) && E.PacketsOk(a)
    ensures StuckAt(E.Apply(v5, a, step), x, m)
  {
    match step
    case ReceiverReceives(free, sent) => StuckReceiver(v5, a, free, sent, x, m);
    case SenderReceives => StuckSender(v5, a, x, m);
    case Accept(_, _) =>
    case TakeId(_) =>
    case Reconnect =>
    case Restart(_) =>
    case _ => StuckSend(v5, a, step, x, m);
  }

  lemma {:induction false} RunStuck(v5: bool, exchange: seq<E.Step>, more: seq<E.Step>, x: int, m: Message)
    requires StuckAt(E.Run(v5, exchange), x, m)
    ensures StuckAt(E.Run(v5, exchange + more), x, m)
    decreases |more|
  {
    hide StuckAt, E.Apply, E.Inv;
    if more == [] {
      assert exchange + more == exchange;
    } else {
      var n := |more| - 1;
      RunStuck(v5, exchange, more[..n], x, m);
      assert exchange + more == exchange + more[..n] + [more[n]];
      X.RunOne(v5, exchange + more[..n], more[n]);
      X.RunInv(v5, exchange + more[..n]);
      InvPackets(v5, E.Run(v5, exchange + more[..n]));
      KeepsStuck(v5, E.Run(v5, exchange + more[..n]), more[n], x, m);
    }
  }

  lemma InvPackets(v5: bool, a: E.State)
    requires E.Inv(v5, a)
    ensures E.PacketsOk(a)
  {
  }

  lemma ShownStuck(v5: bool, s: State, a: E.State, i: nat)
    requires Shows(v5, s, a) && s.sender.Idle? && i < |s.sender.list| && s.s2r == [] && s.r2s == []
    requires Stuck(s, s.sender.list[i])
    ensures StuckAt(a, s.sender.list[i].id, s.sender.list[i].msg)
  {
    hide Table, TableOf, WellFormedStore, Compatible, StoredOnce;
    C.TableMember(s.sender.list, s.sender.list[i]);
  }

  lemma StuckListed(v5: bool, s: State, a: E.State, x: int, m: Message)
    requires Shows(v5, s, a) && StuckAt(a, x, m)
    ensures !LetGo(s, m)
  {
    hide Table, TableOf, WellFormedStore, Compatible, StoredOnce, DistinctIds;
    if s.sender.Idle? { var e := C.TableWitness(s.sender.list, x); }
  }

  /**
   * After a reconnect, a message can still be let go if and only if it is not stuck: a receiver without a record of the
   * id does not answer the repeated PUBREL, whatever happens. That is so once the PUBCOMP is lost.
   */
  lemma CanFinishIff(v5: bool, steps: seq<Step>, i: nat)
    requires Run(v5, steps).sender.Idle? && i < |Run(v5, steps).sender.list|
    requires Run(v5, steps).s2r == [] && Run(v5, steps).r2s == []
    ensures var s := Run(v5, steps);
            (exists more: seq<Step> :: LetGo(Run(v5, steps + more), s.sender.list[i].msg)) <==>
            !Stuck(s, s.sender.list[i])
  {
    hide Shows, Run, E.Inv, LetGo, Stuck, StuckAt, Smooth, E.Run;
    var s := Run(v5, steps);
    var e := s.sender.list[i];
    if Stuck(s, e) {
      var exchange := Refines(v5, steps);
      ShownStuck(v5, s, E.Run(v5, exchange), i);
      forall more: seq<Step> ensures !LetGo(Run(v5, steps + more), e.msg) {
        var all := steps + more;
        assert all[..|steps|] == steps;
        var longer := RefinesOn(v5, all, |steps|, exchange);
        assert longer == exchange + longer[|exchange|..];
        RunStuck(v5, exchange, longer[|exchange|..], e.id, e.msg);
        StuckListed(v5, Run(v5, all), E.Run(v5, longer), e.id, e.msg);
      }
    } else {
      var more := CanFinish(v5, steps, i);
    }
  }
}
