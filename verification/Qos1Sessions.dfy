// QoS 1 at the level of store operations and writes: which messages are certain to be delivered, and a run that
// loses one.

module Qos1Sessions {
  import opened Packets
  import opened Persistence
  import opened Handlers
  import opened Session
  import opened SessionProofs
  import C = CrashProofs
  import E = Exchange
  import X = ExchangeProofs
  import Q = Qos1Proofs
  import MsgIds

  /** Between handlers, the sender no longer has the message. */
  ghost predicate LetGo(s: State, m: Message) {
    s.sender.Idle? && forall e | e in s.sender.list :: e.msg != m
  }

  lemma LetGoFinished(v5: bool, s: State, a: E.State, m: Message)
    requires Shows(v5, s, a) && LetGo(s, m)
    ensures !E.Unfinished(a, m)
  {
    hide Table, TableOf, WellFormedStore, Compatible, StoredOnce, DistinctIds;
    forall x | x in a.out ensures a.out[x].msg != m { var e := C.TableWitness(s.sender.list, x); }
  }

  /** A QoS 1 message for whose id no PUBACK was owed is delivered by the time the sender lets it go. */
  lemma Qos1AtLeastOnce(v5: bool, steps: seq<Step>, k: nat)
    ensures var s := Run(v5, steps);
            k in s.clear ==>
              && k < |s.published| && s.published[k].qos == 1
              && (LetGo(s, s.published[k]) ==> s.published[k] in s.delivered)
  {
    var exchange := Refines(v5, steps);
    var s, a := Run(v5, steps), E.Run(v5, exchange);
    if k in s.clear {
      Q.Qos1Deliveries(v5, exchange, k);
      if LetGo(s, s.published[k]) { LetGoFinished(v5, s, a, s.published[k]); }
    }
  }

  /** At no point of the run are two PUBACKs owed for one id. */
  ghost predicate AsksOnce(v5: bool, steps: seq<Step>) {
    forall n, x | 0 <= n <= |steps| :: Run(v5, steps[..n]).owed[x] <= 1
  }

  lemma FollowOwed(v5: bool, s: State, a: E.State)
    requires Shows(v5, s, a)
    ensures a.owed == s.owed && a.published == s.published && a.delivered == s.delivered
  {
  }

  lemma InitSparing(v5: bool)
    ensures Q.Sparing(E.Run(v5, []))
  {
    assert E.Run(v5, []) == E.Init;
  }

  lemma SparingStep(v5: bool, s: State, a: E.State, m: Move)
    requires Q.Sparing(a) && Q.OwedOk(a) && Shows(v5, s, Follow(v5, a, m)) && forall x :: s.owed[x] <= 1
    ensures Q.Sparing(Follow(v5, a, m))
  {
    hide Shows, E.Apply, Q.Sparing, Q.OwedOk;
    FollowOwed(v5, s, Follow(v5, a, m));
    if m.Move? { Q.KeepsSparing(v5, a, m.step); }
  }

  lemma {:induction false} RefinesSparing(v5: bool, steps: seq<Step>) returns (exchange: seq<E.Step>)
    requires AsksOnce(v5, steps)
    ensures Shows(v5, Run(v5, steps), E.Run(v5, exchange)) && Q.Sparing(E.Run(v5, exchange))
  {
    hide Shows, Apply, E.Apply, E.Run, E.HistoryOk, E.IdInv, E.FinishedOk, E.Qos1Ok, E.LogOk, Q.OwedOk,
        Q.Sparing, Follow;
    if steps == [] {
      exchange := [];
      InitShows(v5);
      InitSparing(v5);
    } else {
      var before := steps[..|steps| - 1];
      assert AsksOnce(v5, before) by {
        assert forall n | 0 <= n <= |before| :: before[..n] == steps[..n];
      }
      var prior := RefinesSparing(v5, before);
      var a := E.Run(v5, prior);
      X.RunInv(v5, prior);
      Q.RunOwed(v5, prior);
      var m := FollowStep(v5, Run(v5, before), steps[|steps| - 1], a);
      assert steps[..|steps|] == steps;
      SparingStep(v5, Run(v5, steps), a, m);
      exchange := RunOneMore(v5, prior, m);
    }
  }

  /** A sender that never writes a QoS 1 PUBLISH while a PUBACK is owed for its id loses no QoS 1 message. */
  lemma Qos1AsksOnceKeeps(v5: bool, steps: seq<Step>, k: nat)
    requires AsksOnce(v5, steps)
    ensures var s := Run(v5, steps);
            k < |s.published| && s.published[k].qos == 1 && LetGo(s, s.published[k]) ==> s.published[k] in s.delivered
  {
    var exchange := RefinesSparing(v5, steps);
    var s, a := Run(v5, steps), E.Run(v5, exchange);
    FollowOwed(v5, s, a);
    Q.Qos1Deliveries(v5, exchange, k);
    if k < |s.published| && LetGo(s, s.published[k]) { LetGoFinished(v5, s, a, s.published[k]); }
  }

  // ----- a sender that repeats nothing it is owed a PUBACK for -----

  /** A QoS 1 message is repeated only when no PUBACK is owed for its id, as after a reconnect. */
  predicate Patient(s: State, step: Step) {
    step.Retry? && s.sender.Idle? && step.i < |s.sender.list| && s.sender.list[step.i].msg.qos == 1 ==>
      s.owed[s.sender.list[step.i].id] == 0
  }

  /** Nothing is owed for a QoS 1 PUBLISH that is still to be written. */
  ghost predicate Unasked(v5: bool, s: State) {
    s.sender.Busy? && s.sender.done < |Ops(v5, s.sender.list, s.sender.handler)| ==>
      match s.sender.handler
      case Start(x, m) => m.qos == 1 ==> s.owed[x] == 0
      case Resend(e) => e.msg.qos == 1 ==> s.owed[e.id] == 0
      case _ => true
  }

  lemma SubmitUnasked(v5: bool, s: State, a: E.State, x: int, m: Message)
    requires Shows(v5, s, a) && Q.Sparing(a) && s.sender.Idle?
    ensures Given(s.sender.list, s.last, x) ==> s.owed[x] == 0
  {
    hide Table, TableOf, WellFormedStore, Compatible, StoredOnce, DistinctIds;
    if Given(s.sender.list, s.last, x) {
      GivenIsNew(s.sender.list, s.last, x);
      NewIdTable(s.sender.list, x);
    }
  }

  lemma OwedShrinks(v5: bool, s: State, step: Step)
    requires !step.Advance?
    ensures Apply(v5, s, step).owed <= s.owed
  {
    hide Ops, Given, Enumerates, Restorable, PurgeOps, Restored, E.React, E.Answers;
  }

  /** What a step other than Advance leaves running: what ran before, or a handler that begins. */
  lemma Begins(v5: bool, s: State, step: Step)
    requires !step.Advance?
    ensures var t := Apply(v5, s, step);
            || t.sender == s.sender
            || (t.sender.Busy? && (t.sender.handler.Ack? || t.sender.handler.Restart?))
            || t.sender.Failed?
            || (step.Submit? && s.sender.Idle? && Given(s.sender.list, s.last, step.id) && t.owed == s.owed
                && t.sender == Busy(s.sender.list, Start(step.id, step.msg), 0))
            || (step.Retry? && s.sender.Idle? && step.i < |s.sender.list| && t.owed == s.owed
                && t.sender == Busy(s.sender.list, Resend(s.sender.list[step.i]), 0))
  {
    hide Ops, Given, Enumerates, Restorable, PurgeOps, Restored, E.React, E.Answers;
  }

  /** Beginning a handler, or doing anything else between handlers. */
  lemma IdleUnasked(v5: bool, s: State, a: E.State, step: Step)
    requires Shows(v5, s, a) && Q.Sparing(a) && Patient(s, step) && !step.Advance?
    requires Unasked(v5, s)
    ensures var t := Apply(v5, s, step); Unasked(v5, t) && forall x :: t.owed[x] <= 1
  {
    hide Apply, Ops, Given, Shows;
    FollowOwed(v5, s, a);
    if step.Submit? && s.sender.Idle? { SubmitUnasked(v5, s, a, step.id, step.msg); }
    OwedShrinks(v5, s, step);
    Begins(v5, s, step);
    var t := Apply(v5, s, step);
    forall x ensures t.owed[x] <= 1 { assert t.owed[x] <= s.owed[x]; }
    if t.sender == s.sender { StillUnasked(v5, s, t); }
  }

  lemma StillUnasked(v5: bool, s: State, t: State)
    requires Unasked(v5, s) && t.owed <= s.owed && t.sender.Busy? == s.sender.Busy?
    requires t.sender.Busy? ==>
               t.sender.list == s.sender.list && t.sender.handler == s.sender.handler && t.sender.done >= s.sender.done
    ensures Unasked(v5, t)
  {
    hide Ops;
    assert forall x :: t.owed[x] <= s.owed[x];
  }

  /** A QoS 1 PUBLISH is the last thing its handler does. */
  lemma AskIsLast(v5: bool, s: State, a: E.State)
    requires Shows(v5, s, a) && s.sender.Busy? && s.sender.done < |Ops(v5, s.sender.list, s.sender.handler)|
    ensures var Busy(list, h, n) := s.sender; var op := Ops(v5, list, h)[n];
            op.Send? && E.Asks(op.packet) != multiset{} ==>
              && n + 1 == |Ops(v5, list, h)|
              && ((h.Start? && h.msg.qos == 1 && E.Asks(op.packet) == multiset{h.id})
                  || (h.Resend? && h.entry.msg.qos == 1 && E.Asks(op.packet) == multiset{h.entry.id}))
  {
    hide Shows, Judge, Find, Fits, PublishOps, PubrelOps, RemoveSentOps;
    match s.sender.handler
    case Start(x, m) =>
      StartId(v5, s, a);
      PublishShape(v5, x, false, m);
    case Resend(e) =>
      ResendEntry(v5, s, a);
      PublishShape(v5, e.id, true, e.msg);
      PubrelShape(v5, e.id);
    case Ack(p) =>
      PubrelShape(v5, p.id);
      RemoveShape(p.id);
    case Restart(purge, _) =>
      PurgeRemoves(v5, s, a);
      assert purge[s.sender.done] in purge;
  }

  lemma StartId(v5: bool, s: State, a: E.State)
    requires Shows(v5, s, a) && s.sender.Busy? && s.sender.handler.Start?
    ensures MsgId(s.sender.handler.id)
  {
  }

  lemma PurgeRemoves(v5: bool, s: State, a: E.State)
    requires Shows(v5, s, a) && s.sender.Busy? && s.sender.handler.Restart?
    ensures forall op | op in s.sender.handler.purge :: op.Remove?
  {
  }

  /** What Advance adds to what is owed. */
  lemma AdvanceOwed(v5: bool, s: State, sent: bool)
    ensures var t := Apply(v5, s, Advance(sent));
            if s.sender.Busy? && s.sender.done < |Ops(v5, s.sender.list, s.sender.handler)| then
              var op := Ops(v5, s.sender.list, s.sender.handler)[s.sender.done];
              && t.sender == s.sender.(done := s.sender.done + 1)
              && t.owed == s.owed + if op.Send? then E.Asks(op.packet) else multiset{}
            else t.owed == s.owed && !t.sender.Busy?
  {
    hide Ops, E.Asks, ApplyOp, After, TagOf;
  }

  lemma AdvanceUnasked(v5: bool, s: State, a: E.State, sent: bool)
    requires Shows(v5, s, a) && Q.Sparing(a) && Unasked(v5, s)
    ensures var t := Apply(v5, s, Advance(sent)); Unasked(v5, t) && forall x :: t.owed[x] <= 1
  {
    FollowOwed(v5, s, a);
    AdvanceOwed(v5, s, sent);
    if s.sender.Busy? && s.sender.done < |Ops(v5, s.sender.list, s.sender.handler)| {
      AskIsLast(v5, s, a);
      hide Ops, E.Asks, Shows, Apply;
      var t, op := Apply(v5, s, Advance(sent)), Ops(v5, s.sender.list, s.sender.handler)[s.sender.done];
      if !op.Send? || E.Asks(op.packet) == multiset{} { StillUnasked(v5, s, t); }
    }
  }

  lemma PatientStep(v5: bool, s: State, a: E.State, step: Step)
    requires Shows(v5, s, a) && Q.Sparing(a) && Patient(s, step) && Unasked(v5, s)
    ensures var t := Apply(v5, s, step); Unasked(v5, t) && forall x :: t.owed[x] <= 1
  {
    hide Shows, Apply, Q.Sparing, Unasked;
    if step.Advance? { AdvanceUnasked(v5, s, a, step.sent); } else { IdleUnasked(v5, s, a, step); }
  }

  ghost predicate PatientRun(v5: bool, steps: seq<Step>) {
    forall n | 0 <= n < |steps| :: Patient(Run(v5, steps[..n]), steps[n])
  }

  lemma {:induction false} PatientAsksOnce(v5: bool, steps: seq<Step>)
    requires PatientRun(v5, steps)
    ensures AsksOnce(v5, steps) && Unasked(v5, Run(v5, steps))
  {
    if steps == [] {
      assert Run(v5, steps[..0]) == Init;
    } else {
      hide Shows, Apply, Q.Sparing, Unasked, Patient;
      var n := |steps| - 1;
      var before := steps[..n];
      assert forall k | 0 <= k <= n :: before[..k] == steps[..k];
      PatientAsksOnce(v5, before);
      var exchange := RefinesSparing(v5, before);
      PatientStep(v5, Run(v5, before), E.Run(v5, exchange), steps[n]);
      forall k, x | 0 <= k <= |steps| ensures Run(v5, steps[..k]).owed[x] <= 1 {
        if k <= n { assert Run(v5, before[..k]).owed[x] <= 1; } else { assert steps[..k] == steps; }
      }
    }
  }

  /**
   * A sender that repeats a QoS 1 PUBLISH only when no PUBACK is owed for its id, as one does that repeats only on
   * reconnect, loses no QoS 1 message: all are delivered by the time it lets them go, across any crashes.
   */
  lemma Qos1PatientKeeps(v5: bool, steps: seq<Step>, k: nat)
    requires PatientRun(v5, steps)
    ensures var s := Run(v5, steps);
            k < |s.published| && s.published[k].qos == 1 && LetGo(s, s.published[k]) ==> s.published[k] in s.delivered
  {
    PatientAsksOnce(v5, steps);
    Qos1AsksOnceKeeps(v5, steps, k);
  }

  // ----- whole handlers -----

  ghost function Goes(v5: bool, s: State, steps: seq<Step>): State
    decreases |steps|
  {
    if steps == [] then s else Goes(v5, Apply(v5, s, steps[0]), steps[1..])
  }

  lemma {:induction false} RunGoes(v5: bool, steps: seq<Step>, more: seq<Step>)
    ensures Run(v5, steps + more) == Goes(v5, Run(v5, steps), more)
    decreases |more|
  {
    hide Apply;
    if more == [] {
      assert steps + more == steps;
    } else {
      assert (steps + [more[0]])[..|steps|] == steps;
      RunGoes(v5, steps + [more[0]], more[1..]);
      assert steps + more == steps + [more[0]] + more[1..];
    }
  }

  lemma GoesOn(v5: bool, s: State, step: Step, more: seq<Step>)
    ensures Goes(v5, s, [step] + more) == Goes(v5, Apply(v5, s, step), more)
  {
    assert ([step] + more)[1..] == more;
  }

  /** n operations, and the end of the handler. */
  function Advances(n: nat): seq<Step> {
    if n == 0 then [Advance(true)] else [Advance(true)] + Advances(n - 1)
  }

  /** Everything but the sender, the store and the history of publications. */
  ghost predicate Same(s: State, t: State, written: seq<Packet>) {
    && t.last == s.last && t.inb == s.inb && t.r2s == s.r2s && t.delivered == s.delivered
    && t.s2r == s.s2r + written && t.owed == s.owed + Q.Asked(written)
  }

  lemma {:induction false} AskedBoth(a: seq<Packet>, b: seq<Packet>)
    ensures Q.Asked(a + b) == Q.Asked(a) + Q.Asked(b)
  {
    if a == [] {
      assert a + b == b;
    } else {
      assert (a + b)[1..] == a[1..] + b;
      AskedBoth(a[1..], b);
    }
  }

  lemma SameBoth(s: State, t: State, u: State, a: seq<Packet>, b: seq<Packet>)
    requires Same(s, t, a) && Same(t, u, b)
    ensures Same(s, u, a + b)
  {
    AskedBoth(a, b);
    hide Q.Asked;
    assert (s.s2r + a) + b == s.s2r + (a + b);
  }

  lemma OneOp(v5: bool, s: State)
    requires s.sender.Busy? && s.sender.done < |Ops(v5, s.sender.list, s.sender.handler)|
    ensures var t, op := Apply(v5, s, Advance(true)), Ops(v5, s.sender.list, s.sender.handler)[s.sender.done];
            && t.sender == s.sender.(done := s.sender.done + 1)
            && Same(s, t, if op.Send? then [op.packet] else [])
            && t.published == if op.Put? && s.sender.handler.Start? then s.published + [s.sender.handler.msg]
                 else s.published
  {
    hide Ops, Perform, Same;
    var Busy(list, h, n) := s.sender;
    var op := Ops(v5, list, h)[n];
    var t := Apply(v5, s, Advance(true));
    PerformIs(s, list, h, op);
    assert t == Perform(s, list, h, op, true).(sender := Busy(list, h, n + 1));
    SameTo(s, Perform(s, list, h, op, true), t, if op.Send? then [op.packet] else []);
  }

  lemma PerformIs(s: State, list: seq<OutMsg>, h: Handler, op: Op)
    ensures var t := Perform(s, list, h, op, true);
            && Same(s, t, if op.Send? then [op.packet] else [])
            && t.published == if op.Put? && h.Start? then s.published + [h.msg] else s.published
  {
    hide ApplyOp, TagOf;
    AskedFew(if op.Send? then op.packet else Puback(0));
    hide Q.Asked, E.Asks;
    assert s.s2r + [] == s.s2r;
  }

  lemma SameTo(s: State, t: State, r: State, written: seq<Packet>)
    requires Same(s, t, written) && r.last == t.last && r.inb == t.inb && r.r2s == t.r2s && r.delivered == t.delivered
    requires r.s2r == t.s2r && r.owed == t.owed
    ensures Same(s, r, written)
  {
  }

  lemma AskedFew(p: Packet)
    ensures Q.Asked([p]) == E.Asks(p) && Q.Asked([]) == multiset{}
  {
    assert [p][1..] == [];
    assert Q.Asked([p]) == E.Asks(p) + Q.Asked([]);
  }

  lemma LastAdvance(v5: bool, s: State)
    requires s.sender.Busy? && s.sender.done == |Ops(v5, s.sender.list, s.sender.handler)|
    ensures var t := Apply(v5, s, Advance(true));
            t.sender == Idle(After(v5, s.sender.list, s.sender.handler)) && Same(s, t, []) && t.published == s.published
  {
    hide Ops, After;
    assert s.s2r + [] == s.s2r;
  }

  /** The rest of a handler: what it writes, and where it ends. */
  lemma {:induction false} HandlerGoes(v5: bool, s: State, n: nat)
    requires s.sender.Busy? && s.sender.done + n == |Ops(v5, s.sender.list, s.sender.handler)|
    requires s.sender.handler.Start? ==> forall op | op in Ops(v5, s.sender.list, s.sender.handler)[s.sender.done..] ::
              !op.Put?
    ensures var t := Goes(v5, s, Advances(n));
            && t.sender == Idle(After(v5, s.sender.list, s.sender.handler))
            && Same(s, t, Writes(Ops(v5, s.sender.list, s.sender.handler)[s.sender.done..]))
            && t.published == s.published
    decreases n
  {
    hide Ops, After, Apply, Same;
    var ops := Ops(v5, s.sender.list, s.sender.handler);
    if n == 0 {
      assert ops[s.sender.done..] == [];
      GoesOn(v5, s, Advance(true), []);
      assert [Advance(true)] + [] == Advances(0);
      LastAdvance(v5, s);
    } else {
      var t := Apply(v5, s, Advance(true));
      assert ops[s.sender.done..] == [ops[s.sender.done]] + ops[s.sender.done + 1..];
      OneOp(v5, s);
      HandlerGoes(v5, t, n - 1);
      GoesOn(v5, s, Advance(true), Advances(n - 1));
      var first := if ops[s.sender.done].Send? then [ops[s.sender.done].packet] else [];
      SameBoth(s, t, Goes(v5, t, Advances(n - 1)), first, Writes(ops[s.sender.done + 1..]));
    }
  }

  lemma WritesPublish(v5: bool, x: int, dup: bool, m: Message)
    requires MsgId(x)
    ensures var ops := PublishOps(v5, x, dup, m);
            && |ops| == 2 && ops[0].Put? && ops[1] == Send(Publish(x, dup, m))
            && Writes(ops[0..]) == Writes(ops[1..]) == [Publish(x, dup, m)]
  {
    PublishShape(v5, x, dup, m);
    var ops := PublishOps(v5, x, dup, m);
    assert ops[0..] == ops && ops[1..][1..] == [];
  }

  function SubmitSteps(x: int, m: Message): seq<Step> { [Submit(x, m)] + Advances(2) }

  /** A new message is listed, stored and written. */
  lemma SubmitGoes(v5: bool, s: State, x: int, m: Message)
    requires s.sender.Idle? && Given(s.sender.list, s.last, x) && MsgId(x) && m.tag == |s.published|
              && (m.qos == 1 || m.qos == 2)
    ensures var t := Goes(v5, s, SubmitSteps(x, m));
            && t.sender == Idle(s.sender.list + [OutMsg(x, m, PUBREC)])
            && Same(s.(last := x), t, [Publish(x, false, m)])
            && t.published == s.published + [m]
  {
    hide Given, PublishOps, Same, Goes;
    var s1 := Apply(v5, s, Submit(x, m));
    WritesPublish(v5, x, false, m);
    OneOp(v5, s1);
    var s2 := Apply(v5, s1, Advance(true));
    hide Apply;
    HandlerGoes(v5, s2, 1);
    GoesOn(v5, s, Submit(x, m), Advances(2));
    GoesOn(v5, s1, Advance(true), Advances(1));
    SameBoth(s1, s2, Goes(v5, s2, Advances(1)), [], [Publish(x, false, m)]);
    SameFrom(s1, s.(last := x), Goes(v5, s2, Advances(1)), [] + [Publish(x, false, m)]);
    assert [] + [Publish(x, false, m)] == [Publish(x, false, m)];
  }

  lemma SameFrom(s: State, r: State, t: State, written: seq<Packet>)
    requires Same(s, t, written)
    requires r.last == s.last && r.inb == s.inb && r.r2s == s.r2s && r.delivered == s.delivered && r.s2r == s.s2r
              && r.owed == s.owed
    ensures Same(r, t, written)
  {
  }

  function RetrySteps(i: nat): seq<Step> { [Retry(i)] + Advances(2) }

  /** A QoS 1 message is stored and written again. */
  lemma RetryGoes(v5: bool, s: State, i: nat)
    requires s.sender.Idle? && i < |s.sender.list| && s.sender.list[i].msg.qos == 1 && MsgId(s.sender.list[i].id)
    ensures var t, e := Goes(v5, s, RetrySteps(i)), s.sender.list[i];
            && t.sender == s.sender
            && Same(s, t, [Publish(e.id, true, e.msg)])
            && t.published == s.published
  {
    hide PublishOps, Same, Goes;
    var e := s.sender.list[i];
    var s1 := Apply(v5, s, Retry(i));
    hide Apply;
    WritesPublish(v5, e.id, true, e.msg);
    HandlerGoes(v5, s1, 2);
    GoesOn(v5, s, Retry(i), Advances(2));
    SameFrom(s1, s, Goes(v5, s1, Advances(2)), [Publish(e.id, true, e.msg)]);
  }

  function TakeSteps(): seq<Step> { [TakePacket] + Advances(4) }

  /** A PUBACK takes its message away. */
  lemma TakeGoes(v5: bool, s: State, x: int)
    requires s.sender.Idle? && s.r2s != [] && s.r2s[0] == Puback(x) && MsgId(x) && x < 10000
    requires Find(s.sender.list, x) < |s.sender.list| && s.sender.list[Find(s.sender.list, x)].msg.qos == 1
    ensures var t := Goes(v5, s, TakeSteps());
            && t.sender == Idle(Without(s.sender.list, Find(s.sender.list, x)))
            && Same(s.(r2s := s.r2s[1..], owed := s.owed - multiset{x}), t, [])
            && t.published == s.published
  {
    hide Same, Goes, Without, Fits;
    var s1 := Apply(v5, s, TakePacket);
    assert s1 == s.(r2s := s.r2s[1..], owed := s.owed - multiset{x}, sender := Busy(s.sender.list, Ack(Puback(x)), 0));
    hide Apply;
    C.RemoveSentAll(x);
    var ops := RemoveSentOps(x);
    assert Ops(v5, s.sender.list, Ack(Puback(x))) == ops && ops[0..] == ops;
    WritesNothing(ops);
    HandlerGoes(v5, s1, 4);
    GoesOn(v5, s, TakePacket, Advances(4));
    SameFrom(s1, s.(r2s := s.r2s[1..], owed := s.owed - multiset{x}), Goes(v5, s1, Advances(4)), []);
  }

  // ----- a run that loses a message -----

  function Nth(content: Content, k: nat): Message { Message(1, false, content, k) }

  /**
   * Message 0 had id 1, was written twice and is finished; its second PUBACK is still to be read, while
   * ids 2 to `last` are taken by the messages published since.
   */
  ghost predicate Lapping(s: State, content: Content, last: int) {
    && s.last == last && s.sender.Idle?
    && (forall x :: x in MsgIds.IdSet(s.sender.list) <==> 2 <= x <= last)
    && |s.published| == last
    && (forall e | e in s.sender.list :: e.msg.tag < last)
    && s.r2s == [Puback(1)] && (forall m | m in s.delivered :: m.tag == 0)
  }

  lemma NextGiven(list: seq<OutMsg>, last: int)
    requires 1 <= last <= MAX_MSG_ID && forall x :: x in MsgIds.IdSet(list) <==> 2 <= x <= last
    ensures Given(list, last, MsgIds.Next(last))
  {
    var x := MsgIds.Next(last);
    assert MsgIds.Nth(last, 0) == last;
    assert x == MsgIds.Nth(last, 1);
  }

  lemma IdSetAppend(list: seq<OutMsg>, e: OutMsg)
    ensures MsgIds.IdSet(list + [e]) == MsgIds.IdSet(list) + {e.id}
  {
    var l := list + [e];
    assert l[|list|] == e;
    forall x | x in MsgIds.IdSet(list) ensures x in MsgIds.IdSet(l) {
      var i :| 0 <= i < |list| && list[i].id == x;
      assert l[i].id == x;
    }
  }

  /** The first id is written twice, and one of its two PUBACKs is read. */
  function FirstSteps(content: Content): seq<Step> {
    SubmitSteps(1, Nth(content, 0)) + RetrySteps(0)
    + [ReceiverTakesPacket(true, true), ReceiverTakesPacket(true, true)] + TakeSteps()
  }

  lemma GoesBoth(v5: bool, s: State, a: seq<Step>, b: seq<Step>)
    ensures Goes(v5, s, a + b) == Goes(v5, Goes(v5, s, a), b)
    decreases |a|
  {
    hide Apply;
    if a == [] {
      assert a + b == b;
    } else {
      assert (a + b)[1..] == a[1..] + b;
      GoesBoth(v5, Apply(v5, s, a[0]), a[1..], b);
    }
  }

  lemma OneRead(v5: bool, s: State, m: Message)
    requires s.s2r != [] && s.s2r[0].Publish? && s.s2r[0].id == 1 && s.s2r[0].msg == m && m.qos == 1
    ensures var t := Apply(v5, s, ReceiverTakesPacket(true, true));
            && t.r2s == s.r2s + [Puback(1)] && t.s2r == s.s2r[1..] && t.delivered == s.delivered + [m]
            && t.last == s.last && t.sender == s.sender && t.published == s.published
  {
  }

  lemma TwoReads(v5: bool, s: State, m: Message)
    requires s.s2r == [Publish(1, false, m), Publish(1, true, m)] && s.r2s == [] && s.delivered == [] && m.qos == 1
    ensures var t := Goes(v5, s, [ReceiverTakesPacket(true, true), ReceiverTakesPacket(true, true)]);
            && t.r2s == [Puback(1), Puback(1)] && t.s2r == [] && t.delivered == [m, m]
            && t.last == s.last && t.sender == s.sender && t.published == s.published
  {
    hide Apply, Goes;
    var r := ReceiverTakesPacket(true, true);
    OneRead(v5, s, m);
    var t := Apply(v5, s, r);
    OneRead(v5, t, m);
    GoesOn(v5, s, r, [r]);
    NoMore(v5, Apply(v5, t, r));
    GoesOn(v5, t, r, []);
    assert [r] + [r] == [r, r] && [r] + [] == [r];
  }

  lemma FirstLapping(v5: bool, content: Content)
    ensures Lapping(Goes(v5, Init, FirstSteps(content)), content, 1)
  {
    hide Goes, Apply;
    var m := Nth(content, 0);
    var e := OutMsg(1, m, PUBREC);
    var twice := [ReceiverTakesPacket(true, true), ReceiverTakesPacket(true, true)];
    FirstGiven();
    SubmitGoes(v5, Init, 1, m);
    var s1 := Goes(v5, Init, SubmitSteps(1, m));
    assert s1.sender == Idle([e]) && s1.s2r == [Publish(1, false, m)];
    RetryGoes(v5, s1, 0);
    var s2 := Goes(v5, s1, RetrySteps(0));
    assert s2.s2r == [Publish(1, false, m), Publish(1, true, m)];
    TwoReads(v5, s2, m);
    var s3 := Goes(v5, s2, twice);
    TakeGoes(v5, s3, 1);
    var s4 := Goes(v5, s3, TakeSteps());
    assert Without([e], 0) == [];
    GoesBoth(v5, Init, SubmitSteps(1, m) + RetrySteps(0) + twice, TakeSteps());
    GoesBoth(v5, Init, SubmitSteps(1, m) + RetrySteps(0), twice);
    GoesBoth(v5, Init, SubmitSteps(1, m), RetrySteps(0));
    assert MsgIds.IdSet([]) == {};
  }

  lemma FirstGiven()
    ensures Given([], 0, 1) && MsgId(1)
  {
    assert MsgIds.IdSet([]) == {};
    assert MsgIds.Nth(0, 0) == 0;
    assert 1 == MsgIds.Nth(0, 1);
  }

  /** One more message is published, under the next id. */
  lemma LapFurther(v5: bool, s: State, content: Content, last: int)
    requires Lapping(s, content, last) && 1 <= last < MAX_MSG_ID
    ensures Lapping(Goes(v5, s, SubmitSteps(last + 1, Nth(content, last))), content, last + 1)
  {
    hide Goes, Given;
    var m := Nth(content, last);
    NextGiven(s.sender.list, last);
    SubmitGoes(v5, s, last + 1, m);
    IdSetAppend(s.sender.list, OutMsg(last + 1, m, PUBREC));
  }

  lemma {:induction false} Laps(v5: bool, content: Content, last: int) returns (steps: seq<Step>)
    requires 1 <= last <= MAX_MSG_ID
    ensures Lapping(Run(v5, steps), content, last)
    decreases last
  {
    hide Goes, Lapping, Apply;
    if last == 1 {
      steps := FirstSteps(content);
      FirstLapping(v5, content);
      RunGoes(v5, [], steps);
      assert [] + steps == steps;
      assert Run(v5, []) == Init;
    } else {
      var before := Laps(v5, content, last - 1);
      LapFurther(v5, Run(v5, before), content, last - 1);
      RunGoes(v5, before, SubmitSteps(last, Nth(content, last - 1)));
      steps := before + SubmitSteps(last, Nth(content, last - 1));
    }
  }

  /** The id goes to a new message after a whole lap, and the PUBACK left over from its first use takes it away. */
  lemma LapEnds(v5: bool, s: State, content: Content)
    requires Lapping(s, content, MAX_MSG_ID)
    ensures var second := Nth(content, MAX_MSG_ID);
            var t := Goes(v5, s, SubmitSteps(1, second) + TakeSteps() + [Reconnect]);
            && t.published == s.published + [second] && second !in t.delivered
            && LetGo(t, second) && t.s2r == [] && t.r2s == []
  {
    hide Goes, Given;
    var second := Nth(content, MAX_MSG_ID);
    var e := OutMsg(1, second, PUBREC);
    NextGiven(s.sender.list, MAX_MSG_ID);
    SubmitGoes(v5, s, 1, second);
    var s1 := Goes(v5, s, SubmitSteps(1, second));
    NotListed(s.sender.list, 1);
    AppendFind(s.sender.list, e);
    TakeGoes(v5, s1, 1);
    var s2 := Goes(v5, s1, TakeSteps());
    var s3 := Apply(v5, s2, Reconnect);
    GoesOn(v5, s2, Reconnect, []);
    NoMore(v5, s3);
    assert [Reconnect] + [] == [Reconnect];
    GoesBoth(v5, s, SubmitSteps(1, second) + TakeSteps(), [Reconnect]);
    GoesBoth(v5, s, SubmitSteps(1, second), TakeSteps());
  }

  lemma NoMore(v5: bool, s: State)
    ensures Goes(v5, s, []) == s
  {
  }

  lemma NotListed(list: seq<OutMsg>, x: int)
    requires x !in MsgIds.IdSet(list)
    ensures Find(list, x) == |list|
  {
  }

  lemma {:induction false} AppendFind(list: seq<OutMsg>, e: OutMsg)
    requires Find(list, e.id) == |list|
    ensures Find(list + [e], e.id) == |list| && Without(list + [e], |list|) == list
  {
    var i := Find(list + [e], e.id);
    assert (list + [e])[|list|] == e;
    assert forall j | 0 <= j < |list| :: (list + [e])[j] == list[j];
  }

  /**
   * The condition is needed. Here every id is the one assignMsgId chooses, nothing crashes, and only the reconnect at
   * the end loses packets: id 1 is written twice before its first PUBACK is read, comes round again, and the second
   * PUBACK finishes the new message, which is never delivered.
   */
  lemma Qos1ReusedIdLost(v5: bool, content: Content) returns (steps: seq<Step>)
    ensures var s, second := Run(v5, steps), Nth(content, MAX_MSG_ID);
            && |s.published| == MAX_MSG_ID + 1 && s.published[MAX_MSG_ID] == second
            && LetGo(s, second) && second !in s.delivered && s.s2r == [] && s.r2s == []
  {
    hide Goes, Apply;
    var before := Laps(v5, content, MAX_MSG_ID);
    var more := SubmitSteps(1, Nth(content, MAX_MSG_ID)) + TakeSteps() + [Reconnect];
    LapEnds(v5, Run(v5, before), content);
    RunGoes(v5, before, more);
    steps := before + more;
  }
}
