// Crash atomicity over whole runs: wherever a session is stopped, the restart rebuilds the unfinished messages as they
// were before the handler at work or as it leaves them.

module CrashRuns {
  import opened Packets
  import opened Persistence
  import opened Handlers
  import opened CrashProofs
  import opened Session
  import MsgIds

  /** What the handlers at work must not do: complete a message with a five-digit id, or begin one for V5. */
  ghost predicate Plain(v5: bool, s: State) {
    match s.sender
    case Busy(list, h, _) => !LongDrop(v5, list, h) && (v5 && h.Start? ==> h.id < 10000)
    case _ => true
  }

  ghost predicate PlainRun(v5: bool, steps: seq<Step>) {
    forall n | 0 <= n <= |steps| :: Plain(v5, Run(v5, steps[..n]))
  }

  /** The store is what the handler at work has made of one that its list agreed with. */
  ghost predicate CutOf(v5: bool, store: Store, list: seq<OutMsg>, h: Handler, n: nat, before: Store) {
    Ready(v5, list, before, h) && n <= |Ops(v5, list, h)| && store == CutStore(before, Ops(v5, list, h), n)
  }

  ghost predicate Tracked(v5: bool, s: State) {
    && 0 <= s.last <= MAX_MSG_ID
    && match s.sender
       case Idle(list) => Settled(v5, list, s.store) && ShortIds(v5, s.store)
       case Busy(list, h, n) => exists before :: CutOf(v5, s.store, list, h, n, before)
       case Failed => false
  }

  lemma CutNone(store: Store, ops: seq<Op>)
    ensures CutStore(store, ops, 0) == store
  {
    assert ops[..0] == [];
  }

  lemma TrackSubmit(v5: bool, s: State, x: int, m: Message)
    requires Tracked(v5, s) && Plain(v5, Apply(v5, s, Submit(x, m)))
    ensures Tracked(v5, Apply(v5, s, Submit(x, m)))
  {
    hide Settled, ShortIds, Ops, Given;
    var t := Apply(v5, s, Submit(x, m));
    if t.sender != s.sender {
      var list := s.sender.list;
      GivenId(list, s.last, x);
      CutNone(s.store, Ops(v5, list, Start(x, m)));
      assert CutOf(v5, s.store, list, Start(x, m), 0, s.store);
    }
  }

  lemma GivenId(list: seq<OutMsg>, last: int, x: int)
    requires 0 <= last <= MAX_MSG_ID && Given(list, last, x)
    ensures MsgId(x) && !HasId(list, x)
  {
    var n: nat :| 1 <= n <= MAX_MSG_ID && x == MsgIds.Nth(last, n) && x !in MsgIds.IdSet(list);
    MsgIds.NthStaysId(last, n);
  }

  lemma TrackBegins(v5: bool, s: State, step: Step)
    requires Tracked(v5, s) && (step.TakePacket? || step.Retry?)
    ensures Tracked(v5, Apply(v5, s, step))
  {
    hide Settled, ShortIds, Ops;
    var t := Apply(v5, s, step);
    if t.sender != s.sender {
      CutNone(s.store, Ops(v5, t.sender.list, t.sender.handler));
      assert CutOf(v5, s.store, t.sender.list, t.sender.handler, 0, s.store);
    }
  }

  /** Performing an operation cuts the handler one operation later. */
  lemma PerformStores(s: State, list: seq<OutMsg>, h: Handler, op: Op, sent: bool)
    ensures var t := Perform(s, list, h, op, sent); t.store == ApplyOp(s.store, op) && t.last == s.last
  {
  }

  lemma TrackAdvance(v5: bool, s: State, sent: bool)
    requires Tracked(v5, s) && Plain(v5, s)
    ensures Tracked(v5, Apply(v5, s, Advance(sent)))
  {
    hide Settled, ShortIds, Ops, CutStore, Perform, Ready, LongDrop;
    if s.sender.Busy? {
      var Busy(list, h, n) := s.sender;
      var before :| CutOf(v5, s.store, list, h, n, before);
      if n < |Ops(v5, list, h)| {
        PerformStores(s, list, h, Ops(v5, list, h)[n], sent);
        CutStep(before, Ops(v5, list, h), n);
        assert CutOf(v5, Apply(v5, s, Advance(sent)).store, list, h, n + 1, before);
      } else {
        CutAll(before, Ops(v5, list, h));
        HandlerSettles(v5, list, before, h);
      }
    }
  }

  lemma CutAll(store: Store, ops: seq<Op>)
    ensures CutStore(store, ops, |ops|) == ApplyOps(store, ops)
  {
    assert ops[..|ops|] == ops;
  }

  /** A tracked store is in order and can be restored. */
  lemma TrackedStore(v5: bool, s: State)
    requires Tracked(v5, s)
    ensures WellFormedStore(v5, s.store) && ShortIds(v5, s.store) && Restorable(s.store)
  {
    hide Ops, Table, TableOf, Fits, CommitAt, After;
    match s.sender {
      case Idle(list) =>
      case Busy(list, h, n) =>
        var before :| CutOf(v5, s.store, list, h, n, before);
        HandlerCut(v5, list, before, h, n);
    }
    ShortRestorable(v5, s.store);
  }

  lemma ShortRestorable(v5: bool, store: Store)
    requires WellFormedStore(v5, store) && ShortIds(v5, store)
    ensures Restorable(store)
  {
    hide Fits;
    forall k | k in store && k.kind == SENT ensures Fits(Key(k.v5, PUBREL_SENT, k.id)) {
      ShortFits(Key(k.v5, PUBREL_SENT, k.id));
    }
  }

  lemma TrackCrash(v5: bool, s: State, keys: seq<Key>)
    requires Tracked(v5, s)
    ensures Tracked(v5, Apply(v5, s, Crash(keys)))
  {
    hide Settled, ShortIds, Restorable, Restored, PurgeOps, WellFormedStore, Enumerates, CutOf;
    TrackedStore(v5, s);
    if Enumerates(keys, s.store) { RestartCutOf(v5, s.store, keys); }
  }

  lemma RestartCutOf(v5: bool, store: Store, keys: seq<Key>)
    requires WellFormedStore(v5, store) && ShortIds(v5, store) && Enumerates(keys, store)
    ensures CutOf(v5, store, [], Restart(PurgeOps(store, keys), Restored(v5, store, keys)), 0, store)
  {
    hide ShortIds, Restored, PurgeOps, WellFormedStore, Enumerates;
    CutNone(store, PurgeOps(store, keys));
  }

  lemma TrackStep(v5: bool, s: State, step: Step)
    requires Tracked(v5, s) && Plain(v5, s) && Plain(v5, Apply(v5, s, step))
    ensures Tracked(v5, Apply(v5, s, step))
  {
    match step
    case Submit(x, m) => TrackSubmit(v5, s, x, m);
    case Advance(sent) => TrackAdvance(v5, s, sent);
    case Crash(keys) => TrackCrash(v5, s, keys);
    case TakePacket => TrackBegins(v5, s, step);
    case Retry(_) => TrackBegins(v5, s, step);
    case TakeId(x) => TrackTakeId(v5, s, x);
    case _ => TrackOther(v5, s, step);
  }

  lemma TrackTakeId(v5: bool, s: State, x: int)
    requires Tracked(v5, s)
    ensures Tracked(v5, Apply(v5, s, TakeId(x)))
  {
    hide Settled, ShortIds, Given;
    if s.sender.Idle? && Given(s.sender.list, s.last, x) { GivenId(s.sender.list, s.last, x); }
  }

  lemma TrackOther(v5: bool, s: State, step: Step)
    requires Tracked(v5, s) && (step.SubmitQos0? || step.ReceiverTakesPacket? || step.Reconnect?)
    ensures Tracked(v5, Apply(v5, s, step))
  {
    hide Settled, ShortIds, CutOf;
  }

  lemma {:induction false} RunTracked(v5: bool, steps: seq<Step>)
    requires PlainRun(v5, steps)
    ensures Tracked(v5, Run(v5, steps))
  {
    if steps == [] {
      InitTracked(v5);
    } else {
      hide Apply, Tracked, Plain;
      var n := |steps| - 1;
      var before := steps[..n];
      assert forall k | 0 <= k <= n :: before[..k] == steps[..k];
      assert steps[..|steps|] == steps;
      RunTracked(v5, before);
      TrackStep(v5, Run(v5, before), steps[n]);
    }
  }

  lemma InitTracked(v5: bool)
    ensures Tracked(v5, Init)
  {
    hide Fits;
    assert TableOf([]) == map[] == Table(v5, map[]);
  }

  /**
   * In every run without such handlers, a restart at any point finds a store it can restore, whatever the order of
   * the keys: it rebuilds the memory between handlers, and the messages before or after the handler within one. A
   * restart cut short and repeated rebuilds what it was about to.
   */
  lemma RunCrashAtomic(v5: bool, steps: seq<Step>, keys: seq<Key>)
    requires PlainRun(v5, steps) && Enumerates(keys, Run(v5, steps).store)
    ensures var s := Run(v5, steps); var rebuilt := TableOf(Restored(v5, s.store, keys));
            && Restorable(s.store)
            && match s.sender
               case Idle(list) => rebuilt == TableOf(list)
               case Busy(list, h, _) =>
                 if h.Restart? then rebuilt == TableOf(h.list)
                 else rebuilt == TableOf(list) || rebuilt == TableOf(After(v5, list, h))
               case Failed => false
  {
    RunTracked(v5, steps);
    var s := Run(v5, steps);
    TrackedStore(v5, s);
    hide Run, Settled, ShortIds, Restorable, Restored, WellFormedStore, Enumerates, TableOf, Table, Ops, CutStore,
         After, PurgeOps;
    match s.sender {
      case Idle(list) => SettledRebuilt(v5, list, s.store, keys);
      case Busy(list, h, n) =>
        var before :| CutOf(v5, s.store, list, h, n, before);
        if h.Restart? {
          RestartRebuilt(v5, list, before, h, n, keys);
        } else {
          CrashAtomic(v5, list, before, h, n, keys);
        }
    }
  }

  lemma SettledRebuilt(v5: bool, list: seq<OutMsg>, store: Store, keys: seq<Key>)
    requires Settled(v5, list, store) && Enumerates(keys, store)
    ensures TableOf(Restored(v5, store, keys)) == TableOf(list)
  {
    RestoredMirrors(v5, store, keys);
  }

  lemma RestartRebuilt(v5: bool, list: seq<OutMsg>, before: Store, h: Handler, n: nat, keys: seq<Key>)
    requires h.Restart? && Ready(v5, list, before, h) && n <= |Ops(v5, list, h)|
    requires Enumerates(keys, CutStore(before, Ops(v5, list, h), n))
    ensures TableOf(Restored(v5, CutStore(before, Ops(v5, list, h), n), keys)) == TableOf(h.list)
  {
    hide Restored, WellFormedStore, TableOf, Table, CutStore, PurgeOps, ShortIds;
    var keys0 :| Enumerates(keys0, before) && h.purge == PurgeOps(before, keys0)
        && h.list == Restored(v5, before, keys0);
    CrashDuringRestart(v5, before, keys0, n, keys);
  }
}
