// The sessions of module Session refine the exchange of module Exchange, for every message id.

module SessionProofs {
  import opened Packets
  import opened Persistence
  import opened Handlers
  import opened CrashProofs
  import opened Session
  import E = Exchange
  import X = ExchangeProofs
  import Q = Qos1Proofs
  import MsgIds

  // ----- what a session state stands for -----

  /** How many operations a handler performs before the abstract sender takes its step. */
  function Commits(v5: bool, list: seq<OutMsg>, h: Handler): nat {
    match h
    case Start(_, _) => 1
    case Ack(p) => if Judge(v5, list, p) == Release && Fits(Key(v5, PUBREL_SENT, p.id)) then 1 else 0
    case Resend(_) => 0
    case Restart(_, _) => 0
  }

  function OutOf(v5: bool, sender: Sender): map<int, E.Entry> {
    match sender
    case Idle(list) => TableOf(list)
    case Busy(list, h, n) => if n < Commits(v5, list, h) then TableOf(list) else TableOf(After(v5, list, h))
    case Failed => map[]
  }

  /** The packet being handled counts as still in the channel until then. */
  function Pending(v5: bool, sender: Sender): seq<Packet> {
    match sender
    case Busy(list, Ack(p), n) => if n < Commits(v5, list, Ack(p)) then [p] else []
    case _ => []
  }

  /**
   * The store against the sender's records: nothing unfinished is missing, nothing is in an earlier phase
   * (unless its PUBREL key is too long to be restored at all), and QoS 2 leftovers are past PUBREC.
   */
  ghost predicate Compatible(v5: bool, out: map<int, E.Entry>, table: map<int, E.Entry>) {
    && (forall x | x in out ::
          && x in table
          && table[x].msg == out[x].msg
          && (Fits(Key(v5, PUBREL_SENT, x)) ==>
               table[x] == out[x] || (table[x].msg.qos == 2 && table[x].next == PUBCOMP)))
    && (forall x | x in table && x !in out ::
          Fits(Key(v5, PUBREL_SENT, x)) ==> table[x].msg.qos == 1 || table[x].next == PUBCOMP)
  }

  /** Stored messages are published ones, each under one id. */
  ghost predicate StoredOnce(table: map<int, E.Entry>, published: seq<Message>) {
    && (forall x | x in table ::
          && table[x].msg.tag < |published| && published[table[x].msg.tag] == table[x].msg
          && (table[x].msg.qos == 1 || table[x].msg.qos == 2))
    && (forall x, y | x in table && y in table && x != y :: table[x].msg.tag != table[y].msg.tag)
  }

  /** What the operations still to come rely on. */
  ghost predicate HandlerOk(v5: bool, s: State) {
    match s.sender
    case Idle(list) => DistinctIds(list)
    case Failed => true
    case Busy(list, h, n) =>
      && n <= |Ops(v5, list, h)|
      && DistinctIds(list)
      && DistinctIds(After(v5, list, h))
      && (match h
          case Start(x, m) =>
            MsgId(x) && !HasId(list, x) && (m.qos == 1 || m.qos == 2) && (n == 0 ==> m.tag == |s.published|)
          case Ack(p) =>
            Judge(v5, list, p) == Drop ==>
              forall i | 0 <= i < n :: Ops(v5, list, h)[i].Remove? && Ops(v5, list, h)[i].key !in s.store
          case Resend(e) => e in list
          case Restart(purge, _) =>
            forall i | 0 <= i < |purge| ::
              && purge[i].Remove? && purge[i].key.v5 == v5
              && purge[i].key.kind == PUBREL_SENT && Key(v5, SENT, purge[i].key.id) !in s.store)
  }

  /** The exchange takes the id of a new message together with the message, when it is stored. */
  ghost predicate LastShown(s: State, last: int) {
    0 <= last <= MAX_MSG_ID &&
    if s.sender.Busy? && s.sender.handler.Start? && s.sender.done == 0 then
      s.last == s.sender.handler.id && Given(s.sender.list, last, s.sender.handler.id)
    else s.sender.Failed? || s.last == last
  }

  ghost predicate Shows(v5: bool, s: State, a: E.State) {
    && LastShown(s, a.last)
    && WellFormedStore(v5, s.store)
    && HandlerOk(v5, s)
    && StoredOnce(Table(v5, s.store), s.published)
    && (!s.sender.Failed? ==> a.out == OutOf(v5, s.sender) && Compatible(v5, a.out, Table(v5, s.store)))
    && a.inb == s.inb
    && a.s2r == s.s2r
    && a.r2s == Pending(v5, s.sender) + s.r2s
    && a.published == s.published
    && a.delivered == s.delivered
    && a.owed == s.owed
    && s.clear <= a.clean
    && a.log == s.log
  }

  datatype Move = Stutter | Move(step: E.Step)

  ghost function Follow(v5: bool, a: E.State, m: Move): E.State {
    if m.Stutter? then a else E.Apply(v5, a, m.step)
  }

  // ----- beginning a handler -----

  lemma GivenIsNew(list: seq<OutMsg>, last: int, x: int)
    requires 0 <= last <= MAX_MSG_ID && Given(list, last, x)
    ensures MsgId(x) && !HasId(list, x)
  {
    var n: nat :| 1 <= n <= MAX_MSG_ID && x == MsgIds.Nth(last, n) && x !in MsgIds.IdSet(list);
    MsgIds.NthStaysId(last, n);
  }

  /** The table has the ids of the list. */
  lemma TableIds(list: seq<OutMsg>)
    ensures TableOf(list).Keys == MsgIds.IdSet(list)
  {
    forall x ensures x in TableOf(list) <==> x in MsgIds.IdSet(list) { TableOfFind(list, x); }
  }

  lemma FollowSubmit(v5: bool, s: State, x: int, m: Message, a: E.State)
    requires Shows(v5, s, a)
    ensures Shows(v5, Apply(v5, s, Submit(x, m)), a)
  {
    hide Table, TableOf, WellFormedStore, Fits, Compatible, StoredOnce, Find, Given;
    if s.sender.Idle? && Given(s.sender.list, s.last, x) {
      GivenIsNew(s.sender.list, s.last, x);
      AppendTable(s.sender.list, OutMsg(x, m, PUBREC));
    }
  }

  lemma FollowTakeId(v5: bool, s: State, x: int, a: E.State) returns (m: Move)
    requires Shows(v5, s, a)
    ensures Shows(v5, Apply(v5, s, TakeId(x)), Follow(v5, a, m))
  {
    hide Table, TableOf, WellFormedStore, Fits, Compatible, StoredOnce, Find, DistinctIds;
    m := Stutter;
    if s.sender.Idle? && Given(s.sender.list, s.last, x) {
      GivenIsNew(s.sender.list, s.last, x);
      TableIds(s.sender.list);
      m := Move(E.TakeId(x));
    }
  }

  lemma FollowRetry(v5: bool, s: State, i: nat, a: E.State)
    requires Shows(v5, s, a)
    ensures Shows(v5, Apply(v5, s, Retry(i)), a)
  {
    hide Table, TableOf, WellFormedStore, Fits, Compatible, StoredOnce, DistinctIds, HasId, Find, Ops;
  }

  /** Dropping an entry is compatible with a store that still has it. */
  lemma DropCompatible(v5: bool, list: seq<OutMsg>, p: Packet, table: map<int, E.Entry>)
    requires DistinctIds(list) && Judge(v5, list, p) == Drop && (p.Pubrec? ==> p.rc == 0)
    requires
      && Compatible(v5, TableOf(list), table)
      && (forall x | x in table :: table[x].msg.qos == 1 || table[x].msg.qos == 2)
    ensures Compatible(v5, TableOf(AckAfter(v5, list, p)), table)
  {
    WithoutTable(list, Find(list, p.id));
    TableOfFind(list, p.id);
    hide TableOf, DistinctIds, Without, Find, Fits;
  }

  /** A PUBREL record that cannot be stored leaves the store behind, and such a store is never restored. */
  lemma ReleaseCompatible(v5: bool, list: seq<OutMsg>, p: Packet, table: map<int, E.Entry>)
    requires DistinctIds(list) && Judge(v5, list, p) == Release && !Fits(Key(v5, PUBREL_SENT, p.id))
    requires Compatible(v5, TableOf(list), table)
    ensures Compatible(v5, TableOf(AckAfter(v5, list, p)), table)
  {
    var i := Find(list, p.id);
    UpdateTable(list, i, list[i].(next := PUBCOMP));
    TableOfFind(list, p.id);
    hide TableOf, DistinctIds, Find, Fits;
  }

  lemma AckCompatible(v5: bool, list: seq<OutMsg>, p: Packet, table: map<int, E.Entry>)
    requires DistinctIds(list) && Compatible(v5, TableOf(list), table) && (p.Pubrec? ==> p.rc == 0)
    requires forall x | x in table :: table[x].msg.qos == 1 || table[x].msg.qos == 2
    ensures Commits(v5, list, Ack(p)) == 0 ==> Compatible(v5, TableOf(AckAfter(v5, list, p)), table)
  {
    match Judge(v5, list, p)
    case Ignore =>
    case Drop => DropCompatible(v5, list, p, table);
    case Release => if !Fits(Key(v5, PUBREL_SENT, p.id)) { ReleaseCompatible(v5, list, p, table); }
  }

  /** Only a PUBREC waits for its record before it counts as received. */
  lemma CommitsPubrec(v5: bool, list: seq<OutMsg>, p: Packet)
    ensures Commits(v5, list, Ack(p)) > 0 ==> E.Answers(p) == multiset{}
  {
    hide Find, Fits;
  }

  lemma FollowTakeNow(v5: bool, s: State, a: E.State)
    requires Shows(v5, s, a) && E.PacketsOk(a) && s.sender.Idle? && s.r2s != []
    requires Commits(v5, s.sender.list, Ack(s.r2s[0])) == 0
    ensures Shows(v5, Apply(v5, s, TakePacket), E.Apply(v5, a, E.SenderReceives))
  {
    hide Table, TableOf, WellFormedStore, Fits, Compatible, StoredOnce, DistinctIds, HasId, Find, Ops, Judge, Commits,
         E.Acknowledge, E.Answers, Given;
    var list, p := s.sender.list, s.r2s[0];
    assert a.r2s == s.r2s;
    AckTable(v5, list, p);
    StoredQos(v5, s);
    AckCompatible(v5, list, p, Table(v5, s.store));
  }

  lemma FollowTakeLater(v5: bool, s: State, a: E.State)
    requires Shows(v5, s, a) && s.sender.Idle? && s.r2s != []
    requires Commits(v5, s.sender.list, Ack(s.r2s[0])) > 0
    ensures Shows(v5, Apply(v5, s, TakePacket), a)
  {
    hide Table, TableOf, WellFormedStore, Fits, Compatible, StoredOnce, DistinctIds, HasId, Find, Ops, Judge, Commits,
         E.Answers, Given;
    var list, p := s.sender.list, s.r2s[0];
    assert s.r2s == [p] + s.r2s[1..];
    CommitsPubrec(v5, list, p);
    AckTable(v5, list, p);
  }

  lemma StoredQos(v5: bool, s: State)
    requires WellFormedStore(v5, s.store) && StoredOnce(Table(v5, s.store), s.published)
    ensures forall x | x in Table(v5, s.store) ::
              Table(v5, s.store)[x].msg.qos == 1 || Table(v5, s.store)[x].msg.qos == 2
  {
  }

  lemma FollowTake(v5: bool, s: State, a: E.State) returns (m: Move)
    requires Shows(v5, s, a) && E.PacketsOk(a)
    ensures Shows(v5, Apply(v5, s, TakePacket), Follow(v5, a, m))
  {
    hide Shows, E.Apply;
    m := Stutter;
    if s.sender.Idle? && s.r2s != [] {
      if Commits(v5, s.sender.list, Ack(s.r2s[0])) == 0 {
        FollowTakeNow(v5, s, a);
        m := Move(E.SenderReceives);
      } else {
        FollowTakeLater(v5, s, a);
      }
    }
  }

  // ----- performing an operation -----

  lemma PublishShape(v5: bool, x: int, dup: bool, m: Message)
    requires MsgId(x)
    ensures Fits(Key(v5, SENT, x))
    ensures PublishOps(v5, x, dup, m) == [Put(Key(v5, SENT, x), RecPublish(x, dup, m)), Send(Publish(x, dup, m))]
  {
    FitsExactly(Key(v5, SENT, x));
  }

  lemma PubrelShape(v5: bool, x: int)
    ensures PubrelOps(v5, x) ==
              if Fits(Key(v5, PUBREL_SENT, x)) then [Put(Key(v5, PUBREL_SENT, x), RecPubrel(x)), Send(Pubrel(x, false))]
              else [Send(Pubrel(x, false))]
  {
  }

  lemma StartTables(v5: bool, out: map<int, E.Entry>, table: map<int, E.Entry>, published: seq<Message>, x: int,
      m: Message, e: E.Entry)
    requires Compatible(v5, out, table) && StoredOnce(table, published)
    requires m.tag == |published| && (m.qos == 1 || m.qos == 2) && e.msg == m
    requires e.next == PUBREC || m.qos == 2
    ensures Compatible(v5, out[x := E.Entry(m, PUBREC)], table[x := e])
    ensures StoredOnce(table[x := e], published + [m])
  {
    hide Fits;
  }

  /** Writing a packet moves the handler on and leaves the store and the records alone. */
  lemma ShowsSent(v5: bool, s: State, a: E.State, t: State, b: E.State)
    requires Shows(v5, s, a) && s.sender.Busy?
    requires s.sender.done < |Ops(v5, s.sender.list, s.sender.handler)|
    requires Commits(v5, s.sender.list, s.sender.handler) <= s.sender.done
    requires s.sender.handler.Ack? ==> Judge(v5, s.sender.list, s.sender.handler.packet) != Drop
    requires t == s.(sender := s.sender.(done := s.sender.done + 1), s2r := t.s2r, owed := t.owed, log := t.log)
    requires b == a.(s2r := t.s2r, owed := t.owed, log := t.log)
    ensures Shows(v5, t, b)
  {
    hide Table, TableOf, WellFormedStore, Compatible, StoredOnce, DistinctIds, HasId, Ops, Judge, Given, Commits;
    CommitsFirst(v5, s.sender.list, s.sender.handler);
  }

  lemma CommitsFirst(v5: bool, list: seq<OutMsg>, h: Handler)
    ensures h.Start? ==> Commits(v5, list, h) == 1
  {
  }

  lemma FollowStartPut(v5: bool, s: State, sent: bool, a: E.State)
    requires Shows(v5, s, a) && Q.OwedOk(a) && s.sender.Busy? && s.sender.handler.Start? && s.sender.done == 0
    ensures Shows(v5, Apply(v5, s, Advance(sent)), E.Apply(v5, a, E.Accept(s.sender.handler.id, s.sender.handler.msg)))
  {
    hide Table, TableOf, WellFormedStore, Fits, Compatible, StoredOnce, DistinctIds, HasId, Find, PublishOps,
         E.NoPub, E.NoAck, Q.Coming, MsgIds.NextFree;
    var Busy(list, Start(x, msg), n) := s.sender;
    PublishShape(v5, x, false, msg);
    AppendTable(list, OutMsg(x, msg, PUBREC));
    NewIdTable(list, x);
    TableIds(list);
    PutSent(v5, s.store, x, false, msg);
    StartTables(v5, a.out, Table(v5, s.store), s.published, x, msg, StoredEntry(v5, s.store, x, msg));
    Q.NoneComing(a, x);
    assert Q.Coming(a)[x] <= a.owed[x];
  }

  lemma FollowStartSend(v5: bool, s: State, sent: bool, a: E.State)
    requires Shows(v5, s, a) && s.sender.Busy? && s.sender.handler.Start? && s.sender.done == 1
    ensures Shows(v5, Apply(v5, s, Advance(sent)), E.Apply(v5, a, E.SendPublish(s.sender.handler.id, false, sent)))
  {
    hide Table, TableOf, WellFormedStore, Fits, Compatible, StoredOnce, DistinctIds, HasId, Find, PublishOps, Given;
    var Busy(list, Start(x, msg), n) := s.sender;
    PublishShape(v5, x, false, msg);
    AppendTable(list, OutMsg(x, msg, PUBREC));
    var t, b := Apply(v5, s, Advance(sent)), E.Apply(v5, a, E.SendPublish(x, false, sent));
    assert b == a.(s2r := t.s2r, owed := t.owed, log := t.log);
    hide Shows;
    ShowsSent(v5, s, a, t, b);
  }

  lemma FollowStart(v5: bool, s: State, sent: bool, a: E.State) returns (m: Move)
    requires Shows(v5, s, a) && Q.OwedOk(a) && s.sender.Busy? && s.sender.handler.Start?
    requires s.sender.done < |Ops(v5, s.sender.list, s.sender.handler)|
    ensures Shows(v5, Apply(v5, s, Advance(sent)), Follow(v5, a, m))
  {
    hide Shows, Apply, E.Apply, Ops, Q.OwedOk;
    var Busy(list, Start(x, msg), n) := s.sender;
    StartTwo(v5, s, a);
    if n == 0 {
      FollowStartPut(v5, s, sent, a);
      m := Move(E.Accept(x, msg));
    } else {
      FollowStartSend(v5, s, sent, a);
      m := Move(E.SendPublish(x, false, sent));
    }
  }

  lemma StartTwo(v5: bool, s: State, a: E.State)
    requires Shows(v5, s, a) && s.sender.Busy? && s.sender.handler.Start?
    ensures |Ops(v5, s.sender.list, s.sender.handler)| == 2
  {
    hide PublishOps, Fits, Table, TableOf, StoredOnce, Compatible, WellFormedStore, Commits;
    PublishShape(v5, s.sender.handler.id, false, s.sender.handler.msg);
  }

  lemma NewIdTable(list: seq<OutMsg>, x: int)
    requires !HasId(list, x)
    ensures x !in TableOf(list)
  {
    TableOfFind(list, x);
  }

  /** Storing the PUBLISH or the PUBREL of an entry again. */
  lemma StoreAgain(v5: bool, store: Store, out: map<int, E.Entry>, x: int, dup: bool)
    requires WellFormedStore(v5, store) && Compatible(v5, out, Table(v5, store)) && x in out && MsgId(x)
    requires out[x].msg.qos == 1 || out[x].msg.qos == 2
    ensures Fits(Key(v5, SENT, x)) ==>
              var t := store[Key(v5, SENT, x) := RecPublish(x, dup, out[x].msg)];
              WellFormedStore(v5, t) && Table(v5, t) == Table(v5, store)
    ensures out[x].msg.qos == 2 && out[x].next == PUBCOMP && Fits(Key(v5, PUBREL_SENT, x)) ==>
              var t := store[Key(v5, PUBREL_SENT, x) := RecPubrel(x)];
              WellFormedStore(v5, t) && Table(v5, t) == Table(v5, store)
  {
    hide Fits, WellFormedStore, Table;
    InTable(v5, store, x);
    if Fits(Key(v5, SENT, x)) { PutSent(v5, store, x, dup, out[x].msg); }
    if out[x].msg.qos == 2 && out[x].next == PUBCOMP && Fits(Key(v5, PUBREL_SENT, x)) { PutRel(v5, store, x); }
  }

  /** What FollowResend needs to know of the entry. */
  lemma ResendEntry(v5: bool, s: State, a: E.State)
    requires Shows(v5, s, a) && s.sender.Busy? && s.sender.handler.Resend?
    ensures var e := s.sender.handler.entry;
            MsgId(e.id) && (e.msg.qos == 1 || e.msg.qos == 2) && e.id in a.out && a.out[e.id] == EntryOf(e)
  {
    hide Table, TableOf, WellFormedStore, Fits, Compatible, StoredOnce, DistinctIds, HasId, Find, Ops;
    TableMember(s.sender.list, s.sender.handler.entry);
    EntryQos(v5, s, a, s.sender.handler.entry);
  }

  lemma FollowResendPut(v5: bool, s: State, sent: bool, a: E.State)
    requires Shows(v5, s, a) && s.sender.Busy? && s.sender.handler.Resend? && s.sender.done == 0
    requires s.sender.handler.entry.msg.qos == 1 || s.sender.handler.entry.next == PUBREC
    ensures Shows(v5, Apply(v5, s, Advance(sent)), a)
  {
    hide Table, TableOf, WellFormedStore, Fits, Compatible, StoredOnce, DistinctIds, HasId, Find, PublishOps,
         PubrelOps, Commits, Given;
    var e := s.sender.handler.entry;
    ResendEntry(v5, s, a);
    PublishShape(v5, e.id, true, e.msg);
    StoreAgain(v5, s.store, a.out, e.id, true);
  }

  lemma FollowResendSend(v5: bool, s: State, sent: bool, a: E.State)
    requires Shows(v5, s, a) && s.sender.Busy? && s.sender.handler.Resend? && s.sender.done == 1
    requires s.sender.handler.entry.msg.qos == 1 || s.sender.handler.entry.next == PUBREC
    ensures Shows(v5, Apply(v5, s, Advance(sent)), E.Apply(v5, a, E.SendPublish(s.sender.handler.entry.id, true, sent)))
  {
    hide Table, TableOf, WellFormedStore, Fits, Compatible, StoredOnce, DistinctIds, HasId, Find, PublishOps,
         PubrelOps, Given;
    var e := s.sender.handler.entry;
    ResendEntry(v5, s, a);
    PublishShape(v5, e.id, true, e.msg);
    var t, b := Apply(v5, s, Advance(sent)), E.Apply(v5, a, E.SendPublish(e.id, true, sent));
    assert b == a.(s2r := t.s2r, owed := t.owed, log := t.log);
    hide Shows;
    ShowsSent(v5, s, a, t, b);
  }

  lemma ResendTwo(v5: bool, s: State, a: E.State)
    requires Shows(v5, s, a) && s.sender.Busy? && s.sender.handler.Resend?
    requires s.sender.handler.entry.msg.qos == 1 || s.sender.handler.entry.next == PUBREC
    ensures |Ops(v5, s.sender.list, s.sender.handler)| == 2
  {
    hide Shows, PublishOps, Fits;
    ResendEntry(v5, s, a);
    PublishShape(v5, s.sender.handler.entry.id, true, s.sender.handler.entry.msg);
  }

  lemma FollowResendPublish(v5: bool, s: State, sent: bool, a: E.State) returns (m: Move)
    requires Shows(v5, s, a) && s.sender.Busy? && s.sender.handler.Resend?
    requires s.sender.done < |Ops(v5, s.sender.list, s.sender.handler)|
    requires s.sender.handler.entry.msg.qos == 1 || s.sender.handler.entry.next == PUBREC
    ensures Shows(v5, Apply(v5, s, Advance(sent)), Follow(v5, a, m))
  {
    hide Shows, Apply, E.Apply, Ops;
    var e := s.sender.handler.entry;
    ResendTwo(v5, s, a);
    if s.sender.done == 0 {
      FollowResendPut(v5, s, sent, a);
      m := Stutter;
    } else {
      FollowResendSend(v5, s, sent, a);
      m := Move(E.SendPublish(e.id, true, sent));
    }
  }

  lemma FollowResendPubrel(v5: bool, s: State, sent: bool, a: E.State) returns (m: Move)
    requires Shows(v5, s, a) && s.sender.Busy? && s.sender.handler.Resend?
    requires s.sender.done < |Ops(v5, s.sender.list, s.sender.handler)|
    requires s.sender.handler.entry.msg.qos == 2 && s.sender.handler.entry.next == PUBCOMP
    ensures Shows(v5, Apply(v5, s, Advance(sent)), Follow(v5, a, m))
  {
    hide Table, TableOf, WellFormedStore, Fits, Compatible, StoredOnce, DistinctIds, HasId, Find, PublishOps,
         PubrelOps, E.NoPub, E.NoAck, Commits;
    var e := s.sender.handler.entry;
    ResendEntry(v5, s, a);
    PubrelShape(v5, e.id);
    StoreAgain(v5, s.store, a.out, e.id, true);
    m := if PubrelOps(v5, e.id)[s.sender.done].Put? then Stutter else Move(E.SendPubrel(e.id, sent));
  }

  lemma EntryQos(v5: bool, s: State, a: E.State, e: OutMsg)
    requires WellFormedStore(v5, s.store) && StoredOnce(Table(v5, s.store), s.published)
    requires Compatible(v5, a.out, Table(v5, s.store)) && e.id in a.out && a.out[e.id] == EntryOf(e)
    ensures MsgId(e.id) && (e.msg.qos == 1 || e.msg.qos == 2)
  {
    hide Fits;
    InTable(v5, s.store, e.id);
  }

  lemma RemoveShape(x: int)
    ensures var ops := RemoveSentOps(x);
            && |ops| <= 4
            && (|ops| > 0 ==> ops[0] == Remove(Key(true, SENT, x)))
            && (|ops| > 1 ==> ops[1] == Remove(Key(true, PUBREL_SENT, x)))
            && (|ops| > 2 ==> ops[2] == Remove(Key(false, SENT, x)))
            && (|ops| > 3 ==> ops[3] == Remove(Key(false, PUBREL_SENT, x)))
  {
    hide Fits;
  }

  /** One removal of a finished message: at most its table entry goes. */
  lemma RemoveOne(v5: bool, store: Store, x: int, n: nat)
    requires WellFormedStore(v5, store) && n < |RemoveSentOps(x)|
    requires forall i | 0 <= i < n :: RemoveSentOps(x)[i].Remove? && RemoveSentOps(x)[i].key !in store
    ensures RemoveSentOps(x)[n].Remove?
    ensures var t := store - {RemoveSentOps(x)[n].key};
            && WellFormedStore(v5, t)
            && (Table(v5, t) == Table(v5, store) || Table(v5, t) == Table(v5, store) - {x})
  {
    RemoveShape(x);
    var k := RemoveSentOps(x)[n].key;
    if k.v5 != v5 {
      assert store - {k} == store;
    } else if k.kind == SENT {
      RemoveSent(v5, store, x);
    } else {
      assert RemoveSentOps(x)[n - 1].key == Key(v5, SENT, x);
      RemoveRel(v5, store, x);
    }
  }

  lemma FewerCompatible(v5: bool, out: map<int, E.Entry>, table: map<int, E.Entry>, published: seq<Message>, x: int)
    requires Compatible(v5, out, table) && StoredOnce(table, published) && x !in out
    ensures Compatible(v5, out, table - {x}) && StoredOnce(table - {x}, published)
  {
    hide Fits;
  }

  lemma FollowDrop(v5: bool, s: State, sent: bool, a: E.State)
    requires Shows(v5, s, a) && s.sender.Busy? && s.sender.handler.Ack?
    requires s.sender.done < |Ops(v5, s.sender.list, s.sender.handler)|
    requires Judge(v5, s.sender.list, s.sender.handler.packet) == Drop
    ensures Shows(v5, Apply(v5, s, Advance(sent)), a)
  {
    hide Table, TableOf, WellFormedStore, Fits, Compatible, StoredOnce, DistinctIds, HasId, Find, RemoveSentOps, Judge;
    var Busy(list, Ack(p), n) := s.sender;
    RemoveOne(v5, s.store, p.id, n);
    DroppedTable(v5, list, p);
    FewerCompatible(v5, a.out, Table(v5, s.store), s.published, p.id);
  }

  lemma DroppedTable(v5: bool, list: seq<OutMsg>, p: Packet)
    requires DistinctIds(list) && Judge(v5, list, p) == Drop
    ensures p.id !in TableOf(AckAfter(v5, list, p))
  {
    WithoutTable(list, Find(list, p.id));
  }

  /** A message past PUBREC on both sides. */
  lemma PubrecCompatible(v5: bool, out: map<int, E.Entry>, table: map<int, E.Entry>, published: seq<Message>, x: int,
      m: Message)
    requires Compatible(v5, out, table) && StoredOnce(table, published) && x in out && out[x].msg == m && m.qos == 2
    ensures x in table && table[x].msg == m
    ensures Compatible(v5, out[x := E.Entry(m, PUBCOMP)], table[x := table[x].(next := PUBCOMP)])
    ensures StoredOnce(table[x := table[x].(next := PUBCOMP)], published)
  {
    hide Fits;
  }

  lemma ReleaseTables(v5: bool, list: seq<OutMsg>, p: Packet, table: map<int, E.Entry>, published: seq<Message>)
    requires DistinctIds(list) && Judge(v5, list, p) == Release
    requires Compatible(v5, TableOf(list), table) && StoredOnce(table, published)
    ensures var out := TableOf(AckAfter(v5, list, p));
            && p.id in out && out[p.id] == E.Entry(list[Find(list, p.id)].msg, PUBCOMP) && out[p.id].msg.qos == 2
            && p.id in table && table[p.id].msg.qos == 2
            && Compatible(v5, out, table[p.id := table[p.id].(next := PUBCOMP)])
            && StoredOnce(table[p.id := table[p.id].(next := PUBCOMP)], published)
  {
    hide TableOf, DistinctIds, Find, Compatible, StoredOnce;
    var i := Find(list, p.id);
    UpdateTable(list, i, list[i].(next := PUBCOMP));
    TableOfFind(list, p.id);
    PubrecCompatible(v5, TableOf(list), table, published, p.id, list[i].msg);
  }

  lemma FollowReleasePut(v5: bool, s: State, sent: bool, a: E.State)
    requires Shows(v5, s, a) && s.sender.Busy? && s.sender.handler.Ack?
    requires s.sender.done == 0 && Fits(Key(v5, PUBREL_SENT, s.sender.handler.packet.id))
    requires Judge(v5, s.sender.list, s.sender.handler.packet) == Release
    ensures Shows(v5, Apply(v5, s, Advance(sent)), E.Apply(v5, a, E.SenderReceives))
  {
    hide Table, TableOf, WellFormedStore, Fits, Compatible, StoredOnce, DistinctIds, HasId, Find, PubrelOps, Judge,
         AckAfter, E.Acknowledge, Given;
    var Busy(list, Ack(p), n) := s.sender;
    PubrelShape(v5, p.id);
    CommitsPubrec(v5, list, p);
    AckTable(v5, list, p);
    ReleaseTables(v5, list, p, Table(v5, s.store), s.published);
    StoredId(v5, s.store, p.id);
    PutRel(v5, s.store, p.id);
    assert ([p] + s.r2s)[1..] == s.r2s;
  }

  lemma FollowReleaseSend(v5: bool, s: State, sent: bool, a: E.State)
    requires Shows(v5, s, a) && s.sender.Busy? && s.sender.handler.Ack?
    requires s.sender.done < |Ops(v5, s.sender.list, s.sender.handler)|
    requires s.sender.done == if Fits(Key(v5, PUBREL_SENT, s.sender.handler.packet.id)) then 1 else 0
    requires Judge(v5, s.sender.list, s.sender.handler.packet) == Release
    ensures Shows(v5, Apply(v5, s, Advance(sent)), E.Apply(v5, a, E.SendPubrel(s.sender.handler.packet.id, sent)))
  {
    hide Table, TableOf, WellFormedStore, Fits, Compatible, StoredOnce, DistinctIds, HasId, Find, PubrelOps, Judge,
         AckAfter, Given;
    var Busy(list, Ack(p), n) := s.sender;
    PubrelShape(v5, p.id);
    ReleasedTable(v5, list, p);
  }

  lemma FollowRelease(v5: bool, s: State, sent: bool, a: E.State) returns (m: Move)
    requires Shows(v5, s, a) && s.sender.Busy? && s.sender.handler.Ack?
    requires s.sender.done < |Ops(v5, s.sender.list, s.sender.handler)|
    requires Judge(v5, s.sender.list, s.sender.handler.packet) == Release
    ensures Shows(v5, Apply(v5, s, Advance(sent)), Follow(v5, a, m))
  {
    hide Shows, Apply, E.Apply, PubrelOps, Fits;
    var p := s.sender.handler.packet;
    PubrelShape(v5, p.id);
    if s.sender.done == 0 && Fits(Key(v5, PUBREL_SENT, p.id)) {
      FollowReleasePut(v5, s, sent, a);
      m := Move(E.SenderReceives);
    } else {
      FollowReleaseSend(v5, s, sent, a);
      m := Move(E.SendPubrel(p.id, sent));
    }
  }

  lemma StoredId(v5: bool, store: Store, x: int)
    requires WellFormedStore(v5, store) && x in Table(v5, store)
    ensures MsgId(x)
  {
    InTable(v5, store, x);
  }

  lemma ReleasedTable(v5: bool, list: seq<OutMsg>, p: Packet)
    requires DistinctIds(list) && Judge(v5, list, p) == Release
    ensures Find(list, p.id) < |list|
    ensures var out := TableOf(AckAfter(v5, list, p));
            p.id in out && out[p.id] == E.Entry(list[Find(list, p.id)].msg, PUBCOMP) && out[p.id].msg.qos == 2
  {
    var i := Find(list, p.id);
    UpdateTable(list, i, list[i].(next := PUBCOMP));
  }

  lemma FollowPurge(v5: bool, s: State, sent: bool, a: E.State)
    requires Shows(v5, s, a) && s.sender.Busy? && s.sender.handler.Restart?
    requires s.sender.done < |Ops(v5, s.sender.list, s.sender.handler)|
    ensures Shows(v5, Apply(v5, s, Advance(sent)), a)
  {
    hide Table, TableOf, WellFormedStore, Fits, Compatible, StoredOnce, DistinctIds, HasId, Find;
    var Busy(list, h, n) := s.sender;
    RemoveRel(v5, s.store, h.purge[n].key.id);
  }

  lemma OnlyBusyAdvances(v5: bool, s: State, sent: bool)
    requires !s.sender.Busy?
    ensures Apply(v5, s, Advance(sent)) == s
  {
  }

  /** An acknowledgement that is ignored has no operations. */
  lemma BusyWithin(v5: bool, s: State, a: E.State)
    requires Shows(v5, s, a) && s.sender.Busy?
    ensures s.sender.done <= |Ops(v5, s.sender.list, s.sender.handler)|
    ensures s.sender.handler.Ack? && s.sender.done < |Ops(v5, s.sender.list, s.sender.handler)| ==>
              Judge(v5, s.sender.list, s.sender.handler.packet) != Ignore
  {
    hide Table, TableOf, WellFormedStore, Compatible, StoredOnce, DistinctIds, Find, RemoveSentOps, PubrelOps,
        PublishOps;
  }

  lemma FollowAdvance(v5: bool, s: State, sent: bool, a: E.State) returns (m: Move)
    requires Shows(v5, s, a) && Q.OwedOk(a)
    ensures Shows(v5, Apply(v5, s, Advance(sent)), Follow(v5, a, m))
  {
    hide Apply, E.Apply, Shows, Judge, Ops, Q.OwedOk;
    m := Stutter;
    if !s.sender.Busy? {
      OnlyBusyAdvances(v5, s, sent);
    } else {
      var Busy(list, h, n) := s.sender;
      BusyWithin(v5, s, a);
      if n == |Ops(v5, list, h)| {
        FollowFinish(v5, s, sent, a);
      } else {
        match h {
          case Start(_, _) => m := FollowStart(v5, s, sent, a);
          case Resend(e) => m := FollowResend(v5, s, sent, a);
          case Restart(_, _) => FollowPurge(v5, s, sent, a);
          case Ack(p) =>
            if Judge(v5, list, p) == Drop { FollowDrop(v5, s, sent, a); }
            else { m := FollowRelease(v5, s, sent, a); }
        }
      }
    }
  }

  lemma FollowResend(v5: bool, s: State, sent: bool, a: E.State) returns (m: Move)
    requires Shows(v5, s, a) && s.sender.Busy? && s.sender.handler.Resend?
    requires s.sender.done < |Ops(v5, s.sender.list, s.sender.handler)|
    ensures Shows(v5, Apply(v5, s, Advance(sent)), Follow(v5, a, m))
  {
    ResendEntry(v5, s, a);
    if s.sender.handler.entry.msg.qos == 1 || s.sender.handler.entry.next == PUBREC {
      m := FollowResendPublish(v5, s, sent, a);
    } else {
      m := FollowResendPubrel(v5, s, sent, a);
    }
  }

  lemma FollowFinish(v5: bool, s: State, sent: bool, a: E.State)
    requires Shows(v5, s, a) && s.sender.Busy? && s.sender.done == |Ops(v5, s.sender.list, s.sender.handler)|
    ensures Shows(v5, Apply(v5, s, Advance(sent)), a)
  {
    hide Table, TableOf, WellFormedStore, Compatible, StoredOnce, DistinctIds, HasId, Find, RemoveSentOps, Fits;
  }

  // ----- crash and restart -----

  lemma PurgeOk(v5: bool, store: Store, keys: seq<Key>, i: nat)
    requires WellFormedStore(v5, store) && i < |PurgeOps(store, keys)|
    ensures var op := PurgeOps(store, keys)[i];
            op.Remove? && op.key.v5 == v5 && op.key.kind == PUBREL_SENT && Key(v5, SENT, op.key.id) !in store
  {
    hide Fits, PurgeOps;
    PurgeIs(store, keys);
  }

  lemma RestorableFits(v5: bool, store: Store, x: int)
    requires WellFormedStore(v5, store) && Restorable(store) && x in Table(v5, store)
    ensures Fits(Key(v5, PUBREL_SENT, x))
  {
    hide Fits;
    InTable(v5, store, x);
  }

  /** A restorable store satisfies what the exchange asks of a restart. */
  lemma RestartAllowed(v5: bool, a: E.State, table: map<int, E.Entry>)
    requires Compatible(v5, a.out, table) && StoredOnce(table, a.published)
    requires forall x | x in table :: Fits(Key(v5, PUBREL_SENT, x))
    ensures E.RestartOk(a, table)
    ensures Compatible(v5, table, table)
  {
    hide Fits;
  }

  lemma FollowCrash(v5: bool, s: State, keys: seq<Key>, a: E.State) returns (m: Move)
    requires Shows(v5, s, a)
    ensures Shows(v5, Apply(v5, s, Crash(keys)), Follow(v5, a, m))
  {
    hide Table, TableOf, WellFormedStore, Fits, Compatible, StoredOnce, DistinctIds, HasId, Find, Restorable,
         Restored, PurgeOps, Enumerates, Judge, RemoveSentOps, E.RestartOk;
    m := Stutter;
    if !s.sender.Failed? && Enumerates(keys, s.store) {
      if Restorable(s.store) {
        forall i | 0 <= i < |PurgeOps(s.store, keys)|
          ensures var op := PurgeOps(s.store, keys)[i];
                  op.Remove? && op.key.v5 == v5 && op.key.kind == PUBREL_SENT && Key(v5, SENT, op.key.id) !in s.store
        {
          PurgeOk(v5, s.store, keys, i);
        }
        RestoredMirrors(v5, s.store, keys);
        forall x | x in Table(v5, s.store) ensures Fits(Key(v5, PUBREL_SENT, x)) { RestorableFits(v5, s.store, x); }
        RestartAllowed(v5, a, Table(v5, s.store));
        NothingDistinct();
        m := Move(E.Restart(Table(v5, s.store)));
      } else {
        m := Move(E.Reconnect);
      }
    }
  }

  lemma NothingDistinct()
    ensures DistinctIds([])
  {
  }

  lemma FollowReceiver(v5: bool, s: State, free: bool, sent: bool, a: E.State)
    requires Shows(v5, s, a)
    ensures Shows(v5, Apply(v5, s, ReceiverTakesPacket(free, sent)), E.Apply(v5, a, E.ReceiverReceives(free, sent)))
  {
    hide OutOf, HandlerOk, Table, WellFormedStore, Compatible, StoredOnce, E.React, E.NoPub, E.NoAck, Given, Pending,
         E.RestartOk, E.Acceptable, E.Acknowledge;
    if s.s2r != [] {
      var reply := E.React(v5, s.inb, s.s2r[0], free).reply;
      assert (Pending(v5, s.sender) + s.r2s) + reply == Pending(v5, s.sender) + (s.r2s + reply);
      FrameHandler(v5, s, Apply(v5, s, ReceiverTakesPacket(free, sent)));
    }
  }

  lemma FrameHandler(v5: bool, s: State, t: State)
    requires
      && HandlerOk(v5, s) && t.sender == s.sender && t.store == s.store
      && (t.published == s.published || !s.sender.Busy?)
    ensures HandlerOk(v5, t)
  {
  }

  lemma FollowReconnect(v5: bool, s: State, a: E.State) returns (m: Move)
    requires Shows(v5, s, a)
    ensures Shows(v5, Apply(v5, s, Reconnect), Follow(v5, a, m))
  {
    hide Table, TableOf, WellFormedStore, Compatible, StoredOnce, DistinctIds, E.NoPub, E.NoAck;
    m := if s.sender.Idle? then Move(E.Reconnect) else Stutter;
  }

  lemma MorePublished(table: map<int, E.Entry>, published: seq<Message>, m: Message)
    requires StoredOnce(table, published)
    ensures StoredOnce(table, published + [m])
  {
  }

  lemma FollowQos0(v5: bool, s: State, msg: Message, sent: bool, a: E.State) returns (m: Move)
    requires Shows(v5, s, a)
    ensures Shows(v5, Apply(v5, s, SubmitQos0(msg, sent)), Follow(v5, a, m))
  {
    hide Table, TableOf, WellFormedStore, Compatible, StoredOnce, DistinctIds, E.NoPub, E.NoAck;
    MorePublished(Table(v5, s.store), s.published, msg);
    m := if s.sender.Idle? then Move(E.SendQos0(msg, sent)) else Stutter;
  }

  lemma FollowStep(v5: bool, s: State, step: Step, a: E.State) returns (m: Move)
    requires Shows(v5, s, a) && E.PacketsOk(a) && Q.OwedOk(a)
    ensures Shows(v5, Apply(v5, s, step), Follow(v5, a, m))
  {
    hide Shows, Apply, E.Apply, E.PacketsOk, Q.OwedOk;
    m := Stutter;
    match step
    case Submit(x, msg) => FollowSubmit(v5, s, x, msg, a);
    case TakeId(x) => m := FollowTakeId(v5, s, x, a);
    case SubmitQos0(msg, sent) => m := FollowQos0(v5, s, msg, sent, a);
    case TakePacket => m := FollowTake(v5, s, a);
    case Retry(i) => FollowRetry(v5, s, i, a);
    case Advance(sent) => m := FollowAdvance(v5, s, sent, a);
    case ReceiverTakesPacket(free, sent) =>
      FollowReceiver(v5, s, free, sent, a);
      m := Move(E.ReceiverReceives(free, sent));
    case Reconnect => m := FollowReconnect(v5, s, a);
    case Crash(keys) => m := FollowCrash(v5, s, keys, a);
  }

  // ----- every run -----

  lemma InitShows(v5: bool)
    ensures Shows(v5, Run(v5, []), E.Run(v5, []))
  {
    hide Fits;
    var s, a := Run(v5, []), E.Run(v5, []);
    assert s == Init && a == E.Init;
    assert Table(v5, map[]) == map[] by { hide WellFormedStore, StoredEntry; }
  }

  lemma RunOneMore(v5: bool, exchange: seq<E.Step>, m: Move) returns (more: seq<E.Step>)
    ensures exchange <= more && E.Run(v5, more) == Follow(v5, E.Run(v5, exchange), m)
  {
    hide E.Apply;
    more := exchange;
    if m.Move? {
      more := exchange + [m.step];
      assert more[..|exchange|] == exchange;
    }
  }

  /** Every session run, whatever the ids, the store order, the losses and the crashes, is a run of the exchange. */
  lemma {:induction false} Refines(v5: bool, steps: seq<Step>) returns (exchange: seq<E.Step>)
    ensures Shows(v5, Run(v5, steps), E.Run(v5, exchange))
  {
    if steps == [] {
      exchange := [];
      InitShows(v5);
    } else {
      hide Shows, Apply, E.Run, E.HistoryOk, E.IdInv, E.FinishedOk, E.Qos1Ok, E.LogOk, E.PacketsOk, Follow;
      exchange := Refines(v5, steps[..|steps| - 1]);
      X.RunInv(v5, exchange);
      Q.RunOwed(v5, exchange);
      var m := FollowStep(v5, Run(v5, steps[..|steps| - 1]), steps[|steps| - 1], E.Run(v5, exchange));
      exchange := RunOneMore(v5, exchange, m);
    }
  }

  /**
   * QoS 2, for both delivery rules: in every run a message is delivered at most once, and exactly once
   * when the sender, between handlers, no longer has it.
   */
  lemma Qos2ExactlyOnce(v5: bool, steps: seq<Step>, k: nat)
    ensures var s := Run(v5, steps);
            k < |s.published| && s.published[k].qos == 2 ==>
              && multiset(s.delivered)[s.published[k]] <= 1
              && (s.sender.Idle? && (forall e | e in s.sender.list :: e.msg != s.published[k]) ==>
                    multiset(s.delivered)[s.published[k]] == 1)
  {
    var exchange := Refines(v5, steps);
    var s, a := Run(v5, steps), E.Run(v5, exchange);
    X.Qos2Deliveries(v5, exchange, k);
    if k < |s.published| && E.Unfinished(a, s.published[k]) && s.sender.Idle? {
      var x :| x in a.out && a.out[x].msg == s.published[k];
      var e := TableWitness(s.sender.list, x);
      assert e.msg == s.published[k];
    }
  }

  /** Whatever is delivered was published, with this content, and different publications are told apart. */
  lemma DeliversPublished(v5: bool, steps: seq<Step>, i: nat)
    ensures var s := Run(v5, steps);
            i < |s.delivered| ==>
              s.delivered[i].tag < |s.published| && s.published[s.delivered[i].tag] == s.delivered[i]
    ensures var s := Run(v5, steps); forall k | 0 <= k < |s.published| :: s.published[k].tag == k
  {
    var exchange := Refines(v5, steps);
    X.RunInv(v5, exchange);
  }

  /** Once a PUBREL has been written for an exchange no PUBLISH of it is written again, across any crashes. */
  lemma NoPublishAfterPubrel(v5: bool, steps: seq<Step>, i: nat, j: nat)
    ensures var s := Run(v5, steps);
            i < j < |s.log| && s.log[i].PubrelSent? ==> s.log[j] != E.PublishSent(s.log[i].tag)
  {
    var exchange := Refines(v5, steps);
    X.RunInv(v5, exchange);
  }

  /** Refinement goes on from any point of a run. */
  lemma {:induction false} RefinesOn(v5: bool, steps: seq<Step>, n: nat, exchange: seq<E.Step>)
    returns (longer: seq<E.Step>)
    requires n <= |steps| && Shows(v5, Run(v5, steps[..n]), E.Run(v5, exchange))
    ensures exchange <= longer && Shows(v5, Run(v5, steps), E.Run(v5, longer))
  {
    hide Shows, Apply, E.Run, E.HistoryOk, E.IdInv, E.FinishedOk, E.Qos1Ok, E.LogOk, E.PacketsOk, Follow, E.Apply;
    if n == |steps| {
      assert steps[..n] == steps;
      longer := exchange;
    } else {
      var before := steps[..|steps| - 1];
      assert before[..n] == steps[..n];
      var mid := RefinesOn(v5, before, n, exchange);
      X.RunInv(v5, mid);
      Q.RunOwed(v5, mid);
      var m := FollowStep(v5, Run(v5, before), steps[|steps| - 1], E.Run(v5, mid));
      longer := RunOneMore(v5, mid, m);
    }
  }

  /** Between handlers: the sender has the QoS 2 message past its PUBREC phase, or no longer has it. */
  ghost predicate PastPubrec(s: State, k: nat) {
    s.sender.Idle? && k < |s.published| && s.published[k].qos == 2
    && forall e | e in s.sender.list && e.msg.tag == k :: e.next == PUBCOMP
  }

  lemma ShowsPast(v5: bool, s: State, a: E.State, k: nat)
    requires Shows(v5, s, a) && E.HistoryOk(a) && s.sender.Idle?
    ensures PastPubrec(s, k) <==> X.Past(a, k)
  {
    hide Table, WellFormedStore, Compatible, StoredOnce, TableOf, DistinctIds;
    var list := s.sender.list;
    if PastPubrec(s, k) {
      forall x | x in a.out && a.out[x].msg.tag == k ensures a.out[x].msg.qos == 2 && a.out[x].next == PUBCOMP {
        var e := TableWitness(list, x);
      }
    }
    if X.Past(a, k) {
      forall e | e in list && e.msg.tag == k ensures e.next == PUBCOMP {
        TableMember(list, e);
      }
    }
  }

  /** Whatever happens after, crashes included, the message is never again waiting for PUBREC. */
  lemma PhaseNeverBack(v5: bool, steps: seq<Step>, n: nat, k: nat)
    requires n <= |steps| && PastPubrec(Run(v5, steps[..n]), k)
    ensures Run(v5, steps).sender.Idle? ==> PastPubrec(Run(v5, steps), k)
  {
    hide Shows, PastPubrec, X.Past, Apply, E.Apply, E.IdInv, E.FinishedOk, E.Qos1Ok, E.LogOk, E.PacketsOk, E.HistoryOk;
    var exchange := Refines(v5, steps[..n]);
    var longer := RefinesOn(v5, steps, n, exchange);
    X.RunInv(v5, exchange);
    X.RunInv(v5, longer);
    IdleNow(Run(v5, steps[..n]), k);
    ShowsPast(v5, Run(v5, steps[..n]), E.Run(v5, exchange), k);
    assert longer[..|exchange|] == exchange;
    X.PhaseNeverBack(v5, longer, |exchange|, k);
    if Run(v5, steps).sender.Idle? { ShowsPast(v5, Run(v5, steps), E.Run(v5, longer), k); }
  }

  lemma IdleNow(s: State, k: nat)
    requires PastPubrec(s, k)
    ensures s.sender.Idle?
  {
  }
}
