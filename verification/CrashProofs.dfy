// Stopping a handler between any two store operations, and what a restart makes of the store.

module CrashProofs {
  import opened Packets
  import opened Persistence
  import opened Handlers
  import Exchange

  // ----- lists as tables -----

  lemma {:induction false} TableOfFind(list: seq<OutMsg>, x: int)
    ensures x in TableOf(list) <==> Find(list, x) < |list|
    ensures x in TableOf(list) ==> TableOf(list)[x] == EntryOf(list[Find(list, x)])
  {
    if list != [] { TableOfFind(list[1..], x); }
  }

  lemma FindDistinct(list: seq<OutMsg>, i: nat)
    requires DistinctIds(list) && i < |list|
    ensures Find(list, list[i].id) == i
  {
  }

  lemma TableMember(list: seq<OutMsg>, e: OutMsg)
    requires DistinctIds(list) && e in list
    ensures e.id in TableOf(list) && TableOf(list)[e.id] == EntryOf(e)
  {
    var i :| 0 <= i < |list| && list[i] == e;
    FindDistinct(list, i);
    TableOfFind(list, e.id);
  }

  lemma TableWitness(list: seq<OutMsg>, x: int) returns (e: OutMsg)
    requires x in TableOf(list)
    ensures e in list && e.id == x && TableOf(list)[x] == EntryOf(e)
  {
    TableOfFind(list, x);
    e := list[Find(list, x)];
  }

  lemma SameElementsSameTable(a: seq<OutMsg>, b: seq<OutMsg>)
    requires DistinctIds(a) && DistinctIds(b) && forall e :: e in a <==> e in b
    ensures TableOf(a) == TableOf(b)
  {
    hide DistinctIds, TableOf;
    forall x | x in TableOf(a) ensures x in TableOf(b) && TableOf(b)[x] == TableOf(a)[x] {
      var e := TableWitness(a, x);
      TableMember(b, e);
    }
    forall x | x in TableOf(b) ensures x in TableOf(a) {
      var e := TableWitness(b, x);
      TableMember(a, e);
    }
  }

  // ----- the restored list -----

  lemma {:induction false} InsertElements(list: seq<OutMsg>, m: OutMsg, e: OutMsg)
    ensures e in InsertInOrder(list, m) <==> e == m || e in list
  {
    if list != [] && m.id >= list[0].id {
      InsertElements(list[1..], m, e);
      assert list == [list[0]] + list[1..];
    }
  }

  lemma {:induction false} InsertSorted(list: seq<OutMsg>, m: OutMsg)
    requires SortedById(list) && forall e | e in list :: e.id != m.id
    ensures SortedById(InsertInOrder(list, m))
  {
    if list != [] && m.id > list[0].id {
      InsertSorted(list[1..], m);
      var r := InsertInOrder(list[1..], m);
      forall i | 0 <= i < |r| ensures list[0].id < r[i].id {
        InsertElements(list[1..], m, r[i]);
      }
    }
  }

  /** What the restore loop puts in the list for the keys seen so far, in any order of keys. */
  lemma {:induction false} RestoreSortedIs(v5: bool, store: Store, keys: seq<Key>)
    requires WellFormedStore(v5, store)
    requires forall i, j | 0 <= i < j < |keys| :: keys[i] != keys[j]
    ensures SortedById(RestoreSorted(v5, store, keys))
    ensures forall e :: e in RestoreSorted(v5, store, keys) <==>
              Key(v5, SENT, e.id) in keys && Key(v5, SENT, e.id) in store
              && e == RestoredMsg(v5, store, store[Key(v5, SENT, e.id)])
  {
    if keys != [] {
      var k, rest := keys[|keys| - 1], keys[..|keys| - 1];
      RestoreSortedIs(v5, store, rest);
      assert keys == rest + [k];
      var list := RestoreSorted(v5, store, rest);
      if k in store && k.kind == SENT {
        var m := RestoredMsg(v5, store, store[k]);
        assert m.id == k.id && k == Key(v5, SENT, m.id);
        forall e | e in list ensures e.id != m.id { assert k !in rest; }
        InsertSorted(list, m);
        forall e ensures e in InsertInOrder(list, m) <==> e == m || e in list { InsertElements(list, m, e); }
      }
    }
  }

  lemma InTail(a: seq<OutMsg>, e: OutMsg)
    requires SortedById(a) && a != []
    ensures e in a[1..] <==> e in a && e != a[0]
  {
    assert a == [a[0]] + a[1..];
  }

  lemma {:induction false} SortedUnique(a: seq<OutMsg>, b: seq<OutMsg>)
    requires SortedById(a) && SortedById(b) && forall e :: e in a <==> e in b
    ensures a == b
  {
    assert |a| > 0 ==> a[0] in a;
    assert |b| > 0 ==> b[0] in b;
    if a != [] && b != [] {
      assert a[0] in b && b[0] in a;
      assert a[0] == b[0];
      forall e ensures e in a[1..] <==> e in b[1..] {
        InTail(a, e);
        InTail(b, e);
      }
      SortedUnique(a[1..], b[1..]);
    }
  }

  /** The order in which the store enumerates its keys does not matter. */
  lemma RestoreIgnoresKeyOrder(v5: bool, store: Store, keys: seq<Key>, keys': seq<Key>)
    requires WellFormedStore(v5, store) && Enumerates(keys, store) && Enumerates(keys', store)
    ensures Restored(v5, store, keys) == Restored(v5, store, keys')
  {
    RestoreSortedIs(v5, store, keys);
    RestoreSortedIs(v5, store, keys');
    SortedUnique(RestoreSorted(v5, store, keys), RestoreSorted(v5, store, keys'));
  }

  // ----- the restored list against the store -----

  /** The list holds exactly the unfinished messages of the store, in the store's phases. */
  ghost predicate Mirrors(v5: bool, list: seq<OutMsg>, store: Store) {
    && WellFormedStore(v5, store)
    && DistinctIds(list)
    && TableOf(list) == Table(v5, store)
  }

  lemma TurnedElements(list: seq<OutMsg>, r: nat)
    requires SortedById(list) && r <= |list|
    ensures var w := list[r..] + list[..r]; DistinctIds(w) && forall e :: e in w <==> e in list
  {
    var w, n := list[r..] + list[..r], |list| - r;
    assert list == list[..r] + list[r..];
    forall i, j | 0 <= i < j < |w| ensures w[i].id != w[j].id {
      assert w[i] == list[if i < n then i + r else i - n] && w[j] == list[if j < n then j + r else j - n];
    }
  }

  lemma WrappedElements(list: seq<OutMsg>)
    requires SortedById(list)
    ensures DistinctIds(Wrapped(list)) && forall e :: e in Wrapped(list) <==> e in list
  {
    hide SortedById, DistinctIds;
    if list == [] { TurnedElements(list, 0); assert list[0..] + list[..0] == []; }
        else { TurnedElements(list, WidestGap(list, |list|)); }
  }

  lemma WrappedKeeps(list: seq<OutMsg>)
    requires SortedById(list)
    ensures DistinctIds(Wrapped(list)) && TableOf(Wrapped(list)) == TableOf(list)
  {
    WrappedElements(list);
    assert DistinctIds(list);
    hide Wrapped, SortedById;
    SameElementsSameTable(Wrapped(list), list);
  }

  lemma RestoredListInStore(v5: bool, store: Store, keys: seq<Key>, x: int)
    requires WellFormedStore(v5, store) && Enumerates(keys, store) && x in TableOf(RestoreSorted(v5, store, keys))
    ensures x in Table(v5, store) && TableOf(RestoreSorted(v5, store, keys))[x] == Table(v5, store)[x]
  {
    RestoreSortedIs(v5, store, keys);
    hide TableOf, DistinctIds, SortedById, RestoreSorted, Fits;
    var e := TableWitness(RestoreSorted(v5, store, keys), x);
    assert Key(v5, SENT, x) in store;
  }

  lemma StoreInRestoredList(v5: bool, store: Store, keys: seq<Key>, x: int)
    requires WellFormedStore(v5, store) && Enumerates(keys, store) && x in Table(v5, store)
    ensures x in TableOf(RestoreSorted(v5, store, keys))
  {
    RestoreSortedIs(v5, store, keys);
    assert DistinctIds(RestoreSorted(v5, store, keys));
    hide TableOf, DistinctIds, SortedById, RestoreSorted, Fits;
    var e := RestoredMsg(v5, store, store[Key(v5, SENT, x)]);
    assert e.id == x && e in RestoreSorted(v5, store, keys);
    TableMember(RestoreSorted(v5, store, keys), e);
  }

  lemma RestoredMirrors(v5: bool, store: Store, keys: seq<Key>)
    requires WellFormedStore(v5, store) && Enumerates(keys, store)
    ensures Mirrors(v5, Restored(v5, store, keys), store)
  {
    var list := RestoreSorted(v5, store, keys);
    RestoreSortedIs(v5, store, keys);
    WrappedKeeps(list);
    hide TableOf, Table, DistinctIds, SortedById, RestoreSorted, Wrapped, WellFormedStore, Enumerates;
    forall x | x in TableOf(list) ensures x in Table(v5, store) && TableOf(list)[x] == Table(v5, store)[x] {
      RestoredListInStore(v5, store, keys, x);
    }
    forall x | x in Table(v5, store) ensures x in TableOf(list) {
      StoreInRestoredList(v5, store, keys, x);
    }
  }

  // ----- one handler, stopped after n operations -----

  /** Between handlers: memory and store agree, and no PUBREL record outlives its message. */
  ghost predicate Settled(v5: bool, list: seq<OutMsg>, store: Store) {
    && Mirrors(v5, list, store)
    && forall k | k in store :: !Orphan(store, k)
  }

  /** The PUBREL key of a V5 message fits only below five digits; a V5 store with a longer id cannot be restored. */
  ghost predicate ShortIds(v5: bool, store: Store) { v5 ==> forall k | k in store :: k.id < 10000 }

  ghost predicate Enabled(v5: bool, list: seq<OutMsg>, store: Store, h: Handler) {
    match h
    case Start(id, m) => MsgId(id) && (v5 ==> id < 10000) && !HasId(list, id) && (m.qos == 1 || m.qos == 2)
    case Ack(p) => true
    case Resend(e) => e in list
    case Restart(purge, l) =>
      exists keys :: Enumerates(keys, store) && purge == PurgeOps(store, keys) && l == Restored(v5, store, keys)
  }

  lemma ShortFits(k: Key)
    requires MsgId(k.id) && (k.v5 ==> k.id < 10000)
    ensures Fits(k)
  {
    FitsExactly(k);
  }

  function CutStore(store: Store, ops: seq<Op>, n: nat): Store
    requires n <= |ops|
  {
    ApplyOps(store, ops[..n])
  }

  lemma CutStep(store: Store, ops: seq<Op>, n: nat)
    requires n < |ops|
    ensures CutStore(store, ops, n + 1) == ApplyOp(CutStore(store, ops, n), ops[n])
  {
    assert ops[..n + 1][..n] == ops[..n];
  }

  lemma RemoveSentAll(x: int)
    requires MsgId(x) && x < 10000
    ensures RemoveSentOps(x) ==
              [Remove(Key(true, SENT, x)), Remove(Key(true, PUBREL_SENT, x)),
               Remove(Key(false, SENT, x)), Remove(Key(false, PUBREL_SENT, x))]
  {
    ShortFits(Key(true, SENT, x));
    ShortFits(Key(true, PUBREL_SENT, x));
    ShortFits(Key(false, SENT, x));
    ShortFits(Key(false, PUBREL_SENT, x));
    hide Fits;
  }

  lemma CutFour(store: Store, a: Key, b: Key, c: Key, d: Key, n: nat)
    requires n <= 4
    ensures CutStore(store, [Remove(a), Remove(b), Remove(c), Remove(d)], n) ==
              if n == 0 then store
              else if n == 1 then store - {a}
              else if n == 2 then store - {a} - {b}
              else if n == 3 then store - {a} - {b} - {c}
              else store - {a} - {b} - {c} - {d}
  {
    var ops := [Remove(a), Remove(b), Remove(c), Remove(d)];
    assert ops[..0] == [];
    if n > 0 { CutStep(store, ops, 0); }
    if n > 1 { CutStep(store, ops, 1); }
    if n > 2 { CutStep(store, ops, 2); }
    if n > 3 { CutStep(store, ops, 3); }
  }

  lemma RemoveAbsent(store: Store, a: Key, b: Key)
    requires a !in store && b !in store
    ensures store - {a} == store && store - {b} == store
  {
  }

  /** The store during MQTTPersistence_remove, when every key fits. */
  lemma RemoveSentStores(v5: bool, store: Store, x: int, n: nat)
    requires WellFormedStore(v5, store) && MsgId(x) && x < 10000 && n <= 4
    ensures |RemoveSentOps(x)| == 4
    ensures CutStore(store, RemoveSentOps(x), n) ==
              if n < (if v5 then 1 else 3) then store
              else if n < (if v5 then 2 else 4) then store - {Key(v5, SENT, x)}
              else store - {Key(v5, SENT, x)} - {Key(v5, PUBREL_SENT, x)}
  {
    RemoveSentAll(x);
    CutFour(store, Key(true, SENT, x), Key(true, PUBREL_SENT, x), Key(false, SENT, x), Key(false, PUBREL_SENT, x), n);
    var s, r := Key(!v5, SENT, x), Key(!v5, PUBREL_SENT, x);
    assert s !in store && r !in store;
    hide RemoveSentOps, CutStore, WellFormedStore;
    RemoveAbsent(store, s, r);
    RemoveAbsent(store - {Key(v5, SENT, x)} - {Key(v5, PUBREL_SENT, x)}, s, r);
  }

  // ----- single store operations, as changes of the table -----

  lemma PutWellFormed(v5: bool, store: Store, k: Key, r: Record)
    requires WellFormedStore(v5, store) && k.v5 == v5 && MsgId(k.id) && Fits(k) && r.id == k.id
    requires if k.kind == PUBREL_SENT then r.RecPubrel? else r.RecPublish? && (r.msg.qos == 1 || r.msg.qos == 2)
    ensures WellFormedStore(v5, store[k := r])
  {
    hide Fits;
  }

  lemma InTable(v5: bool, store: Store, x: int)
    requires WellFormedStore(v5, store)
    ensures x in Table(v5, store) <==> Key(v5, SENT, x) in store
    ensures x in Table(v5, store) ==>
              store[Key(v5, SENT, x)].RecPublish?
                  && Table(v5, store)[x] == StoredEntry(v5, store, x, store[Key(v5, SENT, x)].msg)
  {
    hide Fits;
    if Key(v5, SENT, x) in store { assert x in SentIds(v5, store); }
  }

  lemma PutSentAt(v5: bool, store: Store, x: int, dup: bool, m: Message, y: int)
    requires WellFormedStore(v5, store) && WellFormedStore(v5, store[Key(v5, SENT, x) := RecPublish(x, dup, m)])
    ensures var a, b := Table(v5, store[Key(v5, SENT, x) := RecPublish(x, dup, m)]),
              Table(v5, store)[x := StoredEntry(v5, store, x, m)];
            (y in a <==> y in b) && (y in a && y in b ==> a[y] == b[y])
  {
    hide Fits, WellFormedStore, Table;
    InTable(v5, store[Key(v5, SENT, x) := RecPublish(x, dup, m)], y);
    InTable(v5, store, y);
  }

  lemma PutSent(v5: bool, store: Store, x: int, dup: bool, m: Message)
    requires WellFormedStore(v5, store) && MsgId(x) && Fits(Key(v5, SENT, x)) && (m.qos == 1 || m.qos == 2)
    ensures var t := store[Key(v5, SENT, x) := RecPublish(x, dup, m)];
            && WellFormedStore(v5, t)
            && Table(v5, t) == Table(v5, store)[x := StoredEntry(v5, store, x, m)]
  {
    PutWellFormed(v5, store, Key(v5, SENT, x), RecPublish(x, dup, m));
    hide Fits, WellFormedStore, Table, StoredEntry;
    var a, b := Table(v5, store[Key(v5, SENT, x) := RecPublish(x, dup, m)]),
        Table(v5, store)[x := StoredEntry(v5, store, x, m)];
    forall y ensures (y in a <==> y in b) && (y in a && y in b ==> a[y] == b[y]) {
      PutSentAt(v5, store, x, dup, m, y);
    }
  }

  lemma PutRelAt(v5: bool, store: Store, x: int, y: int)
    requires WellFormedStore(v5, store) && WellFormedStore(v5, store[Key(v5, PUBREL_SENT, x) := RecPubrel(x)])
    requires x in Table(v5, store) && Table(v5, store)[x].msg.qos == 2
    ensures var a, b := Table(v5, store[Key(v5, PUBREL_SENT, x) := RecPubrel(x)]),
              Table(v5, store)[x := Table(v5, store)[x].(next := PUBCOMP)];
            (y in a <==> y in b) && (y in a && y in b ==> a[y] == b[y])
  {
    hide Fits, WellFormedStore, Table;
    InTable(v5, store[Key(v5, PUBREL_SENT, x) := RecPubrel(x)], y);
    InTable(v5, store, y);
  }

  lemma PutRel(v5: bool, store: Store, x: int)
    requires WellFormedStore(v5, store) && MsgId(x) && Fits(Key(v5, PUBREL_SENT, x))
    requires x in Table(v5, store) && Table(v5, store)[x].msg.qos == 2
    ensures var t := store[Key(v5, PUBREL_SENT, x) := RecPubrel(x)];
            && WellFormedStore(v5, t)
            && Table(v5, t) == Table(v5, store)[x := Table(v5, store)[x].(next := PUBCOMP)]
  {
    PutWellFormed(v5, store, Key(v5, PUBREL_SENT, x), RecPubrel(x));
    hide Fits, WellFormedStore, Table;
    var a, b := Table(v5, store[Key(v5, PUBREL_SENT, x) := RecPubrel(x)]),
        Table(v5, store)[x := Table(v5, store)[x].(next := PUBCOMP)];
    forall y ensures (y in a <==> y in b) && (y in a && y in b ==> a[y] == b[y]) {
      PutRelAt(v5, store, x, y);
    }
  }

  lemma RemoveWellFormed(v5: bool, store: Store, k: Key)
    requires WellFormedStore(v5, store)
    ensures WellFormedStore(v5, store - {k})
  {
    hide Fits;
  }

  lemma RemoveSentAt(v5: bool, store: Store, x: int, y: int)
    requires WellFormedStore(v5, store) && WellFormedStore(v5, store - {Key(v5, SENT, x)})
    ensures var a, b := Table(v5, store - {Key(v5, SENT, x)}), Table(v5, store) - {x};
            (y in a <==> y in b) && (y in a && y in b ==> a[y] == b[y])
  {
    hide Fits, WellFormedStore, Table;
    InTable(v5, store - {Key(v5, SENT, x)}, y);
    InTable(v5, store, y);
  }

  lemma RemoveSent(v5: bool, store: Store, x: int)
    requires WellFormedStore(v5, store)
    ensures var t := store - {Key(v5, SENT, x)};
            WellFormedStore(v5, t) && Table(v5, t) == Table(v5, store) - {x}
  {
    RemoveWellFormed(v5, store, Key(v5, SENT, x));
    hide Fits, WellFormedStore, Table;
    var a, b := Table(v5, store - {Key(v5, SENT, x)}), Table(v5, store) - {x};
    forall y ensures (y in a <==> y in b) && (y in a && y in b ==> a[y] == b[y]) {
      RemoveSentAt(v5, store, x, y);
    }
  }

  lemma RemoveRelAt(v5: bool, store: Store, x: int, y: int)
    requires WellFormedStore(v5, store) && WellFormedStore(v5, store - {Key(v5, PUBREL_SENT, x)})
    requires Key(v5, SENT, x) !in store
    ensures var a, b := Table(v5, store - {Key(v5, PUBREL_SENT, x)}), Table(v5, store);
            (y in a <==> y in b) && (y in a && y in b ==> a[y] == b[y])
  {
    hide Fits, WellFormedStore, Table;
    InTable(v5, store - {Key(v5, PUBREL_SENT, x)}, y);
    InTable(v5, store, y);
  }

  lemma RemoveRel(v5: bool, store: Store, x: int)
    requires WellFormedStore(v5, store) && Key(v5, SENT, x) !in store
    ensures var t := store - {Key(v5, PUBREL_SENT, x)};
            WellFormedStore(v5, t) && Table(v5, t) == Table(v5, store)
  {
    RemoveWellFormed(v5, store, Key(v5, PUBREL_SENT, x));
    hide Fits, WellFormedStore, Table;
    var a, b := Table(v5, store - {Key(v5, PUBREL_SENT, x)}), Table(v5, store);
    forall y ensures (y in a <==> y in b) && (y in a && y in b ==> a[y] == b[y]) {
      RemoveRelAt(v5, store, x, y);
    }
  }

  // ----- changes of the list, as changes of the table -----

  lemma AppendTable(list: seq<OutMsg>, e: OutMsg)
    requires DistinctIds(list) && !HasId(list, e.id)
    ensures DistinctIds(list + [e]) && TableOf(list + [e]) == TableOf(list)[e.id := EntryOf(e)]
  {
    var l := list + [e];
    var a, b := TableOf(l), TableOf(list)[e.id := EntryOf(e)];
    forall x
      ensures x in a <==> x in b
      ensures x in a && x in b ==> a[x] == b[x]
    {
      TableOfFind(list, x);
      TableOfFind(l, x);
      if x == e.id { FindDistinct(l, |list|); }
      else if Find(list, x) < |list| { FindDistinct(l, Find(list, x)); }
    }
  }

  lemma WithoutElements(list: seq<OutMsg>, i: nat)
    requires DistinctIds(list) && i < |list|
    ensures DistinctIds(Without(list, i))
    ensures forall e :: e in Without(list, i) <==> e in list && e.id != list[i].id
  {
    var l := Without(list, i);
    assert forall j | 0 <= j < |l| :: l[j] == if j < i then list[j] else list[j + 1];
    forall e | e in list && e.id != list[i].id ensures e in l {
      var j :| 0 <= j < |list| && list[j] == e;
      assert l[if j < i then j else j - 1] == e;
    }
  }

  lemma WithoutAt(list: seq<OutMsg>, i: nat, x: int)
    requires DistinctIds(list) && i < |list|
    ensures var a, b := TableOf(Without(list, i)), TableOf(list) - {list[i].id};
            (x in a <==> x in b) && (x in a && x in b ==> a[x] == b[x])
  {
    var l := Without(list, i);
    WithoutElements(list, i);
    hide Without, TableOf, DistinctIds;
    if x in TableOf(l) {
      var e := TableWitness(l, x);
      TableMember(list, e);
    } else if x in TableOf(list) && x != list[i].id {
      var e := TableWitness(list, x);
      TableMember(l, e);
    }
  }

  lemma WithoutTable(list: seq<OutMsg>, i: nat)
    requires DistinctIds(list) && i < |list|
    ensures DistinctIds(Without(list, i)) && TableOf(Without(list, i)) == TableOf(list) - {list[i].id}
  {
    WithoutElements(list, i);
    hide Without, TableOf, DistinctIds;
    var a, b := TableOf(Without(list, i)), TableOf(list) - {list[i].id};
    forall x ensures (x in a <==> x in b) && (x in a && x in b ==> a[x] == b[x]) { WithoutAt(list, i, x); }
  }

  lemma UpdateTable(list: seq<OutMsg>, i: nat, e: OutMsg)
    requires DistinctIds(list) && i < |list| && e.id == list[i].id
    ensures DistinctIds(list[i := e]) && TableOf(list[i := e]) == TableOf(list)[e.id := EntryOf(e)]
  {
    var l := list[i := e];
    forall x
      ensures x in TableOf(l) <==> x in TableOf(list) || x == e.id
      ensures x in TableOf(l) ==> TableOf(l)[x] == if x == e.id then EntryOf(e) else TableOf(list)[x]
    {
      TableOfFind(list, x);
      TableOfFind(l, x);
      if Find(list, x) < |list| { FindDistinct(l, Find(list, x)); }
      if Find(l, x) < |l| { FindDistinct(list, Find(l, x)); }
      FindDistinct(l, i);
    }
  }

  // ----- each handler -----

  /** The list and the abstract sender agree on what an acknowledgement does. */
  lemma AckTable(v5: bool, list: seq<OutMsg>, p: Packet)
    requires DistinctIds(list)
    ensures DistinctIds(AckAfter(v5, list, p))
    ensures TableOf(AckAfter(v5, list, p)) == Exchange.Acknowledge(v5, TableOf(list), p)
  {
    var i := Find(list, p.id);
    TableOfFind(list, p.id);
    match Judge(v5, list, p)
    case Ignore =>
    case Drop => WithoutTable(list, i);
    case Release => UpdateTable(list, i, list[i].(next := PUBCOMP));
  }

  /** A finished message with an id of five digits, whose keys MQTTPersistence_remove does not all reach. */
  predicate LongDrop(v5: bool, list: seq<OutMsg>, h: Handler) {
    h.Ack? && Judge(v5, list, h.packet) == Drop && h.packet.id >= 10000
  }

  /** The store after n operations of a handler, and the unfinished messages in it. */
  ghost predicate CutOk(v5: bool, list: seq<OutMsg>, store: Store, h: Handler, n: nat)
    requires WellFormedStore(v5, store) && n <= |Ops(v5, list, h)|
  {
    var t := CutStore(store, Ops(v5, list, h), n);
    && WellFormedStore(v5, t)
    && ShortIds(v5, t)
    && Table(v5, t) == (if n < CommitAt(v5, list, h) then Table(v5, store) else TableOf(After(v5, list, h)))
    && (n == |Ops(v5, list, h)| ==>
          (LongDrop(v5, list, h) || CommitAt(v5, list, h) <= n) && forall k | k in t :: !Orphan(t, k))
  }

  lemma TwoOps(store: Store, a: Op, p: Packet, n: nat)
    requires n <= 2
    ensures CutStore(store, [a] + [Send(p)], n) == if n == 0 then store else ApplyOp(store, a)
  {
    var ops := [a] + [Send(p)];
    assert ops[..0] == [] && ops[0] == a && ops[1] == Send(p);
    if n > 0 { CutStep(store, ops, 0); }
    if n > 1 { CutStep(store, ops, 1); }
  }

  lemma IdInTable(v5: bool, list: seq<OutMsg>, store: Store, x: int)
    requires Mirrors(v5, list, store)
    ensures HasId(list, x) <==> Key(v5, SENT, x) in store
    ensures HasId(list, x) <==> Find(list, x) < |list|
    ensures HasId(list, x) ==> EntryOf(list[Find(list, x)]) == Table(v5, store)[x]
  {
    TableOfFind(list, x);
    assert x in TableOf(list) <==> x in SentIds(v5, store);
  }

  lemma PublishTwo(v5: bool, x: int, dup: bool, m: Message)
    requires MsgId(x) && (v5 ==> x < 10000)
    ensures PublishOps(v5, x, dup, m) == [Put(Key(v5, SENT, x), RecPublish(x, dup, m))] + [Send(Publish(x, dup, m))]
  {
    ShortFits(Key(v5, SENT, x));
  }

  lemma PubrelTwo(v5: bool, x: int)
    requires MsgId(x) && (v5 ==> x < 10000)
    ensures PubrelOps(v5, x) == [Put(Key(v5, PUBREL_SENT, x), RecPubrel(x))] + [Send(Pubrel(x, false))]
  {
    ShortFits(Key(v5, PUBREL_SENT, x));
  }

  lemma NoRelWithoutSent(v5: bool, store: Store, x: int)
    requires WellFormedStore(v5, store) && forall k | k in store :: !Orphan(store, k)
    requires Key(v5, SENT, x) !in store
    ensures Key(v5, PUBREL_SENT, x) !in store
  {
    assert Key(v5, PUBREL_SENT, x) in store ==> Orphan(store, Key(v5, PUBREL_SENT, x));
  }

  lemma StartCut(v5: bool, list: seq<OutMsg>, store: Store, x: int, m: Message, n: nat)
    requires Settled(v5, list, store) && ShortIds(v5, store) && Enabled(v5, list, store, Start(x, m))
    ensures |Ops(v5, list, Start(x, m))| == 2
    ensures n <= 2 ==> CutOk(v5, list, store, Start(x, m), n)
    ensures DistinctIds(After(v5, list, Start(x, m)))
  {
    hide Fits, PublishOps, Table, TableOf, SentIds, DistinctIds, CutStore, WellFormedStore, HasId, Orphan;
    PublishTwo(v5, x, false, m);
    AppendTable(list, OutMsg(x, m, PUBREC));
    if n <= 2 {
      TwoOps(store, Put(Key(v5, SENT, x), RecPublish(x, false, m)), Publish(x, false, m), n);
      StartStore(v5, list, store, x, m);
    }
  }

  lemma StartStore(v5: bool, list: seq<OutMsg>, store: Store, x: int, m: Message)
    requires Settled(v5, list, store) && ShortIds(v5, store) && Enabled(v5, list, store, Start(x, m))
    ensures var t := store[Key(v5, SENT, x) := RecPublish(x, false, m)];
            && WellFormedStore(v5, t)
            && ShortIds(v5, t)
            && (forall k | k in t :: !Orphan(t, k))
            && Table(v5, t) == TableOf(list)[x := Exchange.Entry(m, PUBREC)]
  {
    ShortFits(Key(v5, SENT, x));
    IdInTable(v5, list, store, x);
    NoRelWithoutSent(v5, store, x);
    hide Fits, Table, TableOf, SentIds, DistinctIds;
    PutSent(v5, store, x, false, m);
  }

  lemma PutAgain(v5: bool, list: seq<OutMsg>, store: Store, e: OutMsg)
    requires Settled(v5, list, store) && ShortIds(v5, store) && e in list
    ensures var t := store[Key(v5, SENT, e.id) := RecPublish(e.id, true, e.msg)];
            WellFormedStore(v5, t) && ShortIds(v5, t) && (forall k | k in t :: !Orphan(t, k))
                && Table(v5, t) == Table(v5, store)
    ensures e.msg.qos == 2 && e.next == PUBCOMP ==>
              var t := store[Key(v5, PUBREL_SENT, e.id) := RecPubrel(e.id)];
              WellFormedStore(v5, t) && ShortIds(v5, t) && (forall k | k in t :: !Orphan(t, k))
                  && Table(v5, t) == Table(v5, store)
  {
    EntryInStore(v5, list, store, e);
    ShortFits(Key(v5, SENT, e.id));
    ShortFits(Key(v5, PUBREL_SENT, e.id));
    hide Fits, TableOf, SentIds, DistinctIds, Table, WellFormedStore;
    PutSent(v5, store, e.id, true, e.msg);
    InTable(v5, store, e.id);
    if e.msg.qos == 2 { PutRel(v5, store, e.id); }
  }

  lemma ResendPublishCut(v5: bool, list: seq<OutMsg>, store: Store, e: OutMsg, n: nat)
    requires
      && Settled(v5, list, store) && ShortIds(v5, store) && e in list
      && (e.msg.qos == 1 || (e.msg.qos == 2 && e.next == PUBREC))
    ensures n <= |Ops(v5, list, Resend(e))| ==> CutOk(v5, list, store, Resend(e), n)
  {
    hide Fits, PublishOps, PubrelOps, TableOf, Table, SentIds, DistinctIds, CutStore, WellFormedStore, ShortIds, Orphan;
    var x := e.id;
    EntryInStore(v5, list, store, e);
    PublishTwo(v5, x, true, e.msg);
    PutAgain(v5, list, store, e);
    if n <= 2 { TwoOps(store, Put(Key(v5, SENT, x), RecPublish(x, true, e.msg)), Publish(x, true, e.msg), n); }
  }

  lemma ResendPubrelCut(v5: bool, list: seq<OutMsg>, store: Store, e: OutMsg, n: nat)
    requires Settled(v5, list, store) && ShortIds(v5, store) && e in list && e.msg.qos == 2 && e.next == PUBCOMP
    ensures n <= |Ops(v5, list, Resend(e))| ==> CutOk(v5, list, store, Resend(e), n)
  {
    hide Fits, PublishOps, PubrelOps, TableOf, Table, SentIds, DistinctIds, CutStore, WellFormedStore, ShortIds, Orphan;
    var x := e.id;
    EntryInStore(v5, list, store, e);
    PubrelTwo(v5, x);
    PutAgain(v5, list, store, e);
    if n <= 2 { TwoOps(store, Put(Key(v5, PUBREL_SENT, x), RecPubrel(x)), Pubrel(x, false), n); }
  }

  lemma EntryInStore(v5: bool, list: seq<OutMsg>, store: Store, e: OutMsg)
    requires Settled(v5, list, store) && ShortIds(v5, store) && e in list
    ensures MsgId(e.id) && (v5 ==> e.id < 10000) && (e.msg.qos == 1 || e.msg.qos == 2)
    ensures Key(v5, SENT, e.id) in store && store[Key(v5, SENT, e.id)].RecPublish?
    ensures store[Key(v5, SENT, e.id)].msg == e.msg
    ensures e.id in Table(v5, store) && Table(v5, store)[e.id] == EntryOf(e)
    ensures e.msg.qos == 2 ==> (e.next == PUBCOMP <==> Key(v5, PUBREL_SENT, e.id) in store)
  {
    TableMember(list, e);
    IdInTable(v5, list, store, e.id);
    assert e.id in SentIds(v5, store);
  }

  lemma NoOrphansWithout(v5: bool, store: Store, x: int)
    requires WellFormedStore(v5, store) && forall k | k in store :: !Orphan(store, k)
    ensures var t := store - {Key(v5, SENT, x)} - {Key(v5, PUBREL_SENT, x)};
            forall k | k in t :: !Orphan(t, k)
  {
  }

  /** The whole of MQTTPersistence_remove. */
  lemma DropStore(v5: bool, store: Store, x: int)
    requires WellFormedStore(v5, store) && (forall k | k in store :: !Orphan(store, k))
    ensures var t := store - {Key(v5, SENT, x)};
            WellFormedStore(v5, t) && Table(v5, t) == Table(v5, store) - {x}
    ensures var t := store - {Key(v5, SENT, x)} - {Key(v5, PUBREL_SENT, x)};
            WellFormedStore(v5, t) && Table(v5, t) == Table(v5, store) - {x} && forall k | k in t :: !Orphan(t, k)
  {
    hide Fits, Table;
    NoOrphansWithout(v5, store, x);
    RemoveSent(v5, store, x);
    RemoveRel(v5, store - {Key(v5, SENT, x)}, x);
  }

  /** For the older version too, MQTTPersistence_remove stops at the V5 PUBREL key of a five-digit id. */
  lemma LongIdOps(x: int)
    requires MsgId(x) && x >= 10000
    ensures RemoveSentOps(x) == [Remove(Key(true, SENT, x))]
  {
    FitsExactly(Key(true, SENT, x));
    FitsExactly(Key(true, PUBREL_SENT, x));
  }

  /** The one removal that is reached names no record of an older client. */
  lemma LongDropCut(store: Store, x: int, n: nat)
    requires WellFormedStore(false, store) && MsgId(x) && x >= 10000 && n <= 1
    ensures |RemoveSentOps(x)| == 1 && CutStore(store, RemoveSentOps(x), n) == store
  {
    hide Fits;
    LongIdOps(x);
    var ops := RemoveSentOps(x);
    assert ops[..0] == [];
    if n == 1 {
      CutStep(store, ops, 0);
      assert Key(true, SENT, x) !in store;
      assert store - {Key(true, SENT, x)} == store;
    }
  }

  lemma DropCut(v5: bool, list: seq<OutMsg>, store: Store, p: Packet, n: nat)
    requires Settled(v5, list, store) && ShortIds(v5, store) && Judge(v5, list, p) == Drop
    ensures n <= |Ops(v5, list, Ack(p))| ==> CutOk(v5, list, store, Ack(p), n)
  {
    hide Fits, TableOf, Table, SentIds, DistinctIds, RemoveSentOps, Without, Orphan, CutStore;
    var x := p.id;
    EntryInStore(v5, list, store, list[Find(list, x)]);
    if x < 10000 {
      DropStore(v5, store, x);
      WithoutTable(list, Find(list, x));
      RemoveSentStores(v5, store, x, 0);
      if n <= 4 { RemoveSentStores(v5, store, x, n); }
    } else {
      LongDropCut(store, x, 0);
      if n <= 1 { LongDropCut(store, x, n); }
    }
  }

  lemma ReleaseCut(v5: bool, list: seq<OutMsg>, store: Store, p: Packet, n: nat)
    requires Settled(v5, list, store) && ShortIds(v5, store) && Judge(v5, list, p) == Release
    ensures n <= |Ops(v5, list, Ack(p))| ==> CutOk(v5, list, store, Ack(p), n)
  {
    hide Fits, TableOf, Table, SentIds, DistinctIds, WellFormedStore, PubrelOps, CutStore;
    var x := p.id;
    EntryInStore(v5, list, store, list[Find(list, x)]);
    ReleasedStore(v5, list, store, p);
    hide Find, Orphan;
    PubrelTwo(v5, x);
    if n <= 2 { TwoOps(store, Put(Key(v5, PUBREL_SENT, x), RecPubrel(x)), Pubrel(x, false), n); }
  }

  /** The store once the PUBREL is in it. */
  lemma ReleasedStore(v5: bool, list: seq<OutMsg>, store: Store, p: Packet)
    requires Settled(v5, list, store) && ShortIds(v5, store) && Judge(v5, list, p) == Release
    ensures var t := store[Key(v5, PUBREL_SENT, p.id) := RecPubrel(p.id)];
            && WellFormedStore(v5, t) && ShortIds(v5, t) && (forall k | k in t :: !Orphan(t, k))
            && Table(v5, t) == TableOf(AckAfter(v5, list, p))
  {
    hide Fits, TableOf, Table, SentIds, DistinctIds, WellFormedStore;
    var x := p.id;
    EntryInStore(v5, list, store, list[Find(list, x)]);
    AckTable(v5, list, p);
    hide Find;
    ShortFits(Key(v5, PUBREL_SENT, x));
    PutRel(v5, store, x);
  }

  lemma AckCut(v5: bool, list: seq<OutMsg>, store: Store, p: Packet, n: nat)
    requires Settled(v5, list, store) && ShortIds(v5, store)
    ensures n <= |Ops(v5, list, Ack(p))| ==> CutOk(v5, list, store, Ack(p), n)
    ensures DistinctIds(After(v5, list, Ack(p)))
  {
    AckTable(v5, list, p);
    match Judge(v5, list, p)
    case Ignore => if n == 0 { assert Ops(v5, list, Ack(p))[..0] == []; }
    case Drop => DropCut(v5, list, store, p, n);
    case Release => ReleaseCut(v5, list, store, p, n);
  }

  // ----- restart -----

  function RemovedKeys(ops: seq<Op>, n: nat): set<Key>
    requires n <= |ops|
  {
    set i | 0 <= i < n && ops[i].Remove? :: ops[i].key
  }

  ghost predicate RemovesOrphans(store: Store, ops: seq<Op>) {
    forall i | 0 <= i < |ops| :: ops[i].Remove? && Orphan(store, ops[i].key)
  }

  lemma {:induction false} PurgeIs(store: Store, keys: seq<Key>)
    ensures var ops := PurgeOps(store, keys);
            && RemovesOrphans(store, ops)
            && (forall k | k in keys && Orphan(store, k) :: k in RemovedKeys(ops, |ops|))
  {
    if keys != [] {
      var rest, k := keys[..|keys| - 1], keys[|keys| - 1];
      PurgeIs(store, rest);
      var ops, old_ops := PurgeOps(store, keys), PurgeOps(store, rest);
      assert ops == old_ops + if Orphan(store, k) then [Remove(k)] else [];
      assert forall i | 0 <= i < |old_ops| :: ops[i] == old_ops[i];
      assert Orphan(store, k) ==> ops[|old_ops|] == Remove(k);
      assert RemovedKeys(old_ops, |old_ops|) <= RemovedKeys(ops, |ops|);
    }
  }

  lemma {:induction false} RemovesCut(store: Store, ops: seq<Op>, n: nat)
    requires n <= |ops| && RemovesOrphans(store, ops)
    ensures CutStore(store, ops, n) == store - RemovedKeys(ops, n)
  {
    if n == 0 {
      assert ops[..0] == [];
    } else {
      RemovesCut(store, ops, n - 1);
      CutStep(store, ops, n - 1);
      assert RemovedKeys(ops, n) == RemovedKeys(ops, n - 1) + {ops[n - 1].key};
    }
  }

  /** Removing orphans leaves the unfinished messages alone. */
  lemma OrphansRemoved(v5: bool, store: Store, gone: set<Key>)
    requires WellFormedStore(v5, store) && forall k | k in gone :: Orphan(store, k)
    ensures WellFormedStore(v5, store - gone) && Table(v5, store - gone) == Table(v5, store)
  {
    hide Fits;
    assert SentIds(v5, store - gone) == SentIds(v5, store) by {
      assert forall k | k in store && k.kind == SENT :: k in store - gone;
    }
  }

  lemma PurgeSettles(v5: bool, store: Store, keys: seq<Key>)
    requires WellFormedStore(v5, store) && Enumerates(keys, store)
    ensures var ops := PurgeOps(store, keys);
            forall k | k in store - RemovedKeys(ops, |ops|) :: !Orphan(store - RemovedKeys(ops, |ops|), k)
  {
    PurgeIs(store, keys);
    var gone := RemovedKeys(PurgeOps(store, keys), |PurgeOps(store, keys)|);
    forall k | k in store - gone ensures !Orphan(store - gone, k) {
      assert k in keys;
      assert Key(k.v5, SENT, k.id) !in gone;
    }
  }

  lemma RestartCut(v5: bool, list: seq<OutMsg>, store: Store, h: Handler, n: nat)
    requires h.Restart? && WellFormedStore(v5, store) && ShortIds(v5, store) && Enabled(v5, list, store, h)
    ensures n <= |Ops(v5, list, h)| ==> CutOk(v5, list, store, h, n)
    ensures DistinctIds(After(v5, list, h))
  {
    hide Fits, Table, TableOf, DistinctIds, WellFormedStore, Orphan, Restored, PurgeOps, CutStore, RemovedKeys,
         RemovesOrphans;
    var keys :| Enumerates(keys, store) && h.purge == PurgeOps(store, keys) && h.list == Restored(v5, store, keys);
    RestoredMirrors(v5, store, keys);
    PurgeIs(store, keys);
    if n <= |h.purge| {
      RemovesCut(store, h.purge, n);
      RemovedAreOrphans(store, h.purge, n);
      OrphansRemoved(v5, store, RemovedKeys(h.purge, n));
      PurgeSettles(v5, store, keys);
    }
  }

  lemma RemovedAreOrphans(store: Store, ops: seq<Op>, n: nat)
    requires n <= |ops| && RemovesOrphans(store, ops)
    ensures forall k | k in RemovedKeys(ops, n) :: Orphan(store, k)
  {
  }

  // ----- the results -----

  /** Where a handler may begin: after a restart only the store has to be in order. */
  ghost predicate Ready(v5: bool, list: seq<OutMsg>, store: Store, h: Handler) {
    && (if h.Restart? then WellFormedStore(v5, store) else Settled(v5, list, store))
    && ShortIds(v5, store)
    && Enabled(v5, list, store, h)
  }

  lemma HandlerCut(v5: bool, list: seq<OutMsg>, store: Store, h: Handler, n: nat)
    requires Ready(v5, list, store, h)
    ensures n <= |Ops(v5, list, h)| ==> CutOk(v5, list, store, h, n)
    ensures DistinctIds(After(v5, list, h))
  {
    match h
    case Start(x, m) => StartCut(v5, list, store, x, m, n);
    case Ack(p) => AckCut(v5, list, store, p, n);
    case Resend(e) => ResendPublishOrPubrel(v5, list, store, e, n);
    case Restart(_, _) => RestartCut(v5, list, store, h, n);
  }

  lemma ResendPublishOrPubrel(v5: bool, list: seq<OutMsg>, store: Store, e: OutMsg, n: nat)
    requires Settled(v5, list, store) && ShortIds(v5, store) && e in list
    ensures n <= |Ops(v5, list, Resend(e))| ==> CutOk(v5, list, store, Resend(e), n)
  {
    EntryInStore(v5, list, store, e);
    if e.msg.qos == 1 || e.next == PUBREC { ResendPublishCut(v5, list, store, e, n); }
    else { ResendPubrelCut(v5, list, store, e, n); }
  }

  /** The message is still stored, and memory no longer has it. */
  lemma LongDropUnsettled(v5: bool, list: seq<OutMsg>, store: Store, h: Handler)
    requires Settled(v5, list, store) && LongDrop(v5, list, h)
    ensures TableOf(After(v5, list, h)) != Table(v5, store)
  {
    var x := h.packet.id;
    TableOfFind(list, x);
    WithoutTable(list, Find(list, x));
  }

  /**
   * A handler that runs to its end leaves memory and store in agreement again, unless it finished a message with an
   * id of five digits.
   */
  lemma HandlerSettles(v5: bool, list: seq<OutMsg>, store: Store, h: Handler)
    requires Ready(v5, list, store, h)
    ensures var t := ApplyOps(store, Ops(v5, list, h));
            && ShortIds(v5, t)
            && (Settled(v5, After(v5, list, h), t) <==> !LongDrop(v5, list, h))
  {
    hide Fits, TableOf, Table, DistinctIds, Ops, After, CommitAt, WellFormedStore, Enabled;
    var ops := Ops(v5, list, h);
    HandlerCut(v5, list, store, h, |ops|);
    assert ops[..|ops|] == ops;
    if LongDrop(v5, list, h) { LongDropUnsettled(v5, list, store, h); LongDropShort(v5, list, store, h); }
  }

  /** The removal of such a message never comes to the key that would count. */
  lemma LongDropShort(v5: bool, list: seq<OutMsg>, store: Store, h: Handler)
    requires Settled(v5, list, store) && ShortIds(v5, store) && LongDrop(v5, list, h)
    ensures |Ops(v5, list, h)| < CommitAt(v5, list, h)
  {
    EntryInStore(v5, list, store, list[Find(list, h.packet.id)]);
    LongIdOps(h.packet.id);
  }

  /**
   * Crash atomicity. Whatever operation a handler is stopped after, and in whatever order the store
   * lists its keys, the restart rebuilds the unfinished messages (id, QoS, phase, content) as they
   * were before the handler or as the handler leaves them; and once it has finished, as it leaves them,
   * unless it finished a message with an id of five digits.
   */
  lemma CrashAtomic(v5: bool, list: seq<OutMsg>, store: Store, h: Handler, n: nat, keys: seq<Key>)
    requires !h.Restart? && Ready(v5, list, store, h) && n <= |Ops(v5, list, h)|
    requires Enumerates(keys, CutStore(store, Ops(v5, list, h), n))
    ensures var rebuilt := Restored(v5, CutStore(store, Ops(v5, list, h), n), keys);
            && DistinctIds(rebuilt)
            && (TableOf(rebuilt) == TableOf(list) || TableOf(rebuilt) == TableOf(After(v5, list, h)))
            && (n == |Ops(v5, list, h)| ==>
                  (TableOf(rebuilt) == TableOf(After(v5, list, h)) <==> !LongDrop(v5, list, h)))
  {
    hide Fits, TableOf, Table, DistinctIds, Ops, After, CommitAt, WellFormedStore, Enabled, Restored;
    HandlerCut(v5, list, store, h, n);
    RestoredMirrors(v5, CutStore(store, Ops(v5, list, h), n), keys);
    if LongDrop(v5, list, h) { LongDropUnsettled(v5, list, store, h); LongDropShort(v5, list, store, h); }
  }

  /** Stopping the restart itself and restarting again rebuilds the same messages. */
  lemma CrashDuringRestart(v5: bool, store: Store, keys: seq<Key>, n: nat, keys': seq<Key>)
    requires WellFormedStore(v5, store) && ShortIds(v5, store) && Enumerates(keys, store)
    requires n <= |PurgeOps(store, keys)| && Enumerates(keys', CutStore(store, PurgeOps(store, keys), n))
    ensures TableOf(Restored(v5, CutStore(store, PurgeOps(store, keys), n), keys')) == TableOf(Restored(v5,
              store, keys))
  {
    var h := Restart(PurgeOps(store, keys), Restored(v5, store, keys));
    RestartCut(v5, [], store, h, n);
    RestoredMirrors(v5, store, keys);
    RestoredMirrors(v5, CutStore(store, h.purge, n), keys');
  }

  // ----- ids of five digits -----

  lemma LongIdNoop(store: Store, x: int)
    requires WellFormedStore(false, store) && MsgId(x) && x >= 10000
    ensures ApplyOps(store, RemoveSentOps(x)) == store
  {
    LongIdOps(x);
    var ops := RemoveSentOps(x);
    assert ops[..0] == [];
    assert Key(true, SENT, x) !in store;
    assert store - {Key(true, SENT, x)} == store;
  }

  /** Exactly the completions of ids below 10000 survive a restart; any other message comes back. */
  lemma CompletionSurvivesIff(list: seq<OutMsg>, store: Store, p: Packet, keys: seq<Key>)
    requires Settled(false, list, store) && Judge(false, list, p) == Drop
    requires Enumerates(keys, ApplyOps(store, RemoveSentOps(p.id)))
    ensures var rebuilt := Restored(false, ApplyOps(store, RemoveSentOps(p.id)), keys);
            TableOf(rebuilt) == TableOf(AckAfter(false, list, p)) <==> p.id < 10000
  {
    var x := p.id;
    var ops := RemoveSentOps(x);
    IdInTable(false, list, store, x);
    WithoutTable(list, Find(list, x));
    TableOfFind(list, x);
    assert MsgId(x);
    if x < 10000 {
      RemoveSentStores(false, store, x, 4);
      assert ops[..4] == ops;
      DropStore(false, store, x);
    } else {
      LongIdNoop(store, x);
    }
    RestoredMirrors(false, ApplyOps(store, ops), keys);
  }

  /** The operation leaves the records of x alone. */
  predicate LeavesAlone(op: Op, x: int) {
    match op
    case Put(k, _) => k.id != x
    case Remove(k) => k.id != x
    case Send(_) => true
  }

  lemma {:induction false} RecordsLeft(store: Store, ops: seq<Op>, k: Key)
    requires forall op | op in ops :: LeavesAlone(op, k.id)
    ensures k in ApplyOps(store, ops) <==> k in store
  {
    if ops != [] {
      assert LeavesAlone(ops[|ops| - 1], k.id);
      RecordsLeft(store, ops[..|ops| - 1], k);
    }
  }

  /**
   * The id of a completed QoS 2 message is used again, after any operations on other ids, and the client stops right
   * after the new PUBLISH is stored: it restarts in the right phase exactly for ids below 10000. A longer id finds
   * the old PUBREL record, so the new message restarts as if its PUBREC had arrived.
   */
  lemma ReusedIdPhaseIff(list: seq<OutMsg>, store: Store, x: int, between: seq<Op>, m: Message, keys: seq<Key>)
    requires Settled(false, list, store) && Judge(false, list, Pubcomp(x)) == Drop && m.qos == 2
    requires forall op | op in between :: LeavesAlone(op, x)
    requires WellFormedStore(false, ApplyOps(ApplyOps(store, RemoveSentOps(x)), between))
    requires Enumerates(keys,
              ApplyOps(ApplyOps(store, RemoveSentOps(x)), between)[Key(false, SENT, x) := RecPublish(x, false, m)])
    ensures var u :=
              ApplyOps(ApplyOps(store, RemoveSentOps(x)), between)[Key(false, SENT, x) := RecPublish(x, false, m)];
            var rebuilt := TableOf(Restored(false, u, keys));
            x in rebuilt && rebuilt[x].msg == m && (rebuilt[x].next == PUBREC <==> x < 10000)
  {
    hide Fits, SentIds, WellFormedStore, Restored, RemoveSentOps, Enumerates;
    CompletedRecord(list, store, x);
    var t := ApplyOps(store, RemoveSentOps(x));
    RecordsLeft(t, between, Key(false, PUBREL_SENT, x));
    FitsExactly(Key(false, SENT, x));
    PutSent(false, ApplyOps(t, between), x, false, m);
    RestoredMirrors(false, ApplyOps(t, between)[Key(false, SENT, x) := RecPublish(x, false, m)], keys);
  }

  /** The PUBREL record of a completed message stays exactly for a five-digit id. */
  lemma CompletedRecord(list: seq<OutMsg>, store: Store, x: int)
    requires Settled(false, list, store) && Judge(false, list, Pubcomp(x)) == Drop
    ensures MsgId(x) && (Key(false, PUBREL_SENT, x) in ApplyOps(store, RemoveSentOps(x)) <==> x >= 10000)
  {
    TableMember(list, list[Find(list, x)]);
    IdInTable(false, list, store, x);
    assert MsgId(x) && x in SentIds(false, store);
    assert Key(false, PUBREL_SENT, x) in store;
    if x < 10000 {
      RemoveSentStores(false, store, x, 4);
      assert RemoveSentOps(x)[..4] == RemoveSentOps(x);
    } else {
      LongIdNoop(store, x);
    }
  }
}
