/** Who holds the stored publications: every one in the global list belongs to exactly one message or pending write. */
module Publications {
  import opened Common

  class Publication {
    var refcount: int

    constructor ()
      ensures refcount == 1
    {
      refcount := 1;
    }
  }

  type Bag = multiset<Publication>

  /** An entry of an inbound or outbound message list. */
  datatype Entry = Entry(id: int, publish: Option<Publication>)

  function RefOf(e: Entry): Bag {
    if e.publish.Some? then multiset{e.publish.value} else multiset{}
  }

  function RefsOf(l: seq<Entry>): Bag {
    if l == [] then multiset{} else RefOf(l[0]) + RefsOf(l[1..])
  }

  /** The references of all message lists. */
  function Refs(lists: seq<seq<Entry>>): Bag {
    if lists == [] then multiset{} else RefsOf(lists[0]) + Refs(lists[1..])
  }

  lemma {:induction false} RefsOfConcat(a: seq<Entry>, b: seq<Entry>)
    ensures RefsOf(a + b) == RefsOf(a) + RefsOf(b)
  {
    if a == [] { assert a + b == b; } else { assert (a + b)[1..] == a[1..] + b; RefsOfConcat(a[1..], b); }
  }

  lemma RefsOfOne(e: Entry)
    ensures RefsOf([e]) == RefOf(e)
  {
    assert [e][1..] == [];
    assert RefsOf([]) == multiset{};
  }

  lemma RefsOfThree(a: seq<Entry>, e: Entry, b: seq<Entry>)
    ensures RefsOf(a + [e] + b) == RefsOf(a) + RefOf(e) + RefsOf(b)
  {
    RefsOfConcat(a + [e], b);
    RefsOfConcat(a, [e]);
    RefsOfOne(e);
  }

  /** Equals added to equals. */
  lemma Shift(a: Bag, r: Bag, x: Bag, s: Bag, y: Bag)
    requires r + x == s + y
    ensures (a + r) + x == (a + s) + y
  {
    assert (a + r) + x == a + (r + x);
    assert (a + s) + y == a + (s + y);
  }

  /** Changing one list changes the references by what that list loses and gains. */
  lemma {:induction false} RefsUpdate(lists: seq<seq<Entry>>, i: nat, l: seq<Entry>)
    requires i < |lists|
    ensures Refs(lists[i := l]) + RefsOf(lists[i]) == Refs(lists) + RefsOf(l)
  {
    hide RefsOf;
    if i == 0 {
      assert lists[0 := l][1..] == lists[1..];
      var a, b, c := RefsOf(l), RefsOf(lists[0]), Refs(lists[1..]);
      assert (a + c) + b == (b + c) + a;
    } else {
      assert lists[i := l][1..] == lists[1..][i - 1 := l];
      RefsUpdate(lists[1..], i - 1, l);
      Shift(RefsOf(lists[0]), Refs(lists[1..][i - 1 := l]), RefsOf(lists[i]), Refs(lists[1..]), RefsOf(l));
    }
  }

  /** A held publication is counted among the references. */
  lemma {:induction false} HolderCounted(lists: seq<seq<Entry>>, i: nat, k: nat)
    requires i < |lists| && k < |lists[i]| && lists[i][k].publish.Some?
    ensures Refs(lists)[lists[i][k].publish.value] >= 1
  {
    if i == 0 {
      var l := lists[0];
      assert l == l[..k] + [l[k]] + l[k + 1..];
      RefsOfThree(l[..k], l[k], l[k + 1..]);
    } else {
      HolderCounted(lists[1..], i - 1, k);
    }
  }

  predicate Holds(lists: seq<seq<Entry>>, i: nat, k: nat, p: Publication) {
    i < |lists| && k < |lists[i]| && lists[i][k].publish == Some(p)
  }

  /** A counted publication has a holder. */
  lemma {:induction false} CountedHeld(lists: seq<seq<Entry>>, p: Publication) returns (i: nat, k: nat)
    requires p in Refs(lists)
    ensures Holds(lists, i, k, p)
  {
    if p in RefsOf(lists[0]) {
      i := 0;
      k := CountedIn(lists[0], p);
    } else {
      i, k := CountedHeld(lists[1..], p);
      i := i + 1;
    }
  }

  lemma {:induction false} CountedIn(l: seq<Entry>, p: Publication) returns (k: nat)
    requires p in RefsOf(l)
    ensures k < |l| && l[k].publish == Some(p)
  {
    if l[0].publish == Some(p) {
      k := 0;
    } else {
      k := CountedIn(l[1..], p);
      k := k + 1;
    }
  }

  /** Where the first entry with an id is, or the length of the list. */
  function First(l: seq<Entry>, id: int): (k: nat)
    ensures k <= |l| && (k < |l| ==> l[k].id == id) && forall j | 0 <= j < k :: l[j].id != id
  {
    if l == [] || l[0].id == id then 0 else 1 + First(l[1..], id)
  }

  lemma {:induction false} FirstIs(l: seq<Entry>, id: int, k: nat)
    requires k <= |l| && (k < |l| ==> l[k].id == id) && forall j | 0 <= j < k :: l[j].id != id
    ensures First(l, id) == k
  {
    if k > 0 { FirstIs(l[1..], id, k - 1); }
  }

  /** A list without its entry k. */
  function Dropped(l: seq<Entry>, k: nat): seq<Entry>
    requires k < |l|
  {
    l[..k] + l[k + 1..]
  }

  lemma DroppedAt(a: seq<Entry>, e: Entry, b: seq<Entry>)
    ensures Dropped(a + [e] + b, |a|) == a + b && a + ([e] + b) == a + [e] + b
  {}

  /** The entries whose socket is still writing. */
  function Unfinished(l: seq<Entry>, writing: set<int>): seq<Entry> {
    if l == [] then [] else Kept(l[0], writing) + Unfinished(l[1..], writing)
  }

  function Kept(e: Entry, writing: set<int>): seq<Entry> {
    if e.id in writing then [e] else []
  }

  lemma {:induction false} UnfinishedSnoc(l: seq<Entry>, e: Entry, writing: set<int>)
    ensures Unfinished(l + [e], writing) == Unfinished(l, writing) + Kept(e, writing)
  {
    hide Kept;
    if l == [] {
      assert l + [e] == [e] && [e][1..] == [];
    } else {
      assert (l + [e])[1..] == l[1..] + [e] && (l + [e])[0] == l[0];
      UnfinishedSnoc(l[1..], e, writing);
      Assoc(Kept(l[0], writing), Unfinished(l[1..], writing), Kept(e, writing));
    }
  }

  /** Every entry is kept as often as it was there, or not at all. */
  lemma {:induction false} UnfinishedIs(l: seq<Entry>, writing: set<int>)
    ensures forall e :: multiset(Unfinished(l, writing))[e] == if e.id in writing then multiset(l)[e] else 0
  {
    if l != [] {
      assert l == [l[0]] + l[1..];
      UnfinishedIs(l[1..], writing);
    }
  }

  lemma Assoc(a: seq<Entry>, b: seq<Entry>, c: seq<Entry>)
    ensures (a + b) + c == a + (b + c)
  {}

  lemma NoneLookedAt(l: seq<Entry>, writing: set<int>)
    ensures Unfinished(l[..0], writing) == [] && [] + l[0..] == l
  {}

  /** One entry more is looked at, kept or dropped. */
  lemma LookedAt(l: seq<Entry>, j: nat, writing: set<int>)
    requires j < |l|
    ensures var done := Unfinished(l[..j], writing);
      var now := done + l[j..];
      var next := Unfinished(l[..j + 1], writing);
      && now[|done|] == l[j]
      && |next| == |done| + (if l[j].id in writing then 1 else 0)
      && next + l[j + 1..] == if l[j].id in writing then now else Dropped(now, |done|)
  {
    UnfinishedSnoc(l[..j], l[j], writing);
    assert l[..j + 1] == l[..j] + [l[j]];
    var done, tail := Unfinished(l[..j], writing), l[j + 1..];
    assert l[j..] == [l[j]] + tail;
    Assoc(done, [l[j]], tail);
    DroppedAt(done, l[j], tail);
    assert done + [] == done;
  }

  function Remove<T(==)>(s: seq<T>, x: T): seq<T> {
    if s == [] then [] else if s[0] == x then s[1..] else [s[0]] + Remove(s[1..], x)
  }

  lemma {:induction false} RemoveIs<T>(s: seq<T>, x: T)
    requires x in s
    ensures multiset(Remove(s, x)) + multiset{x} == multiset(s) && forall y | y in Remove(s, x) :: y in s
  {
    assert s == [s[0]] + s[1..];
    if s[0] != x {
      RemoveIs(s[1..], x);
      assert multiset([s[0]] + Remove(s[1..], x)) == multiset{s[0]} + multiset(Remove(s[1..], x));
    }
  }

  /** The message lists of all clients, with the pending QoS 0 writes as one list more. */
  class Store {
    var publications: seq<Publication>
    var lists: seq<seq<Entry>>

    ghost function Stored(): set<Publication>
      reads this
    {
      set p | p in publications
    }

    /** The list and the holders agree but for `extra`, which the list has and no holder does. */
    ghost predicate Owned(extra: Bag)
      reads this, publications
    {
      && multiset(publications) == Refs(lists) + extra
      && (forall p | p in publications :: multiset(publications)[p] == 1)
      && forall p | p in publications :: p.refcount == 1
    }

    /**
     * Every stored publication is held by exactly one entry, is counted once, and every entry's publication is stored.
     */
    ghost predicate Valid()
      reads this, publications
    {
      Owned(multiset{})
    }

    constructor (n: nat)
      ensures Valid() && publications == [] && |lists| == n
    {
      publications := [];
      lists := seq(n, _ => []);
      new;
      EmptyRefs(lists);
    }

    /** MQTTProtocol_storePublication */
    method StorePublication() returns (p: Publication)
      requires Valid()
      modifies this`publications
      ensures fresh(p) && publications == old(publications) + [p] && lists == old(lists) && Owned(multiset{p})
    {
      p := new Publication();
      assert multiset(publications)[p] == 0;
      publications := publications + [p];
    }

    /** MQTTProtocol_removePublication */
    method RemovePublication(p: Option<Publication>, ghost rest: Bag)
      requires Owned(rest + Maybe(p))
      modifies this`publications, Stored()
      ensures Owned(rest) && lists == old(lists) && (forall q | q in publications :: q in old(publications))
    {
      if p.Some? {
        var q := p.value;
        assert multiset(publications)[q] >= 1;
        q.refcount := q.refcount - 1;
        if q.refcount == 0 { Unlist(q, rest); }
      }
    }

    /** ListRemove(&(state.publications), p) */
    method Unlist(p: Publication, ghost rest: Bag)
      requires multiset(publications) == Refs(lists) + (rest + multiset{p})
      requires forall q | q in publications :: multiset(publications)[q] == 1
      requires forall q | q in publications && q != p :: q.refcount == 1
      modifies this`publications
      ensures Owned(rest) && (forall q | q in publications :: q in old(publications))
    {
      assert multiset(publications)[p] >= 1;
      RemoveIs(publications, p);
      Cancel(multiset(Remove(publications, p)), Refs(lists), rest, multiset{p});
      publications := Remove(publications, p);
      assert multiset(publications)[p] == 0;
    }

    /**
     * A holder is added at the end of a list: MQTTProtocol_createMessage and its callers, and MQTTProtocol_storeQoS0.
     */
    method Hold(i: nat, id: int) returns (p: Publication)
      requires Valid() && i < |lists|
      modifies this
      ensures Valid() && fresh(p) && publications == old(publications) + [p]
      ensures lists == old(lists)[i := old(lists)[i] + [Entry(id, Some(p))]]
    {
      hide Refs, RefsOf;
      p := StorePublication();
      var e := Entry(id, Some(p));
      Appended(i, e);
      lists := lists[i := lists[i] + [e]];
    }

    /**
     * A holder goes with its publication: MQTTProtocol_handlePubacks, handlePubrecs with an error, handlePubcomps,
     * and a pending write that is complete.
     */
    method Release(i: nat, k: nat)
      requires Valid() && i < |lists| && k < |lists[i]|
      modifies this, Stored()
      ensures Valid() && lists == old(lists)[i := Dropped(old(lists)[i], k)]
      ensures forall q | q in publications :: q in old(publications)
    {
      var e := lists[i][k];
      Without(i, k);
      lists := lists[i := Dropped(lists[i], k)];
      assert multiset{} + RefOf(e) == RefOf(e) == multiset{} + Maybe(e.publish);
      RemovePublication(e.publish, multiset{});
    }

    lemma Without(i: nat, k: nat)
      requires i < |lists| && k < |lists[i]|
      ensures Refs(lists[i := Dropped(lists[i], k)]) + RefOf(lists[i][k]) == Refs(lists)
    {
      hide Refs, RefsOf, RefOf;
      var l := lists[i];
      var a, b, e := l[..k], l[k + 1..], l[k];
      assert l == a + [e] + b;
      RefsOfConcat(a, b);
      RefsOfThree(a, e, b);
      RefsUpdate(lists, i, a + b);
      Shrink(Refs(lists[i := a + b]), Refs(lists), RefsOf(a), RefOf(e), RefsOf(b));
    }

    /** The entry k of a list gets a new publication, or none; the one it had is the caller's to remove. */
    lemma Changed(i: nat, k: nat, e: Entry)
      requires i < |lists| && k < |lists[i]|
      ensures Refs(lists[i := lists[i][k := e]]) + RefOf(lists[i][k]) == Refs(lists) + RefOf(e)
    {
      hide Refs, RefsOf, RefOf;
      var l := lists[i];
      var a, b, o := l[..k], l[k + 1..], l[k];
      assert l == a + [o] + b && l[k := e] == a + [e] + b;
      RefsOfThree(a, o, b);
      RefsOfThree(a, e, b);
      RefsUpdate(lists, i, a + [e] + b);
      Swap(Refs(lists[i := a + [e] + b]), Refs(lists), RefsOf(a), RefOf(o), RefOf(e), RefsOf(b));
    }

    /** The position of an id in a list. */
    method Find(i: nat, id: int) returns (k: nat)
      requires i < |lists|
      ensures k == First(lists[i], id)
    {
      k := 0;
      while k < |lists[i]| && lists[i][k].id != id
        invariant k <= |lists[i]| && forall j | 0 <= j < k :: lists[i][j].id != id
      {
        k := k + 1;
      }
      FirstIs(lists[i], id, k);
    }

    /**
     * MQTTProtocol_handlePublishes for QoS 2: the publication replaces the one kept under the id, if any; under the
     * V5 rule a new one is handed over at once and the entry keeps none.
     */
    method HandlePublish2(i: nat, id: int, v5: bool, writing: bool) returns (kept: Option<Publication>)
      requires Valid() && i < |lists|
      modifies this, Stored()
      ensures Valid() && (forall q | q in publications :: q in old(publications) || fresh(q))
      ensures kept.Some? ==> fresh(kept.value)
      ensures var l := old(lists)[i];
        var k := First(l, id);
        if writing then lists == old(lists) && publications == old(publications)
        else if k < |l| then kept.Some? && lists == old(lists)[i := l[k := Entry(id, kept)]]
        else kept.Some? == !v5 && lists == old(lists)[i := l + [Entry(id, kept)]]
    {
      hide Owned;
      kept := None;
      if !writing {
        var k := Find(i, id);
        if k < |lists[i]| {
          kept := Replace(i, k, id);
        } else if v5 {
          PassOn(i, id);
        } else {
          var p := Hold(i, id);
          kept := Some(p);
        }
      }
    }

    /** A fresh publication under an id known already: the one kept so far, if any, is dropped. */
    method Replace(i: nat, k: nat, id: int) returns (kept: Option<Publication>)
      requires Valid() && i < |lists| && k < |lists[i]|
      modifies this, Stored()
      ensures Valid() && kept.Some? && fresh(kept.value)
      ensures lists == old(lists)[i := old(lists)[i][k := Entry(id, kept)]]
      ensures forall q | q in publications :: q in old(publications) || fresh(q)
    {
      hide Refs, RefsOf;
      var o := lists[i][k];
      var p := StorePublication();
      kept := Some(p);
      var e := Entry(id, kept);
      Changed(i, k, e);
      ghost var before := Refs(lists);
      lists := lists[i := lists[i][k := e]];
      assert Refs(lists) + RefOf(o) == before + multiset{p};
      assert Owned(multiset{} + Maybe(o.publish));
      RemovePublication(o.publish, multiset{});
    }

    /** The V5 rule: the application has the new publication, and only the id stays. */
    method PassOn(i: nat, id: int)
      requires Valid() && i < |lists|
      modifies this
      ensures Valid() && lists == old(lists)[i := old(lists)[i] + [Entry(id, None)]]
      ensures forall q | q in publications :: q in old(publications) || fresh(q)
    {
      hide Refs, RefsOf;
      var p := StorePublication();
      Appended(i, Entry(id, None));
      lists := lists[i := lists[i] + [Entry(id, None)]];
      assert Owned(multiset{} + multiset{p});
      Unlist(p, multiset{});
    }

    lemma Appended(i: nat, e: Entry)
      requires i < |lists|
      ensures Refs(lists[i := lists[i] + [e]]) == Refs(lists) + RefOf(e)
    {
      hide Refs, RefsOf, RefOf;
      RefsOfConcat(lists[i], [e]);
      RefsOfOne(e);
      RefsUpdate(lists, i, lists[i] + [e]);
      Extend(Refs(lists[i := lists[i] + [e]]), Refs(lists), RefsOf(lists[i]), RefOf(e));
    }

    /** MQTTProtocol_handlePubrels: the entry goes, and its publication if it has one. */
    method HandlePubrel(i: nat, id: int, writing: bool)
      requires Valid() && i < |lists|
      modifies this, Stored()
      ensures Valid() && (forall q | q in publications :: q in old(publications))
      ensures var l := old(lists)[i];
        var k := First(l, id);
        lists == if k < |l| && !writing then old(lists)[i := Dropped(l, k)] else old(lists)
    {
      var k := Find(i, id);
      if k < |lists[i]| && !writing {
        var publish := lists[i][k].publish;
        Without(i, k);
        lists := lists[i := Dropped(lists[i], k)];
        assert Owned(multiset{} + Maybe(publish));
        if publish.Some? { Unlist(publish.value, multiset{}); }
      }
    }

    /** MQTTProtocol_checkPendingWrites: a copy goes when its socket has nothing left to write. */
    method CheckPendingWrites(i: nat, writing: set<int>)
      requires Valid() && i < |lists|
      modifies this, Stored()
      ensures Valid() && lists == old(lists)[i := Unfinished(old(lists)[i], writing)]
      ensures forall e | e in old(lists)[i] :: multiset(lists[i])[e] == if e.id in writing
                then multiset(old(lists)[i])[e] else 0
      ensures forall q | q in publications :: q in old(publications)
    {
      hide Refs, RefsOf, Owned, Unfinished, Dropped;
      ghost var l, j := lists[i], 0;
      var k := 0;
      NoneLookedAt(l, writing);
      while k < |lists[i]|
        invariant Valid() && |lists| == |old(lists)| && lists == old(lists)[i := lists[i]]
        invariant forall q | q in publications :: q in old(publications)
        invariant j <= |l| && lists[i] == Unfinished(l[..j], writing) + l[j..] && k == |Unfinished(l[..j], writing)|
        decreases |lists[i]| - k
      {
        LookedAt(l, j, writing);
        if lists[i][k].id in writing {
          k := k + 1;
        } else {
          assert Stored() <= old(Stored());
          Release(i, k);
        }
        j := j + 1;
      }
      assert |l[j..]| == 0;
      assert l[..j] == l;
      assert lists[i] == Unfinished(l, writing);
      UnfinishedIs(l, writing);
    }

    /** A publication is stored exactly when an entry holds it. */
    lemma StoredIffHeld(p: Publication)
      requires Valid()
      ensures p in publications <==> exists a: nat, b: nat :: Holds(lists, a, b, p)
    {
      assert p in publications <==> p in multiset(publications);
      if p in publications {
        var a, b := CountedHeld(lists, p);
      }
      forall a: nat, b: nat | Holds(lists, a, b, p) ensures p in publications {
        HolderCounted(lists, a, b);
      }
    }

    /** No two entries hold one publication. */
    lemma OneHolder(i: nat, k: nat, j: nat, m: nat, p: Publication)
      requires Valid() && Holds(lists, i, k, p) && Holds(lists, j, m, p)
      ensures i == j && k == m
    {
      hide Refs, RefsOf;
      StoredIffHeld(p);
      if i != j || k != m {
        Without(i, k);
        var rest := lists[i := Dropped(lists[i], k)];
        HolderCounted(rest, j, if i == j && m > k then m - 1 else m);
        assert false;
      }
    }

    /** MQTTProtocol_emptyMessageList */
    method EmptyList(i: nat)
      requires Valid() && i < |lists|
      modifies this, Stored()
      ensures Valid() && lists == old(lists)[i := []] && (forall q | q in publications :: q in old(publications))
    {
      ghost var l := lists[i];
      while |lists[i]| > 0
        invariant Valid() && i < |lists| && lists == old(lists)[i := lists[i]]
        invariant forall q | q in publications :: q in old(publications)
        decreases |lists[i]|
      {
        assert Stored() <= old(Stored());
        Release(i, 0);
      }
    }
  }

  lemma Cancel(x: Bag, y: Bag, r: Bag, p: Bag)
    requires x + p == y + (r + p)
    ensures x == y + r
  {
    forall q ensures x[q] == (y + r)[q] {
      assert (x + p)[q] == (y + (r + p))[q];
    }
  }

  lemma Shrink(x: Bag, y: Bag, a: Bag, e: Bag, b: Bag)
    requires x + (a + e + b) == y + (a + b)
    ensures x + e == y
  {
    forall q ensures (x + e)[q] == y[q] {
      assert (x + (a + e + b))[q] == (y + (a + b))[q];
    }
  }

  function Maybe(p: Option<Publication>): Bag {
    if p.Some? then multiset{p.value} else multiset{}
  }

  lemma {:induction false} EmptyRefs(lists: seq<seq<Entry>>)
    requires forall i | 0 <= i < |lists| :: lists[i] == []
    ensures Refs(lists) == multiset{}
  {
    if lists != [] { EmptyRefs(lists[1..]); }
  }

  lemma Swap(x: Bag, y: Bag, a: Bag, o: Bag, e: Bag, b: Bag)
    requires x + (a + o + b) == y + (a + e + b)
    ensures x + o == y + e
  {
    forall q ensures (x + o)[q] == (y + e)[q] {
      assert (x + (a + o + b))[q] == (y + (a + e + b))[q];
    }
  }

  lemma Extend(x: Bag, y: Bag, a: Bag, e: Bag)
    requires x + a == y + (a + e)
    ensures x == y + e
  {
    forall q ensures x[q] == (y + e)[q] {
      assert (x + a)[q] == (y + (a + e))[q];
    }
  }
}
