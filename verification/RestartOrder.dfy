// The order in which messages are sent again after a restart (section 4.6 of MQTT 3.1.1).

module RestartOrder {
  import opened Persistence
  import opened CrashProofs

  /** How far b comes after a when ids are counted 1, 2, ..., 65535, 1, ... */
  function Ahead(a: int, b: int): int { if b >= a then b - a else b - a + MAX_MSG_ID }

  /** Ids handed out in this order without passing the first one again. */
  ghost predicate OneLap(sent: seq<OutMsg>) {
    && (forall i | 0 <= i < |sent| :: MsgId(sent[i].id))
    && (forall i, j | 0 <= i < j < |sent| :: Ahead(sent[0].id, sent[i].id) < Ahead(sent[0].id, sent[j].id))
  }

  /** The ids skipped just before the i-th message sent; before the first, those between the last and the first. */
  function GapBefore(sent: seq<OutMsg>, i: nat): int
    requires i < |sent|
  {
    Ahead(sent[if i == 0 then |sent| - 1 else i - 1].id, sent[i].id)
  }

  /** The gap between the last and the first message sent beats every other; equal gaps are decided by the id. */
  ghost predicate WidestGapFirst(sent: seq<OutMsg>) {
    forall i | 0 < i < |sent| ::
      GapBefore(sent, 0) > GapBefore(sent, i)
      || (GapBefore(sent, 0) == GapBefore(sent, i) && sent[0].id < sent[i].id)
  }

  /** The number of messages sent before the ids started again from a smaller one. */
  ghost function Turn(sent: seq<OutMsg>, n: nat): (k: nat)
    requires n <= |sent|
    ensures k <= n
    ensures forall i | 0 <= i < k :: sent[i].id >= sent[0].id
    ensures k < n ==> sent[k].id < sent[0].id
  {
    if n == 0 then 0
    else
      var k := Turn(sent, n - 1);
      if k < n - 1 || sent[n - 1].id < sent[0].id then k else n
  }

  /** The list starting at its k-th element, and where the i-th element goes. */
  function Rotated(list: seq<OutMsg>, k: nat): (r: seq<OutMsg>)
    requires k <= |list|
    ensures |r| == |list|
  {
    list[k..] + list[..k]
  }

  function Place(n: nat, k: nat, i: nat): nat
    requires k <= n && i < n
  {
    if i >= k then i - k else i + n - k
  }

  lemma RotatedAt(list: seq<OutMsg>, k: nat, p: nat)
    requires k <= |list| && p < |list|
    ensures Rotated(list, k)[p] == list[if p < |list| - k then p + k else p - (|list| - k)]
  {
  }

  lemma RotatedElements(list: seq<OutMsg>, k: nat)
    requires k <= |list|
    ensures forall e :: e in Rotated(list, k) <==> e in list
  {
    assert list == list[..k] + list[k..];
  }

  lemma LapPair(sent: seq<OutMsg>, i: nat, j: nat)
    requires OneLap(sent) && i < j < |sent|
    ensures Ahead(sent[0].id, sent[i].id) < Ahead(sent[0].id, sent[j].id)
  {
  }

  lemma LapIds(sent: seq<OutMsg>)
    requires OneLap(sent)
    ensures forall i | 0 <= i < |sent| :: MsgId(sent[i].id)
  {
  }

  lemma TurnSorts(sent: seq<OutMsg>)
    requires OneLap(sent)
    ensures SortedById(Rotated(sent, Turn(sent, |sent|)))
    ensures forall i | Turn(sent, |sent|) <= i < |sent| :: sent[i].id < sent[0].id
  {
    hide OneLap, Rotated, Turn;
    var k := Turn(sent, |sent|);
    LapIds(sent);
    forall i | k <= i < |sent| ensures sent[i].id < sent[0].id {
      if k < i { LapPair(sent, k, i); }
    }
    var s := Rotated(sent, k);
    forall i, j | 0 <= i < j < |s| ensures s[i].id < s[j].id {
      RotatedAt(sent, k, i);
      RotatedAt(sent, k, j);
      var a := if i < |sent| - k then i + k else i - (|sent| - k);
      var b := if j < |sent| - k then j + k else j - (|sent| - k);
      if a < b { LapPair(sent, a, b); }
    }
  }

  /** Seen from the sorted list, the gaps are those of the sending order. */
  lemma GapsAgree(sent: seq<OutMsg>, i: nat)
    requires OneLap(sent) && i < |sent| && |sent| > 1
    ensures var k := Turn(sent, |sent|); Gap(Rotated(sent, k), Place(|sent|, k, i)) == GapBefore(sent, i)
  {
    hide Rotated, Turn, OneLap, SortedById;
    var k, n := Turn(sent, |sent|), |sent|;
    var s, p := Rotated(sent, k), Place(n, k, i);
    TurnSorts(sent);
    var q := if p == 0 then n - 1 else p - 1;
    RotatedAt(sent, k, p);
    RotatedAt(sent, k, q);
    if p == 0 { SortedPair(s, 0, q); } else { SortedPair(s, q, p); }
    BeforeIs(n, k, i);
    assert s[p] == sent[i] && s[q] == sent[if i == 0 then n - 1 else i - 1];
  }

  lemma SortedPair(s: seq<OutMsg>, i: nat, j: nat)
    requires SortedById(s) && i < j < |s|
    ensures s[i].id < s[j].id
  {
  }

  /** The element before the i-th goes before the i-th's place. */
  lemma BeforeIs(n: nat, k: nat, i: nat)
    requires n > 1 && k <= n && i < n
    ensures var p := Place(n, k, i); var q := if p == 0 then n - 1 else p - 1;
            && (if p < n - k then p + k else p - (n - k)) == i
            && (if q < n - k then q + k else q - (n - k)) == if i == 0 then n - 1 else i - 1
  {
  }

  /**
   * Whatever order the store lists its keys in, the rebuilt list is in sending order exactly when the
   * gap between the last and the first message sent is the widest one.
   */
  lemma RestartKeepsOrderIff(v5: bool, store: Store, keys: seq<Key>, sent: seq<OutMsg>)
    requires WellFormedStore(v5, store) && Enumerates(keys, store)
    requires OneLap(sent) && forall e :: e in sent <==> e in RestoreSorted(v5, store, keys)
    ensures Restored(v5, store, keys) == sent <==> WidestGapFirst(sent)
  {
    hide WellFormedStore, OneLap, RestoreSorted, Turn, Rotated, Fits, SortedById, WidestGapFirst, Wrapped;
    var k := Turn(sent, |sent|);
    var t := Rotated(sent, k);
    RestoreSortedIs(v5, store, keys);
    TurnSorts(sent);
    RotatedElements(sent, k);
    SortedUnique(RestoreSorted(v5, store, keys), t);
    WrapIff(sent);
  }

  lemma RotationsDiffer(list: seq<OutMsg>, a: nat, b: nat)
    requires SortedById(list) && a < |list| && b < |list|
    ensures Rotated(list, a) == Rotated(list, b) <==> a == b
  {
    assert Rotated(list, a)[0] == list[a] && Rotated(list, b)[0] == list[b];
  }

  lemma RotateBack(list: seq<OutMsg>, k: nat)
    requires 0 < k <= |list|
    ensures Rotated(Rotated(list, k), Place(|list|, k, 0)) == list
  {
    var n := |list|;
    if k == n {
      assert Rotated(list, n) == list;
    } else {
      assert Rotated(list, k)[n - k..] == list[..k] && Rotated(list, k)[..n - k] == list[k..];
      assert list == list[..k] + list[k..];
    }
  }

  lemma WrapShort(list: seq<OutMsg>, k: nat)
    requires |list| <= 1 && k <= |list|
    ensures Wrapped(Rotated(list, k)) == list
  {
    assert Rotated(list, k) == list;
  }

  lemma WrapIff(sent: seq<OutMsg>)
    requires OneLap(sent)
    ensures Wrapped(Rotated(sent, Turn(sent, |sent|))) == sent <==> WidestGapFirst(sent)
  {
    var k, n := Turn(sent, |sent|), |sent|;
    if n <= 1 {
      WrapShort(sent, k);
    } else {
      hide Turn, OneLap, WidestGapFirst, Gap, SortedById;
      TurnSorts(sent);
      var s := Rotated(sent, k);
      var first, r := Place(n, k, 0), WidestGap(s, n);
      RotateBack(sent, k);
      RotationsDiffer(s, first, r);
      assert Wrapped(s) == Rotated(s, r);
      WidestIff(sent);
    }
  }

  /** How element i of the sending order looks from the sorted list. */
  lemma SeenSorted(sent: seq<OutMsg>, i: nat)
    requires OneLap(sent) && 0 < i < |sent|
    ensures var k := Turn(sent, |sent|);
            var p, first := Place(|sent|, k, i), Place(|sent|, k, 0);
            p != first && Gap(Rotated(sent, k), p) == GapBefore(sent, i) && (p < first <==> sent[i].id < sent[0].id)
  {
    GapsAgree(sent, i);
    TurnSorts(sent);
    var k := Turn(sent, |sent|);
    var s, p, first := Rotated(sent, k), Place(|sent|, k, i), Place(|sent|, k, 0);
    RotatedAt(sent, k, p);
    RotatedAt(sent, k, first);
    hide Rotated, Turn, OneLap, Gap, GapBefore;
    assert p < first ==> s[p].id < s[first].id;
    assert first < p ==> s[first].id < s[p].id;
  }

  lemma WidestIff(sent: seq<OutMsg>)
    requires OneLap(sent) && |sent| > 1
    ensures var k := Turn(sent, |sent|);
            WidestGap(Rotated(sent, k), |sent|) == Place(|sent|, k, 0) <==> WidestGapFirst(sent)
  {
    hide Rotated, OneLap, Gap, GapBefore, Turn;
    var k, n := Turn(sent, |sent|), |sent|;
    var s := Rotated(sent, k);
    var first, r := Place(n, k, 0), WidestGap(s, n);
    GapsAgree(sent, 0);
    if r == first {
      forall i | 0 < i < n
        ensures GapBefore(sent, 0) > GapBefore(sent, i)
                  || (GapBefore(sent, 0) == GapBefore(sent, i) && sent[0].id < sent[i].id)
      {
        SeenSorted(sent, i);
        if sent[i].id == sent[0].id { SameIdSamePlace(sent, i); }
      }
    } else {
      var i := if r + k < n then r + k else r + k - n;
      assert r == Place(n, k, i);
      assert i > 0;
      SeenSorted(sent, i);
    }
  }

  lemma SameIdSamePlace(sent: seq<OutMsg>, i: nat)
    requires OneLap(sent) && 0 < i < |sent|
    ensures sent[i].id != sent[0].id
  {
    assert Ahead(sent[0].id, sent[0].id) < Ahead(sent[0].id, sent[i].id);
  }
}
