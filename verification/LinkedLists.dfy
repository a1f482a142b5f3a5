/** The doubly linked list with a remembered position (LinkedList.c). */
module LinkedLists {
  import opened Common

  class ListElement<T> {
    var prev: ListElement?<T>
    var next: ListElement?<T>
    const content: T

    constructor (content: T)
      ensures this.content == content && prev == null && next == null
    {
      this.content := content;
      prev, next := null, null;
    }
  }

  function At<T>(e: seq<ListElement<T>>, i: int): ListElement?<T> {
    if 0 <= i < |e| then e[i] else null
  }

  ghost predicate Distinct<T>(e: seq<ListElement<T>>) {
    forall i, j | 0 <= i < j < |e| :: e[i] != e[j]
  }

  function Inserted<T>(e: seq<ListElement<T>>, at: nat, x: ListElement<T>): seq<ListElement<T>>
    requires at <= |e|
  {
    e[..at] + [x] + e[at..]
  }

  function Removed<T>(e: seq<ListElement<T>>, at: nat): seq<ListElement<T>>
    requires at < |e|
  {
    e[..at] + e[at + 1..]
  }

  lemma InsertedIs<T>(e: seq<ListElement<T>>, at: nat, x: ListElement<T>)
    requires at <= |e| && Distinct(e) && x !in e
    ensures var f := Inserted(e, at, x); |f| == |e| + 1 && Distinct(f) && (forall y :: y in f <==> y in e || y == x)
  {
    var f := Inserted(e, at, x);
    assert forall i | 0 <= i < |f| :: f[i] == if i < at then e[i] else if i == at then x else e[i - 1];
    forall y ensures y in f <==> y in e || y == x {
      assert e == e[..at] + e[at..];
    }
  }

  lemma DistinctAt<T>(e: seq<ListElement<T>>, at: nat)
    requires Distinct(e) && at < |e|
    ensures forall j | 0 <= j < |e| && j != at :: e[j] != e[at]
  {
  }

  lemma AtIs<T>(e: seq<ListElement<T>>, at: nat)
    requires at < |e|
    ensures At(e, at) == e[at] && At(e, at - 1) == (if at > 0 then e[at - 1] else null)
              && At(e, at + 1) == if at + 1 < |e| then e[at + 1] else null
  {
  }

  lemma InsertedAt<T>(e: seq<ListElement<T>>, at: nat, x: ListElement<T>, i: int)
    requires at <= |e|
    ensures At(Inserted(e, at, x), i) == if i < at then At(e, i) else if i == at then x else At(e, i - 1)
  {
  }

  lemma RemovedIs<T>(e: seq<ListElement<T>>, at: nat)
    requires at < |e| && Distinct(e)
    ensures var f := Removed(e, at); |f| == |e| - 1 && Distinct(f) && (forall y :: y in f <==> y in e && y != e[at])
  {
    var f := Removed(e, at);
    assert forall i | 0 <= i < |f| :: f[i] == if i < at then e[i] else e[i + 1];
    assert e == e[..at] + [e[at]] + e[at + 1..];
  }

  lemma RemovedAt<T>(e: seq<ListElement<T>>, at: nat, i: int)
    requires at < |e|
    ensures At(Removed(e, at), i) == if i < at then At(e, i) else At(e, i + 1)
  {
  }

  class List<T> {
    var first: ListElement?<T>
    var last: ListElement?<T>
    var current: ListElement?<T>
    var count: int
    var size: nat
    ghost var elems: seq<ListElement<T>>

    ghost predicate LinkedAt(i: nat)
      requires i < |elems|
      reads this`elems, elems[i]
    {
      elems[i].next == At(elems, i + 1) && elems[i].prev == At(elems, i - 1)
    }

    /** Both chains run through the same elements, once each, and the remembered position is one of them or null. */
    ghost predicate Valid()
      reads this, elems
    {
      && Distinct(elems)
      && (forall i | 0 <= i < |elems| :: LinkedAt(i))
      && first == At(elems, 0) && last == At(elems, |elems| - 1)
      && count == |elems| && (current == null || current in elems)
    }

    /** ListZero */
    constructor ()
      ensures Valid() && elems == [] && current == null
    {
      first, last, current, count, size, elems := null, null, null, 0, 0, [];
    }

    /** ListAppendNoMalloc */
    method AppendNoMalloc(newel: ListElement<T>, size0: nat)
      requires Valid() && newel !in elems
      modifies this, newel, elems
      ensures Valid() && elems == old(elems) + [newel] && current == old(current) && size == old(size) + size0
    {
      ghost var e := elems;
      newel.next := null;
      newel.prev := last;
      if first == null {
        first := newel;
      } else {
        assert LinkedAt(|e| - 1);
        last.next := newel;
      }
      last := newel;
      count := count + 1;
      size := size + size0;
      elems := e + [newel];
      forall i | 0 <= i < |elems| ensures LinkedAt(i) {
        if i < |e| { assert old(LinkedAt(i)); }
      }
    }

    method Append(content: T, size0: nat) returns (newel: ListElement<T>)
      requires Valid()
      modifies this, elems
      ensures Valid() && fresh(newel) && newel.content == content
      ensures elems == old(elems) + [newel] && current == old(current) && size == old(size) + size0
    {
      newel := new ListElement(content);
      AppendNoMalloc(newel, size0);
    }

    /** ListInsert: before `index`, or at the end. */
    method Insert(content: T, size0: nat, index: ListElement?<T>, ghost at: nat) returns (newel: ListElement<T>)
      requires Valid() && at <= |elems| && index == At(elems, at)
      modifies this, elems
      ensures Valid() && fresh(newel) && newel.content == content && current == old(current)
      ensures elems == Inserted(old(elems), at, newel) && size == old(size) + size0
    {
      newel := new ListElement(content);
      ghost var e := elems;
      if index == null {
        AppendNoMalloc(newel, size0);
        assert e[..at] == e && e[at..] == [];
      } else {
        InsertBefore(newel, size0, index, at);
      }
    }

    lemma Chains()
      requires Valid()
      ensures forall j | 0 <= j < |elems| :: elems[j].next == At(elems, j + 1) && elems[j].prev == At(elems, j - 1)
    {
      forall j | 0 <= j < |elems| ensures elems[j].next == At(elems, j + 1)
          && elems[j].prev == At(elems, j - 1) { assert LinkedAt(j); }
    }

    method InsertBefore(newel: ListElement<T>, size0: nat, index: ListElement<T>, ghost at: nat)
      requires Valid() && at < |elems| && index == elems[at] && newel !in elems
      modifies this, newel, elems
      ensures Valid() && elems == Inserted(old(elems), at, newel) && current == old(current)
                && size == old(size) + size0
    {
      hide Distinct, Inserted, At, LinkedAt;
      ghost var e := elems;
      InsertedIs(e, at, newel);
      Chains();
      DistinctAt(e, at);
      AtIs(e, at);
      if at > 0 { DistinctAt(e, at - 1); }
      newel.next := index;
      newel.prev := index.prev;
      index.prev := newel;
      if newel.prev != null {
        newel.prev.next := newel;
      } else {
        first := newel;
      }
      count := count + 1;
      size := size + size0;
      elems := Inserted(e, at, newel);
      Relinked(e, at, newel);
    }

    lemma Relinked(e: seq<ListElement<T>>, at: nat, x: ListElement<T>)
      requires at < |e| && elems == Inserted(e, at, x) && |elems| == |e| + 1
      requires forall j | 0 <= j < |e| :: e[j].prev == if j == at then x else At(e, j - 1)
      requires forall j | 0 <= j < |e| :: e[j].next == if j == at - 1 then x else At(e, j + 1)
      requires x.next == e[at] && x.prev == At(e, at - 1)
      ensures forall i | 0 <= i < |elems| :: LinkedAt(i)
      ensures At(elems, 0) == (if at == 0 then x else At(e, 0)) && At(elems, |elems| - 1) == At(e, |e| - 1)
    {
      forall i | 0 <= i < |elems| ensures LinkedAt(i) {
        InsertedAt(e, at, x, i);
        InsertedAt(e, at, x, i + 1);
        InsertedAt(e, at, x, i - 1);
      }
      InsertedAt(e, at, x, 0);
      InsertedAt(e, at, x, |e|);
    }

    /** ListNextElement: the element behind pos, or the first. */
    method NextElement(pos: ListElement?<T>, ghost i: nat) returns (r: ListElement?<T>)
      requires Valid() && (pos != null ==> i < |elems| && elems[i] == pos)
      ensures r == At(elems, if pos == null then 0 else i + 1)
    {
      if pos == null {
        r := first;
      } else {
        assert LinkedAt(i);
        r := pos.next;
      }
    }

    /** The first element a linear scan accepts. */
    ghost function Scan(f: T -> bool): nat
      reads this`elems
    {
      ScanOf(elems, f)
    }

    /**
     * ListFindItem: the remembered element if it is accepted, else the first that is. What is found is remembered.
     */
    method FindItem(f: T -> bool) returns (r: ListElement?<T>, ghost at: nat)
      requires Valid()
      modifies this`current
      ensures Valid() && elems == old(elems) && current == if r == null then old(current) else r
      ensures r == null <==> forall e | e in elems :: !f(e.content)
      ensures r != null ==> at < |elems| && elems[at] == r && f(r.content)
      ensures old(current) == null || !f(old(current).content) ==> r == At(elems, Scan(f))
      ensures (forall i, j | 0 <= i < j < |elems| :: !(f(elems[i].content) && f(elems[j].content))) ==>
                r == At(elems, Scan(f))
    {
      ScanIs(elems, f);
      at := 0;
      if current != null && f(current.content) {
        r := current;
        at :| at < |elems| && elems[at] == r;
      } else {
        r := first;
        while r != null && !f(r.content)
          invariant current == old(current) && at <= |elems| && r == At(elems, at)
                    && forall i | 0 <= i < at :: !f(elems[i].content)
          decreases |elems| - at
        {
          r := NextElement(r, at);
          at := at + 1;
        }
        if r != null { current := r; }
      }
    }

    /** Takes an element out of both chains; current and count are the caller's. */
    method Unchain(x: ListElement<T>, ghost at: nat)
      requires Valid() && at < |elems| && elems[at] == x
      modifies this`first, this`last, this`elems, elems
      ensures elems == Removed(old(elems), at) && (forall i | 0 <= i < |elems| :: LinkedAt(i))
      ensures first == At(elems, 0) && last == At(elems, |elems| - 1)
      ensures x.next == At(old(elems), at + 1) && x.prev == At(old(elems), at - 1)
    {
      hide Distinct, Removed, At, LinkedAt;
      ghost var e := elems;
      Chains();
      DistinctAt(e, at);
      AtIs(e, at);
      if at > 0 { DistinctAt(e, at - 1); }
      if at + 1 < |e| { DistinctAt(e, at + 1); }
      RemovedIs(e, at);
      if x.prev == null {
        first := x.next;
      } else {
        x.prev.next := x.next;
      }
      if x.next == null {
        last := x.prev;
      } else {
        x.next.prev := x.prev;
      }
      elems := Removed(e, at);
      Unlinked(e, at);
    }

    lemma Unlinked(e: seq<ListElement<T>>, at: nat)
      requires at < |e| && elems == Removed(e, at) && |elems| == |e| - 1
      requires forall j | 0 <= j < |e| && j != at :: e[j].prev == if j == at + 1 then At(e, at - 1) else At(e, j - 1)
      requires forall j | 0 <= j < |e| && j != at :: e[j].next == if j == at - 1 then At(e, at + 1) else At(e, j + 1)
      ensures forall i | 0 <= i < |elems| :: LinkedAt(i)
      ensures At(elems, 0) == (if at == 0 then At(e, 1) else At(e, 0))
                && At(elems, |elems| - 1) == if at == |e| - 1 then At(e, |e| - 2) else At(e, |e| - 1)
    {
      forall i | 0 <= i < |elems| ensures LinkedAt(i) {
        RemovedAt(e, at, i);
        RemovedAt(e, at, i + 1);
        RemovedAt(e, at, i - 1);
      }
      RemovedAt(e, at, 0);
      RemovedAt(e, at, |e| - 2);
    }

    /** ListUnlink: the element found goes, and the remembered position stays or moves on by one. */
    method Unlink(f: T -> bool) returns (removed: bool, ghost at: nat)
      requires Valid()
      modifies this, elems
      ensures Valid() && (removed <==> exists e :: e in old(elems) && f(e.content)) && size == old(size)
      ensures !removed ==> elems == old(elems) && current == old(current)
      ensures removed ==> at < |old(elems)| && f(old(elems)[at].content) && elems == Removed(old(elems), at)
      ensures removed ==> current == if old(current) == old(elems)[at] then At(old(elems), at + 1) else old(current)
      ensures old(current) == null || !f(old(current).content) ==> (removed ==> at == old(Scan(f)))
    {
      hide Removed, LinkedAt;
      var saved := current;
      var found, place := FindItem(f);
      at := place;
      if found == null { return false, at; }
      ghost var e := elems;
      ScanPlace(e, f, at);
      RemovedIs(e, at);
      Unchain(found, at);
      var next := found.next;
      NextStays(e, at);
      current := if saved == found then next else saved;
      count := count - 1;
      removed := true;
    }

    /** ListDetachHead */
    method DetachHead() returns (content: Option<T>)
      requires Valid()
      modifies this, elems
      ensures Valid() && (old(elems) == [] ==> content == None && elems == [] && current == old(current))
                && size == old(size)
      ensures old(elems) != [] ==> content == Some(old(elems)[0].content) && elems == old(elems)[1..]
      ensures old(elems) != [] ==> current == if old(current) == old(elems)[0] then At(old(elems), 1) else old(current)
    {
      hide Removed, LinkedAt;
      content := None;
      if count > 0 {
        ghost var e := elems;
        var head := first;
        RemovedIs(e, 0);
        NextStays(e, 0);
        Chains();
        if current == head { current := head.next; }
        content := Some(head.content);
        Unchain(head, 0);
        count := count - 1;
        RemovedEnds(e);
      }
    }

    /** ListPopTail */
    method PopTail() returns (content: Option<T>)
      requires Valid()
      modifies this, elems
      ensures Valid() && (old(elems) == [] ==> content == None && elems == [] && current == old(current))
                && size == old(size)
      ensures old(elems) != [] ==> var n := |old(elems)| - 1;
              && content == Some(old(elems)[n].content) && elems == old(elems)[..n]
              && current == if old(current) == old(elems)[n] then At(old(elems), n - 1) else old(current)
    {
      hide Removed, LinkedAt, Distinct, At;
      content := None;
      if count > 0 {
        ghost var e := elems;
        var tail := last;
        ghost var n := |e| - 1;
        RemovedIs(e, n);
        NextStays(e, n);
        AtIs(e, n);
        Chains();
        RemovedEnds(e);
        if current == tail { current := tail.prev; }
        content := Some(tail.content);
        Unchain(tail, n);
        count := count - 1;
      }
    }
  }

  ghost function ScanOf<T>(e: seq<ListElement<T>>, f: T -> bool): nat {
    if e == [] || f(e[0].content) then 0 else 1 + ScanOf(e[1..], f)
  }

  lemma {:induction false} ScanIs<T>(e: seq<ListElement<T>>, f: T -> bool)
    ensures ScanOf(e, f) <= |e| && (forall i | 0 <= i < ScanOf(e, f) :: !f(e[i].content))
    ensures ScanOf(e, f) < |e| ==> f(e[ScanOf(e, f)].content)
  {
    if e != [] && !f(e[0].content) { ScanIs(e[1..], f); }
  }

  lemma ScanPlace<T>(e: seq<ListElement<T>>, f: T -> bool, at: nat)
    requires Distinct(e) && at < |e|
    ensures ScanOf(e, f) <= |e| && (At(e, ScanOf(e, f)) == e[at] ==> at == ScanOf(e, f))
  {
    ScanIs(e, f);
  }

  /** The neighbours of a removed element are not the element itself. */
  lemma NextStays<T>(e: seq<ListElement<T>>, at: nat)
    requires Distinct(e) && at < |e|
    ensures At(e, at + 1) == null || (At(e, at + 1) in e && At(e, at + 1) != e[at])
    ensures At(e, at - 1) == null || (At(e, at - 1) in e && At(e, at - 1) != e[at])
  {
  }

  lemma RemovedEnds<T>(e: seq<ListElement<T>>)
    requires e != []
    ensures Removed(e, 0) == e[1..] && Removed(e, |e| - 1) == e[..|e| - 1]
  {
  }
}
