/** Entries in comparator order, the map they stand for, and how a run of additions and removals changes it. */
module Orders {
  import opened Common
  import opened Shapes

  /** What a node carries. */
  datatype Item<T> = Item(content: T, size: nat)

  ghost predicate TotalOrder<T(!new)>(compare: (T, T) -> int) {
    && (forall a, b :: compare(a, b) > 0 <==> compare(b, a) < 0)
    && (forall a, b, c :: compare(a, b) >= 0 && compare(b, c) >= 0 ==> compare(a, c) >= 0)
  }

  /** Strictly in the order of the comparator: an earlier entry compares positive with a later one. */
  ghost predicate Sorted<T(!new)>(compare: (T, T) -> int, l: seq<Item<T>>) {
    forall i, j | 0 <= i < j < |l| :: compare(l[i].content, l[j].content) > 0
  }

  /** A search function's sign falls from positive through at most one zero to negative. */
  ghost predicate Falls<T(!new)>(f: T -> int, l: seq<Item<T>>) {
    forall i, j | 0 <= i < j < |l| :: f(l[i].content) <= 0 ==> f(l[j].content) < 0
  }

  function Sum<T>(l: seq<Item<T>>): nat {
    if l == [] then 0 else l[0].size + Sum(l[1..])
  }

  lemma {:induction false} SumConcat<T>(a: seq<Item<T>>, b: seq<Item<T>>)
    ensures Sum(a + b) == Sum(a) + Sum(b)
  {
    if a == [] { assert a + b == b; } else { assert (a + b)[1..] == a[1..] + b; SumConcat(a[1..], b); }
  }

  lemma SumThree<T>(a: seq<Item<T>>, x: Item<T>, b: seq<Item<T>>)
    ensures Sum(a + [x] + b) == Sum(a) + x.size + Sum(b)
  {
    SumConcat(a + [x], b);
    SumConcat(a, [x]);
    assert [x][1..] == [];
    assert Sum<T>([]) == 0;
  }

  lemma KeyFalls<T(!new)>(compare: (T, T) -> int, l: seq<Item<T>>, key: T)
    requires TotalOrder(compare) && Sorted(compare, l)
    ensures Falls(c => compare(c, key), l)
  {
    forall i, j | 0 <= i < j < |l| && compare(l[i].content, key) <= 0 ensures compare(l[j].content, key) < 0 {
      var a, b := l[i].content, l[j].content;
      assert compare(a, b) > 0;
      assert compare(b, key) >= 0 && compare(key, a) >= 0 ==> compare(b, a) >= 0;
    }
  }

  /** A falling function is positive before lo and negative from hi on. */
  ghost predicate Narrowed<T(!new)>(f: T -> int, l: seq<Item<T>>, lo: nat, hi: nat) {
    && (forall k | 0 <= k < lo && k < |l| :: f(l[k].content) > 0)
    && (forall k | hi <= k < |l| :: f(l[k].content) < 0)
  }

  lemma NarrowedAll<T(!new)>(f: T -> int, l: seq<Item<T>>)
    ensures Narrowed(f, l, 0, |l|)
  {
  }

  lemma Narrows<T(!new)>(f: T -> int, l: seq<Item<T>>, lo: nat, hi: nat, mid: nat)
    requires Falls(f, l) && Narrowed(f, l, lo, hi) && lo <= mid < hi <= |l|
    ensures f(l[mid].content) > 0 ==> Narrowed(f, l, mid + 1, hi)
    ensures f(l[mid].content) < 0 ==> Narrowed(f, l, lo, mid)
  {
  }

  lemma NarrowedEnds<T(!new)>(f: T -> int, l: seq<Item<T>>, at: nat)
    requires Narrowed(f, l, at, at)
    ensures forall j | 0 <= j < at && j < |l| :: f(l[j].content) > 0
    ensures forall j | at <= j < |l| :: f(l[j].content) < 0
  {
  }

  lemma SelfEqual<T(!new)>(compare: (T, T) -> int, a: T)
    requires TotalOrder(compare)
    ensures compare(a, a) == 0
  {
  }

  // ----- the map -----

  /** The entry whose content the search function calls equal. */
  ghost function Lookup<T(!new)>(f: T -> int, l: seq<Item<T>>): Option<Item<T>> {
    if l == [] then None else if f(l[0].content) == 0 then Some(l[0]) else Lookup(f, l[1..])
  }

  /** At a zero of a falling search function stands the entry looked up, and without a zero there is none. */
  lemma {:induction false} LookupIs<T(!new)>(f: T -> int, l: seq<Item<T>>)
    requires Falls(f, l)
    ensures forall i | 0 <= i < |l| && f(l[i].content) == 0 :: Lookup(f, l) == Some(l[i])
    ensures (forall i | 0 <= i < |l| :: f(l[i].content) != 0) ==> Lookup(f, l) == None
  {
    if l != [] {
      LookupIs(f, l[1..]);
      forall i | 0 <= i < |l| && f(l[i].content) == 0 ensures Lookup(f, l) == Some(l[i]) {
        if i > 0 { assert l[1..][i - 1] == l[i]; }
      }
      if forall i | 0 <= i < |l| :: f(l[i].content) != 0 {
        forall i | 0 <= i < |l[1..]| ensures f(l[1..][i].content) != 0 { assert l[1..][i] == l[i + 1]; }
      }
    }
  }

  // ----- nodes and their entries -----

  function Listing<N, T>(e: seq<N>, items: map<N, Item<T>>): (l: seq<Item<T>>)
    requires forall n | n in e :: n in items
    ensures |l| == |e| && forall i | 0 <= i < |e| :: l[i] == items[e[i]]
  {
    seq(|e|, i requires 0 <= i < |e| => items[e[i]])
  }

  lemma SortedDistinct<N, T(!new)>(compare: (T, T) -> int, e: seq<N>, items: map<N, Item<T>>)
    requires TotalOrder(compare) && (forall n | n in e :: n in items) && Sorted(compare, Listing(e, items))
    ensures forall i, j | 0 <= i < j < |e| :: e[i] != e[j]
  {
    forall i, j | 0 <= i < j < |e| ensures e[i] != e[j] {
      SelfEqual(compare, items[e[i]].content);
    }
  }

  /** A fresh entry goes where the comparator's sign changes. */
  lemma InsertSorted<T(!new)>(compare: (T, T) -> int, l: seq<Item<T>>, x: Item<T>, i: nat)
    requires TotalOrder(compare) && Sorted(compare, l) && i <= |l|
    requires forall j | 0 <= j < i :: compare(l[j].content, x.content) > 0
    requires forall j | i <= j < |l| :: compare(l[j].content, x.content) < 0
    ensures Sorted(compare, l[..i] + [x] + l[i..])
  {
  }

  lemma RemoveSorted<T(!new)>(compare: (T, T) -> int, l: seq<Item<T>>, i: nat)
    requires Sorted(compare, l) && i < |l|
    ensures Sorted(compare, l[..i] + l[i + 1..])
  {
  }

  lemma ReplaceSorted<T(!new)>(compare: (T, T) -> int, l: seq<Item<T>>, i: nat, x: Item<T>)
    requires TotalOrder(compare) && Sorted(compare, l) && i < |l| && compare(l[i].content, x.content) == 0
    ensures Sorted(compare, l[i := x])
  {
    var m := l[i := x];
    var y := l[i].content;
    forall j, k | 0 <= j < k < |m| ensures compare(m[j].content, m[k].content) > 0 {
      var a, b := l[j].content, l[k].content;
      assert compare(a, b) > 0;
      if j == i {
        assert compare(y, b) > 0;
        assert compare(b, x.content) >= 0 && compare(x.content, y) >= 0 ==> compare(b, y) >= 0;
      } else if k == i {
        assert compare(a, y) > 0;
        assert compare(y, x.content) >= 0 && compare(x.content, a) >= 0 ==> compare(y, a) >= 0;
      }
    }
  }

  // ----- runs -----

  /** Adding an entry: it replaces the one that compares equal, or goes before the first that follows it. */
  ghost function Inserted<T(!new)>(compare: (T, T) -> int, l: seq<Item<T>>, x: Item<T>): seq<Item<T>> {
    if l == [] || compare(l[0].content, x.content) < 0 then [x] + l
    else if compare(l[0].content, x.content) == 0 then [x] + l[1..]
    else [l[0]] + Inserted(compare, l[1..], x)
  }

  /** Removing the entry that compares equal, if there is one. */
  ghost function Deleted<T(!new)>(compare: (T, T) -> int, l: seq<Item<T>>, key: T): seq<Item<T>> {
    if l == [] then [] else if compare(l[0].content, key) == 0 then l[1..] else [l[0]] + Deleted(compare, l[1..], key)
  }

  lemma {:induction false} InsertedFresh<T(!new)>(compare: (T, T) -> int, l: seq<Item<T>>, x: Item<T>, at: nat)
    requires at <= |l|
    requires forall j | 0 <= j < at :: compare(l[j].content, x.content) > 0
    requires forall j | at <= j < |l| :: compare(l[j].content, x.content) < 0
    ensures Inserted(compare, l, x) == l[..at] + [x] + l[at..]
  {
    if at > 0 {
      InsertedFresh(compare, l[1..], x, at - 1);
      assert l[..at] + [x] + l[at..] == [l[0]] + (l[1..][..at - 1] + [x] + l[1..][at - 1..]);
    } else {
      assert l[..0] + [x] + l[0..] == [x] + l;
    }
  }

  lemma {:induction false} InsertedEqual<T(!new)>(compare: (T, T) -> int, l: seq<Item<T>>, x: Item<T>, at: nat)
    requires at < |l| && compare(l[at].content, x.content) == 0
    requires forall j | 0 <= j < at :: compare(l[j].content, x.content) > 0
    ensures Inserted(compare, l, x) == l[at := x]
  {
    if at > 0 {
      InsertedEqual(compare, l[1..], x, at - 1);
      assert l[at := x] == [l[0]] + l[1..][at - 1 := x];
    } else {
      assert l[0 := x] == [x] + l[1..];
    }
  }

  lemma {:induction false} DeletedAt<T(!new)>(compare: (T, T) -> int, l: seq<Item<T>>, key: T, at: nat)
    requires at < |l| && compare(l[at].content, key) == 0
    requires forall j | 0 <= j < at :: compare(l[j].content, key) != 0
    ensures Deleted(compare, l, key) == l[..at] + l[at + 1..]
  {
    if at > 0 {
      DeletedAt(compare, l[1..], key, at - 1);
      assert l[..at] + l[at + 1..] == [l[0]] + (l[1..][..at - 1] + l[1..][at..]);
    } else {
      assert l[..0] + l[1..] == l[1..];
    }
  }

  lemma {:induction false} DeletedNone<T(!new)>(compare: (T, T) -> int, l: seq<Item<T>>, key: T)
    requires forall j | 0 <= j < |l| :: compare(l[j].content, key) != 0
    ensures Deleted(compare, l, key) == l
  {
    if l != [] {
      forall j | 0 <= j < |l[1..]| ensures compare(l[1..][j].content, key) != 0 { assert l[1..][j] == l[j + 1]; }
      DeletedNone(compare, l[1..], key);
    }
  }

  datatype Command<T> = Put(item: Item<T>) | Del(key: T)

  /** What a run of commands leaves. */
  ghost function Ran<T(!new)>(compare: (T, T) -> int, run: seq<Command<T>>): seq<Item<T>> {
    if run == [] then []
    else
      var l := Ran(compare, run[..|run| - 1]);
      match run[|run| - 1]
      case Put(x) => Inserted(compare, l, x)
      case Del(key) => Deleted(compare, l, key)
  }

  /** What a finite map would hold for k after the run: the last command about k decides. */
  ghost function Latest<T(!new)>(compare: (T, T) -> int, run: seq<Command<T>>, k: T): Option<Item<T>> {
    if run == [] then None
    else match run[|run| - 1]
      case Put(x) => if compare(x.content, k) == 0 then Some(x) else Latest(compare, run[..|run| - 1], k)
      case Del(key) => if compare(key, k) == 0 then None else Latest(compare, run[..|run| - 1], k)
  }

  /** Where the comparator's sign against a key turns. */
  lemma {:induction false} Turn<T(!new)>(f: T -> int, l: seq<Item<T>>) returns (at: nat)
    requires Falls(f, l)
    ensures at <= |l| && forall j | 0 <= j < at :: f(l[j].content) > 0
    ensures at < |l| ==> f(l[at].content) <= 0
    ensures forall j | at < j < |l| :: f(l[j].content) < 0
  {
    if l == [] || f(l[0].content) <= 0 {
      at := 0;
    } else {
      var rest := Turn(f, l[1..]);
      at := rest + 1;
      forall j | 0 <= j < at ensures f(l[j].content) > 0 { if j > 0 { assert l[1..][j - 1] == l[j]; } }
      forall j | at < j < |l| ensures f(l[j].content) < 0 { assert l[1..][j - 1] == l[j]; }
      if at < |l| { assert l[1..][rest] == l[at]; }
    }
  }

  lemma InsertedSorted<T(!new)>(compare: (T, T) -> int, l: seq<Item<T>>, x: Item<T>)
    requires TotalOrder(compare) && Sorted(compare, l)
    ensures Sorted(compare, Inserted(compare, l, x))
  {
    KeyFalls(compare, l, x.content);
    var at := Turn(c => compare(c, x.content), l);
    if at < |l| && compare(l[at].content, x.content) == 0 {
      InsertedEqual(compare, l, x, at);
      ReplaceSorted(compare, l, at, x);
    } else {
      InsertedFresh(compare, l, x, at);
      InsertSorted(compare, l, x, at);
    }
  }

  lemma DeletedSorted<T(!new)>(compare: (T, T) -> int, l: seq<Item<T>>, key: T)
    requires TotalOrder(compare) && Sorted(compare, l)
    ensures Sorted(compare, Deleted(compare, l, key))
  {
    KeyFalls(compare, l, key);
    var at := Turn(c => compare(c, key), l);
    if at < |l| && compare(l[at].content, key) == 0 {
      DeletedAt(compare, l, key, at);
      RemoveSorted(compare, l, at);
    } else {
      DeletedNone(compare, l, key);
    }
  }

  /** Contents that compare equal compare alike with every key. */
  lemma EqualAlike<T(!new)>(compare: (T, T) -> int, a: T, b: T, k: T)
    requires TotalOrder(compare) && compare(a, b) == 0
    ensures compare(a, k) == 0 <==> compare(b, k) == 0
  {
    assert compare(b, a) == 0;
    assert compare(a, b) >= 0 && compare(b, k) >= 0 ==> compare(a, k) >= 0;
    assert compare(b, a) >= 0 && compare(a, k) >= 0 ==> compare(b, k) >= 0;
    assert compare(k, a) >= 0 && compare(a, b) >= 0 ==> compare(k, b) >= 0;
    assert compare(k, b) >= 0 && compare(b, a) >= 0 ==> compare(k, a) >= 0;
  }

  lemma LookupCons<T(!new)>(f: T -> int, x: Item<T>, l: seq<Item<T>>)
    ensures Lookup(f, [x] + l) == if f(x.content) == 0 then Some(x) else Lookup(f, l)
  {
    assert ([x] + l)[1..] == l;
  }

  lemma {:induction false} InsertedLookup<T(!new)>(compare: (T, T) -> int, l: seq<Item<T>>, x: Item<T>, k: T)
    requires TotalOrder(compare) && Sorted(compare, l)
    ensures Lookup(c => compare(c, k), Inserted(compare, l, x)) == if compare(x.content, k) == 0 then Some(x)
              else Lookup(c => compare(c, k), l)
  {
    var f := (c: T) => compare(c, k);
    LookupCons(f, x, l);
    if l != [] {
      assert l == [l[0]] + l[1..];
      LookupCons(f, l[0], l[1..]);
      LookupCons(f, x, l[1..]);
      LookupCons(f, l[0], Inserted(compare, l[1..], x));
      if compare(l[0].content, x.content) == 0 { EqualAlike(compare, l[0].content, x.content, k); }
      if compare(x.content, k) == 0 { EqualAlike(compare, x.content, k, l[0].content); }
      if compare(l[0].content, x.content) > 0 {
        TailSorted(compare, l);
        InsertedLookup(compare, l[1..], x, k);
      }
      hide Lookup, TotalOrder, Sorted;
    }
  }

  lemma TailSorted<T(!new)>(compare: (T, T) -> int, l: seq<Item<T>>)
    requires Sorted(compare, l) && l != []
    ensures Sorted(compare, l[1..])
  {
  }

  lemma {:induction false} DeletedLookup<T(!new)>(compare: (T, T) -> int, l: seq<Item<T>>, key: T, k: T)
    requires TotalOrder(compare) && Sorted(compare, l)
    ensures Lookup(c => compare(c, k), Deleted(compare, l, key)) == if compare(key, k) == 0 then None
              else Lookup(c => compare(c, k), l)
  {
    var f := (c: T) => compare(c, k);
    if l != [] {
      if compare(l[0].content, key) == 0 {
        EqualAlike(compare, l[0].content, key, k);
        if compare(key, k) == 0 {
          KeyFalls(compare, l, k);
          LookupIs(f, l[1..]);
        }
      } else {
        DeletedLookup(compare, l[1..], key, k);
        assert ([l[0]] + Deleted(compare, l[1..], key))[1..] == Deleted(compare, l[1..], key);
        if compare(key, k) == 0 { EqualAlike(compare, key, k, l[0].content); }
      }
    }
  }

  /** Whatever the run, what it leaves is in order and answers every search as the finite map does. */
  lemma {:induction false} RunIsMap<T(!new)>(compare: (T, T) -> int, run: seq<Command<T>>, k: T)
    requires TotalOrder(compare)
    ensures Sorted(compare, Ran(compare, run))
    ensures Lookup(c => compare(c, k), Ran(compare, run)) == Latest(compare, run, k)
  {
    if run != [] {
      var l := Ran(compare, run[..|run| - 1]);
      RunIsMap(compare, run[..|run| - 1], k);
      match run[|run| - 1]
      case Put(x) => InsertedSorted(compare, l, x); InsertedLookup(compare, l, x, k);
      case Del(key) => DeletedSorted(compare, l, key); DeletedLookup(compare, l, key, k);
    }
  }

  /** A falling function has its zero once. */
  lemma FallsOnce<T(!new)>(f: T -> int, l: seq<Item<T>>, at: nat)
    requires Falls(f, l) && at < |l| && f(l[at].content) == 0
    ensures forall j | 0 <= j < at :: f(l[j].content) > 0
    ensures forall j | at < j < |l| :: f(l[j].content) < 0
  {
  }
}
