/** What holds of every red-black tree, and of every run of additions and removals. */
module TreeTheorems {
  import opened Common
  import opened Shapes
  import opened Colors
  import opened Grafts
  import opened Balance
  import opened Fixups
  import opened Orders
  import opened Trees
  import opened Replacing

  // ----- height -----

  ghost function Height<N>(s: Shape<N>, o: Option<N>): nat
    requires s.Linked() && (o.Some? ==> o.value in s.nodes)
    decreases |s.E(o)|
  {
    if o.None? then 0
    else
      ChildNodes(s, o.value);
      ChildShorter(s, o.value);
      var l, r := Height(s, s.C(o.value, false)), Height(s, s.C(o.value, true));
      1 + if l > r then l else r
  }

  function Pow2(n: nat): nat {
    if n == 0 then 1 else 2 * Pow2(n - 1)
  }

  lemma HeightIs<N>(s: Shape<N>, n: N)
    requires s.Linked() && n in s.nodes
    ensures forall d :: s.C(n, d).Some? ==> s.C(n, d).value in s.nodes
    ensures Height(s, Some(n)) <= 1 + Height(s, s.C(n, false)) || Height(s, Some(n)) <= 1 + Height(s, s.C(n, true))
    ensures |s.E(Some(n))| == |s.E(s.C(n, false))| + 1 + |s.E(s.C(n, true))|
  {
    assert s.LinkedAt(n);
    ChildNodes(s, n);
  }

  lemma {:induction false} HeightBounds<N>(s: Shape<N>, c: Paint<N>, o: Option<N>)
    requires s.Linked() && Colored(s, c, None, None) && (o.Some? ==> o.value in s.nodes)
    ensures Height(s, o) <= 2 * c.B(o) + if c.Red(o) then 1 else 0
    ensures Pow2(c.B(o)) <= |s.E(o)| + 1
    decreases |s.E(o)|
  {
    hide Shape.C, Shape.P, Shape.E, Paint.Red, Paint.B, Shape.Linked, Colored;
    NoneBlack(c);
    NoElems(s);
    if o.Some? {
      var n := o.value;
      HeightIs(s, n);
      HeightBounds(s, c, s.C(n, false));
      HeightBounds(s, c, s.C(n, true));
      ColorsAt(s, c, n);
      hide Height;
    }
  }

  lemma {:induction false} Pow2Sum(a: nat, b: nat)
    ensures Pow2(a + b) == Pow2(a) * Pow2(b)
  {
    if a > 0 {
      Pow2Sum(a - 1, b);
      Doubled(Pow2(a - 1), Pow2(b));
    }
  }

  lemma Doubled(x: nat, y: nat)
    ensures 2 * (x * y) == (2 * x) * y
  {
  }

  lemma {:induction false} Pow2Grows(a: nat, b: nat)
    requires a <= b
    ensures Pow2(a) <= Pow2(b)
  {
    if a < b { Pow2Grows(a, b - 1); }
  }

  /** The height of a red-black tree is at most twice the binary logarithm of one more than its nodes. */
  lemma HeightLogarithmic<N>(s: Shape<N>, c: Paint<N>)
    requires Balanced(s, c)
    ensures Pow2(Height(s, s.root)) <= (|s.E(s.root)| + 1) * (|s.E(s.root)| + 1)
  {
    hide Shape.C, Shape.P, Shape.E, Paint.Red, Paint.B, Pow2, Height, Shape.Linked, Colored;
    RootIn(s);
    HeightBounds(s, c, s.root);
    PowerSquare(Height(s, s.root), c.B(s.root), |s.E(s.root)| + 1);
  }

  lemma RootIn<N>(s: Shape<N>)
    requires s.Linked()
    ensures s.root.Some? ==> s.root.value in s.nodes
  {
  }

  lemma PowerSquare(h: nat, b: nat, n: nat)
    requires h <= 2 * b && Pow2(b) <= n
    ensures Pow2(h) <= n * n
  {
    hide Pow2;
    Pow2Grows(h, b + b);
    Pow2Sum(b, b);
    Squares(Pow2(b), n);
  }

  lemma Squares(a: nat, b: nat)
    requires a <= b
    ensures a * a <= b * b
  {
    assert a * a <= a * b <= b * b;
  }

  // ----- one addition -----

  /**
   * TreeAdd on a red-black tree, in place: it stays one when the key is fresh or refused; and when the key's entry is
   * replaced, exactly when its node is not bent, as no black heights fit otherwise.
   */
  method AddOnce<T(!new)>(tree: Tree<T>, content: T, size0: nat) returns (rc: Option<T>, ghost at: nat)
    requires tree.Valid()
    modifies tree, tree.view.nodes
    ensures tree.Ordered()
    ensures old(Lookup(tree.Key(content), tree.Listed())) == None || tree.allowDuplicates ==> tree.Valid()
    ensures old(Lookup(tree.Key(content), tree.Listed())).Some? && !tree.allowDuplicates ==>
              && at < |old(tree.Listed())|
              && tree.compare(old(tree.Listed())[at].content, content) == 0
              && old(tree.view.E(tree.view.root))[at] in old(tree.view.nodes)
              && (tree.Valid() <==> !old(Bent(tree.view, tree.paint, tree.view.E(tree.view.root)[at])))
    ensures old(Lookup(tree.Key(content), tree.Listed())).Some? && !tree.allowDuplicates && !tree.Valid() ==>
              forall b: map<Node<T>, nat> :: !Balanced(tree.view, Paint(tree.paint.red, b))
  {
    hide Lookup, Latest, Inserted, Deleted, Sum, Sorted, TotalOrder, Balanced, Bent, Tree.Agrees, Shape.Linked, Shape.E,
         FixAdd, AddedTo;
    ghost var s, c := tree.view, tree.paint;
    rc, at := tree.AddByIndex(content, size0);
    if old(Lookup(tree.Key(content), tree.Listed())).Some? && !tree.allowDuplicates {
      ReplaceKeepsBalanceIff(s, c, s.E(s.root)[at]);
      SamePaint(tree.paint);
    }
  }

  lemma SamePaint<N>(c: Paint<N>)
    ensures c == Paint(c.red, c.bh)
  {
  }

  // ----- runs -----

  /** Every addition is of a key that is not there at the time. */
  ghost predicate FreshRun<T(!new)>(compare: (T, T) -> int, run: seq<Command<T>>) {
    forall i | 0 <= i < |run| && run[i].Put? :: Latest(compare, run[..i], run[i].item.content) == None
  }

  /** Over any run of fresh additions and removals the tree stays a red-black tree and is the finite map. */
  method Perform<T(!new)>(tree: Tree<T>, run: seq<Command<T>>)
    requires tree.Valid() && tree.Listed() == [] && FreshRun(tree.compare, run)
    modifies tree, tree.view.nodes
    ensures tree.Valid() && tree.Listed() == Ran(tree.compare, run)
    ensures forall k :: Lookup(tree.Key(k), tree.Listed()) == Latest(tree.compare, run, k)
    ensures tree.count == |tree.Listed()| && tree.size == Sum(tree.Listed())
  {
    hide Lookup, Latest, Inserted, Deleted, Sum, Sorted, TotalOrder, Balanced, Tree.Agrees, Shape.Linked, Shape.E;
    var i := 0;
    while i < |run|
      invariant i <= |run| && tree.Valid() && tree.Listed() == Ran(tree.compare, run[..i])
      invariant fresh(tree.view.nodes - old(tree.view.nodes))
    {
      assert run[..i + 1][..i] == run[..i];
      match run[i] {
        case Put(x) =>
          RunIsMap(tree.compare, run[..i], x.content);
          var _, _ := tree.AddByIndex(x.content, x.size);
        case Del(key) =>
          var _ := tree.RemoveIndex(key);
      }
      i := i + 1;
    }
    assert run[..i] == run;
    forall k ensures Lookup(tree.Key(k), tree.Listed()) == Latest(tree.compare, run, k) {
      RunIsMap(tree.compare, run, k);
    }
  }

  /** Additions only, of any keys: each replaces the entry with its key, or is refused because there is one. */
  ghost function Gathered<T(!new)>(compare: (T, T) -> int, refuse: bool, run: seq<Item<T>>): seq<Item<T>> {
    if run == [] then []
    else
      var l, x := Gathered(compare, refuse, run[..|run| - 1]), run[|run| - 1];
      if refuse && Lookup(c => compare(c, x.content), l).Some? then l else Inserted(compare, l, x)
  }

  /** The last addition of the key counts, or the first one where later ones are refused. */
  ghost function Counting<T(!new)>(compare: (T, T) -> int, refuse: bool, run: seq<Item<T>>, k: T): Option<Item<T>> {
    if run == [] then None
    else
      var before, x := Counting(compare, refuse, run[..|run| - 1], k), run[|run| - 1];
      if compare(x.content, k) == 0 && (before == None || !refuse) then Some(x) else before
  }

  lemma {:induction false} LookupAlike<T(!new)>(compare: (T, T) -> int, l: seq<Item<T>>, a: T, b: T)
    requires TotalOrder(compare) && compare(a, b) == 0
    ensures Lookup(c => compare(c, a), l) == Lookup(c => compare(c, b), l)
  {
    if l != [] {
      EqualAlike(compare, a, b, l[0].content);
      Mirrored(compare, a, l[0].content);
      Mirrored(compare, b, l[0].content);
      LookupAlike(compare, l[1..], a, b);
    }
  }

  lemma Mirrored<T(!new)>(compare: (T, T) -> int, a: T, b: T)
    requires TotalOrder(compare)
    ensures compare(a, b) == 0 <==> compare(b, a) == 0
  {
  }

  lemma {:induction false} GatheredIsMap<T(!new)>(compare: (T, T) -> int, refuse: bool, run: seq<Item<T>>, k: T)
    requires TotalOrder(compare)
    ensures Sorted(compare, Gathered(compare, refuse, run))
    ensures Lookup(c => compare(c, k), Gathered(compare, refuse, run)) == Counting(compare, refuse, run, k)
  {
    if run != [] {
      var l, x := Gathered(compare, refuse, run[..|run| - 1]), run[|run| - 1];
      GatheredIsMap(compare, refuse, run[..|run| - 1], k);
      InsertedSorted(compare, l, x);
      InsertedLookup(compare, l, x, k);
      if compare(x.content, k) == 0 { LookupAlike(compare, l, x.content, k); }
      hide Lookup, Inserted, Sorted, TotalOrder;
    }
  }

  /** Over any run of additions, of equal keys too, the tree stays in order and is the map, balanced or not. */
  method PerformAdds<T(!new)>(tree: Tree<T>, run: seq<Item<T>>)
    requires tree.Ordered() && tree.Listed() == []
    modifies tree, tree.view.nodes
    ensures tree.Ordered() && tree.Listed() == Gathered(tree.compare, tree.allowDuplicates, run)
    ensures forall k :: Lookup(tree.Key(k), tree.Listed()) == Counting(tree.compare, tree.allowDuplicates, run, k)
    ensures tree.count == |tree.Listed()| && tree.size == Sum(tree.Listed())
  {
    hide Lookup, Counting, Inserted, Sum, Sorted, TotalOrder, Balanced, Tree.Agrees, Shape.Linked, Shape.E, FixAdd,
         AddedTo;
    var i := 0;
    while i < |run|
      invariant i <= |run| && tree.Ordered()
      invariant tree.Listed() == Gathered(tree.compare, tree.allowDuplicates, run[..i])
      invariant fresh(tree.view.nodes - old(tree.view.nodes))
    {
      assert run[..i + 1][..i] == run[..i];
      ghost var l := tree.Listed();
      var _, _ := tree.AddByIndex(run[i].content, run[i].size);
      i := i + 1;
    }
    assert run[..i] == run;
    forall k ensures Lookup(tree.Key(k), tree.Listed()) == Counting(tree.compare, tree.allowDuplicates, run, k) {
      GatheredIsMap(tree.compare, tree.allowDuplicates, run, k);
    }
  }
}
