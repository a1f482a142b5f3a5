/** The tree in memory: nodes with parent pointers, rewritten in place. */
module Trees {
  import opened Common
  import opened Shapes
  import opened Colors
  import opened Grafts
  import opened Balance
  import opened Fixups
  import opened Orders

  class Node<T> {
    var parent: Node?<T>
    var left: Node?<T>
    var right: Node?<T>
    var content: Option<T>
    var size: nat
    var red: bool

    constructor ()
      ensures parent == null && left == null && right == null && content == None && size == 0 && !red
    {
      parent, left, right, content, size, red := null, null, null, None, 0, false;
    }

    /** The child array: left at false, right at true. */
    function Child(d: bool): Node?<T>
      reads this
    {
      if d then right else left
    }
  }

  function Opt<T>(n: Node?<T>): Option<Node<T>> {
    if n == null then None else Some(n)
  }

  predicate IsRed<T>(n: Node?<T>)
    reads n
  {
    n != null && n.red
  }

  class Tree<T(!new)> {
    const compare: (T, T) -> int
    var root: Node?<T>
    var count: int
    var size: int
    const allowDuplicates: bool
    ghost var view: Shape<Node<T>>
    ghost var paint: Paint<Node<T>>
    ghost var items: map<Node<T>, Item<T>>

    ghost predicate AgreesAt(n: Node<T>)
      reads this`view, this`paint, this`items, n
    {
      && Opt(n.left) == view.C(n, false) && Opt(n.right) == view.C(n, true) && Opt(n.parent) == view.P(n)
      && n.red == paint.Red(Some(n))
      && n in items && n.content == Some(items[n].content) && n.size == items[n].size
    }

    /** The ghost pictures are pictures of the nodes in memory. */
    ghost predicate Agrees()
      reads this`root, this`view, this`paint, this`items, view.nodes
    {
      Opt(root) == view.root && forall n | n in view.nodes :: AgreesAt(n)
    }

    method SetChild(n: Node<T>, d: bool, o: Node?<T>)
      requires Agrees() && n in view.nodes
      modifies this`view, n`left, n`right
      ensures Agrees() && view.nodes == old(view.nodes) && view == old(view).SetChild(n, d, Opt(o))
    {
      hide Shape.C, Shape.P, Paint.Red, Shape.SetChild;
      SetChildIs(view, n, d, Opt(o));
      if d { n.right := o; } else { n.left := o; }
      view := view.SetChild(n, d, Opt(o));
    }

    method SetParent(n: Node<T>, o: Node?<T>)
      requires Agrees() && n in view.nodes
      modifies this`view, n`parent
      ensures Agrees() && view.nodes == old(view.nodes) && view == old(view).SetParent(n, Opt(o))
    {
      hide Shape.C, Shape.P, Paint.Red, Shape.SetParent;
      SetParentIs(view, n, Opt(o));
      n.parent := o;
      view := view.SetParent(n, Opt(o));
    }

    method SetRoot(o: Node?<T>)
      requires Agrees()
      modifies this`view, this`root
      ensures Agrees() && view.nodes == old(view.nodes) && view == old(view).SetRoot(Opt(o))
    {
      root := o;
      view := view.SetRoot(Opt(o));
    }

    method SetRed(n: Node<T>, r: bool, ghost b: nat)
      requires Agrees() && n in view.nodes
      modifies this`paint, n`red
      ensures Agrees() && paint == old(paint).Set(n, r, b)
    {
      hide Shape.C, Shape.P, Paint.Red, Paint.Set;
      SetPaint(paint, n, r, b);
      n.red := r;
      paint := paint.Set(n, r, b);
    }

    /** The other node takes cur's place below its parent, or as the root. */
    method Hang(above: Node?<T>, cur: Node<T>, direction: bool, other: Node<T>)
      requires Agrees() && (above != null ==> above in view.nodes)
      modifies this`view, this`root, view.nodes
      ensures Agrees() && view.nodes == old(view.nodes)
      ensures view == if above == null then old(view).SetRoot(Some(other))
                      else old(view).SetChild(above, if old(view).C(above, direction) == Some(cur) then direction
                          else !direction, Some(other))
    {
      hide Agrees, AgreesAt, Shape.C, Shape.P, Shape.E, Shape.SetChild, Shape.SetRoot;
      if above == null {
        SetRoot(other);
      } else {
        Links(above);
        if cur == above.Child(direction) {
          SetChild(above, direction, other);
        } else {
          SetChild(above, !direction, other);
        }
      }
    }

    method Rotate(cur: Node<T>, direction: bool)
      requires Agrees() && view.Linked() && cur in view.nodes && cur.Child(!direction) != null
      modifies this`view, this`root, view.nodes
      ensures Agrees() && old(view).C(cur, !direction).Some? && view == old(view).Rotate(cur, direction)
    {
      hide Agrees, AgreesAt, Shape.C, Shape.P, Shape.E, Shape.SetChild, Shape.SetParent, Shape.SetRoot,
           Shape.SetElems, Shape.Linked;
      ghost var s := view;
      Links(cur);
      RotateApart(s, cur, direction);
      var other := cur.Child(!direction);
      Links(other);
      var inner := other.Child(direction);
      var above := cur.parent;
      SetChild(cur, !direction, inner);
      if inner != null { SetParent(inner, cur); }
      SetParent(other, above);
      if above != null { StillBelow(s, cur, direction); }
      Hang(above, cur, direction, other);
      SetChild(other, direction, cur);
      SetParent(cur, other);
      ghost var low := if direction then s.E(Opt(inner)) + [cur] + s.E(s.C(cur, true))
          else s.E(s.C(cur, false)) + [cur] + s.E(Opt(inner));
      SetElems(cur, low);
      SetElems(other, s.E(Some(cur)));
    }

    ghost method SetElems(n: Node<T>, e: seq<Node<T>>)
      requires Agrees()
      modifies this`view
      ensures Agrees() && view.nodes == old(view.nodes) && view == old(view).SetElems(n, e)
    {
      view := view.SetElems(n, e);
    }

    /** One round of the insertion fix-up; `which` is the uncle's side. */
    method BAASub(cur: Node<T>, which: bool, ghost p: Node<T>, ghost g: Node<T>) returns (r: Node<T>)
      requires Agrees() && Below(view, cur, p, g, which)
      modifies this`view, this`paint, this`root, view.nodes
      ensures Agrees() && Stage(view, paint, r) == old(AddStep(view, paint, cur, p, g, which))
    {
      hide Agrees, AgreesAt, Shape.C, Shape.P, Shape.E, Shape.Linked, Shape.Rotate, Paint.Red, Paint.B, Paint.Set;
      ghost var s, c := view, paint;
      NoneBlack(c);
      Links(cur);
      Links(p);
      Links(g);
      var uncle := cur.parent.parent.Child(which);
      r := cur;
      if uncle != null { ChildNodes(s, g); Links(uncle); }
      if IsRed(uncle) {
        SetRed(cur.parent, false, c.B(Some(p)) + 1);
        SetRed(uncle, false, c.B(Some(uncle)) + 1);
        r := cur.parent.parent;
        SetRed(r, true, c.B(Some(g)));
      } else {
        if cur == cur.parent.Child(which) {
          BelowInner(s, cur, p, g, which);
          r := cur.parent;
          Rotate(r, !which);
        }
        BelowApart(view, r, if r == cur then p else cur, g, which);
        BelowApart(s, cur, p, g, which);
        BAAOuter(r, which, if r == cur then p else cur, g);
      }
    }

    /** The uncle is black and r on the outer side: the node above it takes g's place. */
    method BAAOuter(r: Node<T>, which: bool, ghost p: Node<T>, ghost g: Node<T>)
      requires Agrees() && Below(view, r, p, g, which) && p != g
      modifies this`view, this`paint, this`root, view.nodes
      ensures Agrees() && view == old(view.Rotate(g, which)) && paint == old(Raised(paint, p, g))
    {
      hide Agrees, AgreesAt, Shape.C, Shape.P, Shape.E, Shape.Linked, Shape.Rotate, Paint.Red, Paint.B, Paint.Set;
      ghost var c := paint;
      Links(r);
      Links(p);
      SetRed(r.parent, false, c.B(Some(g)));
      SetRed(r.parent.parent, true, c.B(Some(p)));
      Links(g);
      Rotate(r.parent.parent, which);
    }

    method BalanceAfterAdd(curnode: Node<T>)
      requires Agrees() && view.Linked() && curnode in view.nodes
      modifies this`view, this`paint, this`root, view.nodes
      ensures Agrees() && view == old(FixAdd(view, paint, curnode).s) && paint == old(FixAdd(view, paint, curnode).c)
    {
      hide Agrees, AgreesAt, Shape.C, Shape.P, Shape.E, Shape.Linked, Shape.Rotate, Paint.Red, Paint.B, Paint.Set;
      ghost var s, c := view, paint;
      var cur := curnode;
      NoneBlack(paint);
      Uppers(cur);
      while IsRed(cur.parent) && cur.parent.parent != null
        invariant Agrees() && view.Linked() && cur in view.nodes && view.nodes == s.nodes
        invariant IsRed(cur.parent) && cur.parent.parent != null <==> Looping(view, paint, cur)
        invariant
          && FixAdd(view, paint, cur).s == FixAdd(s, c, curnode).s
          && FixAdd(view, paint, cur).c == FixAdd(s, c, curnode).c
        decreases Rounds(view, paint, cur)
      {
        NoneBlack(paint);
        ghost var p := view.P(cur).value;
        ghost var g := view.P(p).value;
        UncleIs(view, cur);
        Uppers(cur);
        Links(g);
        ghost var t := AddRound(view, paint, cur);
        if cur.parent == cur.parent.parent.left {
          cur := BAASub(cur, true, p, g);
        } else {
          cur := BAASub(cur, false, p, g);
        }
        NoneBlack(paint);
        Uppers(cur);
      }
      RootOfNodes(view, cur);
      RootNode();
      SetRed(root, false, paint.B(Some(root)) + if root.red then 1 else 0);
    }

    /** Where the removal fix-up stands: at cur, a node or the stand-in for no node, on side e below p. */
    ghost predicate At(cur: Node<T>, p: Node<T>, e: bool)
      reads this, view.nodes, cur
    {
      && Agrees() && Lacking(view, paint, p, e) && !paint.Red(view.root) && cur.parent == p
      && view.C(p, e) == if cur in view.nodes then Some(cur) else None
    }

    /** A red sibling is rotated up, so that the short side gets a black one. */
    method BARRedSibling(cur: Node<T>, which: bool, ghost p: Node<T>)
      requires At(cur, p, !which)
      modifies this`view, this`paint, this`root, view.nodes
      ensures At(cur, p, !which) && view.nodes == old(view.nodes) && view.E(view.root) == old(view.E(view.root))
      ensures !paint.Red(view.C(p, which)) && |view.E(view.C(p, !which))| == old(|view.E(view.C(p, !which))|)
    {
      hide Agrees, AgreesAt, Shape.C, Shape.P, Shape.E, Shape.Linked, Shape.Rotate, Paint.Red, Paint.B, Paint.Set,
           Lacking;
      ghost var s, c := view, paint;
      SiblingExists(s, c, p, !which);
      LackingNode(s, c, p, !which);
      Links(p);
      var sibling := cur.parent.Child(which);
      Links(sibling);
      if IsRed(sibling) {
        RedSiblingLacks(s, c, p, !which);
        SetRed(sibling, false, c.B(Some(p)));
        SetRed(cur.parent, true, c.B(Some(sibling)));
        Links(p);
        Rotate(cur.parent, !which);
        if cur in view.nodes { ChildNodes(view, p); Links(cur); }
      }
    }

    ghost method SetHeight(n: Node<T>, b: nat)
      requires Agrees()
      modifies this`paint
      ensures Agrees() && paint == old(paint).Set(n, old(paint).Red(Some(n)), b)
    {
      hide Shape.C, Shape.P, Paint.Red, Paint.Set;
      SetPaint(paint, n, paint.Red(Some(n)), b);
      paint := paint.Set(n, paint.Red(Some(n)), b);
    }

    /** The sibling is black and its far child too: its near child is rotated over it. */
    method BARNear(cur: Node<T>, which: bool, sibling: Node<T>, ghost p: Node<T>) returns (r: Node<T>)
      requires At(cur, p, !which) && Some(sibling) == view.C(p, which) && !paint.Red(Some(sibling))
      requires paint.Red(view.C(sibling, !which)) && !paint.Red(view.C(sibling, which))
      modifies this`view, this`paint, this`root, view.nodes
      ensures At(cur, p, !which) && view.nodes == old(view.nodes) && view.E(view.root) == old(view.E(view.root))
      ensures Some(r) == view.C(p, which) && !paint.Red(Some(r)) && paint.Red(view.C(r, which))
    {
      hide Agrees, AgreesAt, Shape.C, Shape.P, Shape.E, Shape.Linked, Shape.Rotate, Paint.Red, Paint.B, Paint.Set,
           Lacking;
      ghost var s, c := view, paint;
      NoneBlack(c);
      SiblingExists(s, c, p, !which);
      LackingNode(s, c, p, !which);
      ChildNodes(s, sibling);
      Links(sibling);
      var near := sibling.Child(!which);
      NearLacks(s, c, p, !which);
      SetRed(near, false, c.B(Some(sibling)));
      SetRed(sibling, true, c.B(Some(near)));
      Links(sibling);
      Rotate(sibling, which);
      LackingNode(view, paint, p, !which);
      if cur in view.nodes { ChildNodes(view, p); Links(cur); }
      Links(p);
      r := cur.parent.Child(which);
    }

    /** The sibling is black and its far child red: the short side gets a black node back. */
    method BARFar(cur: Node<T>, which: bool, sibling: Node<T>, ghost p: Node<T>) returns (r: Node<T>)
      requires At(cur, p, !which) && Some(sibling) == view.C(p, which) && !paint.Red(Some(sibling))
      requires paint.Red(view.C(sibling, which))
      modifies this`view, this`paint, this`root, view.nodes
      ensures Agrees() && r in view.nodes && Sinking(view, paint, None, Some(r))
      ensures view.nodes == old(view.nodes) && view.E(view.root) == old(view.E(view.root))
    {
      hide Agrees, AgreesAt, Shape.C, Shape.P, Shape.E, Shape.Linked, Shape.Rotate, Paint.Red, Paint.B, Paint.Set,
           Lacking, Sinking;
      ghost var s, c := view, paint;
      NoneBlack(c);
      SiblingExists(s, c, p, !which);
      LackingNode(s, c, p, !which);
      ChildNodes(s, sibling);
      FarSinks(s, c, p, !which);
      FarStep(s, c, p, !which);
      ghost var far := view.C(sibling, which).value;
      Links(p);
      SetRed(sibling, cur.parent.red, c.B(Some(p)));
      SetRed(cur.parent, false, c.B(Some(sibling)));
      Links(sibling);
      SetRed(sibling.Child(which), false, c.B(Some(far)) + 1);
      Links(p);
      Rotate(cur.parent, !which);
      RootNode();
      r := root;
    }

    /** Both children of the black sibling are black: it turns red and the shortage moves up. */
    method BARLower(cur: Node<T>, which: bool, sibling: Node<T>, ghost p: Node<T>) returns (r: Node<T>)
      requires At(cur, p, !which) && Some(sibling) == view.C(p, which) && !paint.Red(Some(sibling))
      requires !paint.Red(view.C(sibling, false)) && !paint.Red(view.C(sibling, true))
      modifies this`paint, view.nodes
      ensures Agrees() && r == p && Sinking(view, paint, Above(view, p), Some(p))
    {
      hide Agrees, AgreesAt, Shape.C, Shape.P, Shape.E, Shape.Linked, Shape.Rotate, Paint.Red, Paint.B, Paint.Set,
           Lacking, Sinking, Above;
      ghost var s, c := view, paint;
      LackingNode(s, c, p, !which);
      SiblingExists(s, c, p, !which);
      LowerSinks(s, c, p, !which);
      ghost var b, d := c.B(Some(sibling)), c.B(Some(p));
      SetRed(sibling, true, if b > 0 then b - 1 else 0);
      SetHeight(p, if d > 0 then d - 1 else 0);
      SameRed(c, sibling, p, if b > 0 then b - 1 else 0);
      r := cur.parent;
    }

    /** One round of the removal fix-up; `which` is the sibling's side. A missing sibling cannot happen. */
    method BARSub(cur: Node<T>, which: bool, ghost p: Node<T>)
      returns (r: Node<T>, ghost short: Option<(Node<T>, bool)>)
      requires At(cur, p, !which)
      modifies this`view, this`paint, this`root, view.nodes
      ensures Agrees() && r in view.nodes && Sinking(view, paint, short, Some(r))
      ensures view.nodes == old(view.nodes) && view.E(view.root) == old(view.E(view.root))
      ensures short.Some? ==> |view.E(Some(r))| > old(|view.E(view.C(p, !which))|)
    {
      hide Agrees, AgreesAt, Shape.C, Shape.P, Shape.E, Shape.Linked, Shape.Rotate, Paint.Red, Paint.B, Paint.Set,
           Lacking, Sinking, Above;
      NoneBlack(paint);
      BARRedSibling(cur, which, p);
      LackingNode(view, paint, p, !which);
      SiblingExists(view, paint, p, !which);
      NoneBlack(paint);
      Links(p);
      var sibling := cur.parent.Child(which);
      if sibling == null {
        assert false;
        r, short := cur, None;
      } else {
        r, short := BARBlackSibling(cur, which, sibling, p);
      }
    }

    /** The round once the sibling is black. */
    method BARBlackSibling(cur: Node<T>, which: bool, black: Node<T>, ghost p: Node<T>)
      returns (r: Node<T>, ghost short: Option<(Node<T>, bool)>)
      requires At(cur, p, !which) && Some(black) == view.C(p, which) && !paint.Red(Some(black))
      modifies this`view, this`paint, this`root, view.nodes
      ensures Agrees() && r in view.nodes && Sinking(view, paint, short, Some(r))
      ensures view.nodes == old(view.nodes) && view.E(view.root) == old(view.E(view.root))
      ensures short.Some? ==> |view.E(Some(r))| > old(|view.E(view.C(p, !which))|)
    {
      hide Agrees, AgreesAt, Shape.C, Shape.P, Shape.E, Shape.Linked, Shape.Rotate, Paint.Red, Paint.B, Paint.Set,
           Lacking, Sinking, Above;
      LackingNode(view, paint, p, !which);
      SiblingExists(view, paint, p, !which);
      NoneBlack(paint);
      var sibling := black;
      Links(sibling);
      ChildNodes(view, sibling);
      if sibling.left != null { Links(sibling.left); }
      if sibling.right != null { Links(sibling.right); }
      if !IsRed(sibling.Child(!which)) && !IsRed(sibling.Child(which)) {
        r := BARLower(cur, which, sibling, p);
        short := Above(view, p);
        ChildShorter(view, p);
      } else {
        if !IsRed(sibling.Child(which)) {
          sibling := BARNear(cur, which, sibling, p);
        }
        r := BARFar(cur, which, sibling, p);
        short := None;
      }
    }

    ghost function Here(cur: Node<T>): Option<Node<T>>
      reads this
    {
      if cur in view.nodes then Some(cur) else None
    }

    /** The fix-up's current node: a node of the tree, or the stand-in for a missing one, which has no content. */
    ghost predicate Standing(cur: Node<T>, short: Option<(Node<T>, bool)>)
      reads this, view.nodes, cur
    {
      && Agrees() && Sinking(view, paint, short, Here(cur))
      && (short.Some? ==> cur.parent == short.value.0)
      && (cur in view.nodes <==> cur.content.Some?) && (cur !in view.nodes ==> !cur.red)
    }

    lemma StandingAt(cur: Node<T>, short: Option<(Node<T>, bool)>)
      requires Standing(cur, short) && cur != root && !cur.red
      ensures short.Some? && At(cur, short.value.0, short.value.1)
      ensures view.C(short.value.0, !short.value.1) != view.C(short.value.0, short.value.1)
      ensures Opt(cur.parent.left) == view.C(cur.parent, false)
    {
      if cur in view.nodes { Links(cur); }
      NoneBlack(paint);
      SinkingLacks(view, paint, short.value.0, short.value.1, Here(cur));
      SiblingExists(view, paint, short.value.0, short.value.1);
      Links(cur.parent);
    }

    method BalanceAfterRemove(curnode: Node<T>, ghost place: Option<(Node<T>, bool)>)
      requires Standing(curnode, place)
      modifies this`view, this`paint, this`root, view.nodes
      ensures Agrees() && Balanced(view, paint)
      ensures view.nodes == old(view.nodes) && view.E(view.root) == old(view.E(view.root))
    {
      hide Agrees, AgreesAt, Shape.C, Shape.P, Shape.E, Shape.Linked, Shape.Rotate, Paint.Red, Paint.B, Paint.Set,
           Lacking, Sinking, Balanced, Standing;
      var cur := curnode;
      ghost var short := place;
      StandingNode(cur, short);
      while cur != root && !cur.red
        invariant Standing(cur, short) && view.Linked() && (cur in view.nodes <==> cur.content.Some?)
        invariant view.nodes == old(view.nodes) && view.E(view.root) == old(view.E(view.root))
        decreases if short.Some? then 1 + |view.E(view.root)| - |view.E(Here(cur))| else 0
      {
        StandingAt(cur, short);
        ghost var p, e := short.value.0, short.value.1;
        ghost var was := |view.E(Here(cur))|;
        HereShorter(cur);
        if (if cur.content.Some? then cur else null) == cur.parent.left {
          cur, short := BARSub(cur, true, p);
        } else {
          cur, short := BARSub(cur, false, p);
        }
        StandingIs(cur, short);
        HereShorter(cur);
      }
      StandingEnds(cur, short);
      SetRed(cur, false, paint.B(Some(cur)) + if cur.red then 1 else 0);
    }

    lemma HereShorter(cur: Node<T>)
      requires view.Linked()
      ensures |view.E(Here(cur))| <= |view.E(view.root)|
    {
    }

    lemma StandingNode(cur: Node<T>, short: Option<(Node<T>, bool)>)
      requires Standing(cur, short)
      ensures view.Linked() && (cur in view.nodes <==> cur.content.Some?)
    {
    }

    lemma StandingIs(cur: Node<T>, short: Option<(Node<T>, bool)>)
      requires Agrees() && cur in view.nodes && Sinking(view, paint, short, Some(cur))
      ensures Standing(cur, short) && view.Linked() && cur.content.Some?
    {
      Links(cur);
      if short.Some? { ChildNodes(view, short.value.0); }
    }

    lemma StandingEnds(cur: Node<T>, short: Option<(Node<T>, bool)>)
      requires Standing(cur, short) && (cur == root || cur.red)
      ensures Agrees() && cur in view.nodes && cur.red == paint.Red(Some(cur)) && Balanced(view, Blackened(paint, cur))
    {
      if root != null { RootNode(); }
      if short.Some? { ChildNodes(view, short.value.0); }
      Links(cur);
      SinkingEnds(view, paint, short, cur);
    }

    // ----- search -----

    /** The entries in order. */
    ghost function Listed(): seq<Item<T>>
      requires forall n | n in view.E(view.root) :: n in items
      reads this
    {
      Listing(view.E(view.root), items)
    }

    /** The nodes are linked in comparator order, and the counters count them. */
    ghost predicate Ordered()
      reads this, view.nodes
    {
      && Agrees() && view.Linked() && TotalOrder(compare)
      && (forall n | n in view.E(view.root) :: n in items)
      && Sorted(compare, Listed()) && count == |Listed()| && size == Sum(Listed())
    }

    ghost predicate Valid()
      reads this, view.nodes
    {
      Ordered() && Balanced(view, paint)
    }

    constructor (compare: (T, T) -> int, allowDuplicates: bool)
      requires TotalOrder(compare)
      ensures
        && Valid() && Listed() == [] && this.compare == compare && this.allowDuplicates == allowDuplicates
        && view.nodes == {}
    {
      this.compare, this.allowDuplicates, root, count, size := compare, allowDuplicates, null, 0, 0;
      view := Shape({}, None, map[], map[], map[]);
      paint := Paint(map[], map[]);
      items := map[];
    }

    /** Searches with a comparison against some key, which must fall along the order. */
    method FindIndex1(f: T -> int) returns (r: Node?<T>, ghost at: nat)
      requires Ordered() && Falls(f, Listed())
      ensures r == null ==> Lookup(f, Listed()) == None && forall j | 0 <= j < |Listed()| :: f(Listed()[j].content) != 0
      ensures r != null ==>
                r in view.nodes && r.content.Some? && Lookup(f, Listed()) == Some(Item(r.content.value, r.size))
      ensures r != null ==> at < |Listed()| && view.E(view.root)[at] == r && f(Listed()[at].content) == 0
    {
      hide Shape.C, Shape.P, Shape.E, Shape.Linked, Agrees, Sorted, TotalOrder, Sum, Lookup, Falls, Narrowed;
      ghost var e, l := view.E(view.root), Listed();
      ghost var lo, hi := 0, |e|;
      at := 0;
      LookupIs(f, l);
      NarrowedAll(f, l);
      r := root;
      RootElems();
      while r != null
        invariant 0 <= lo <= hi <= |e| && (r != null ==> r in view.nodes) && view.E(Opt(r)) == e[lo..hi]
        invariant Narrowed(f, l, lo, hi)
        decreases hi - lo
      {
        ghost var mid := Middle(view, r, lo, hi);
        Links(r);
        var result := f(r.content.value);
        assert l[mid] == items[r];
        Narrows(f, l, lo, hi, mid);
        if result == 0 {
          at := mid;
          return;
        }
        ChildNodes(view, r);
        if result > 0 { lo := mid + 1; } else { hi := mid; }
        r := r.Child(result > 0);
      }
      assert lo == hi;
      NarrowedEnds(f, l, lo);
    }

    lemma RootElems()
      requires Agrees() && view.Linked()
      ensures view.E(Opt(root)) == view.E(view.root) && (root != null ==> root in view.nodes) && view.E(None) == []
    {
    }

    method Minimum(curnode: Node?<T>) returns (r: Node?<T>)
      requires Agrees() && view.Linked() && (curnode != null ==> curnode in view.nodes)
      ensures curnode == null <==> r == null
      ensures r != null ==>
                r in view.nodes && r.left == null && |view.E(Some(curnode))| > 0 && r == view.E(Some(curnode))[0]
    {
      hide Shape.C, Shape.P, Shape.E, Shape.Linked, Agrees;
      r := curnode;
      if r != null {
        FirstElem(view, r);
        while r.left != null
          invariant r != null && r in view.nodes && |view.E(Some(r))| > 0
                    && view.E(Some(r))[0] == view.E(Some(curnode))[0]
          decreases |view.E(Some(r))|
        {
          Links(r);
          ChildNodes(view, r);
          FirstElem(view, r);
          r := r.left;
          FirstElem(view, r);
        }
        Links(r);
        FirstElem(view, r);
      }
    }

    /** The next node in order. */
    method Successor(curnode: Node<T>, ghost i: nat) returns (r: Node?<T>)
      requires
        && Agrees() && view.Linked() && curnode in view.nodes && i < |view.E(view.root)|
        && view.E(view.root)[i] == curnode
      requires forall j, k | 0 <= j < k < |view.E(view.root)| :: view.E(view.root)[j] != view.E(view.root)[k]
      ensures r == if i + 1 < |view.E(view.root)| then view.E(view.root)[i + 1] else null
      ensures r != null ==> r in view.nodes && r != curnode && (curnode.right != null ==> r.left == null)
      ensures curnode.right != null ==> r != null
    {
      hide Shape.C, Shape.P, Shape.E, Shape.Linked, Agrees;
      ghost var e := view.E(view.root);
      ghost var pre, post := Within(view, curnode);
      ghost var lo, hi := |pre|, |e| - |post|;
      assert e[lo..hi] == view.E(Some(curnode));
      ghost var mid := Middle(view, curnode, lo, hi);
      assert mid == i;
      Links(curnode);
      ChildNodes(view, curnode);
      if curnode.right != null {
        r := Minimum(curnode.right);
        FirstElem(view, curnode.right);
        assert r == e[mid + 1..hi][0];
      } else {
        NoElems(view);
        assert hi == i + 1;
        r := Climb(curnode, lo, hi);
      }
      RootMembers(view);
    }

    /** Goes up while coming from the right. */
    method Climb(start: Node<T>, ghost start0: nat, ghost hi: nat) returns (r: Node?<T>)
      requires Agrees() && view.Linked() && start in view.nodes
      requires start0 <= hi <= |view.E(view.root)| && view.E(view.root)[start0..hi] == view.E(Some(start))
      requires forall j, k | 0 <= j < k < |view.E(view.root)| :: view.E(view.root)[j] != view.E(view.root)[k]
      ensures r == if hi < |view.E(view.root)| then view.E(view.root)[hi] else null
    {
      hide Shape.C, Shape.P, Shape.E, Shape.Linked, Agrees;
      var curnode := start;
      ghost var lo := start0;
      Links(curnode);
      ParentNode(view, curnode);
      var curparent := curnode.parent;
      if curparent != null { Links(curparent); }
      while curparent != null && curnode == curparent.right
        invariant curnode in view.nodes && Opt(curparent) == view.P(curnode)
        invariant curparent != null ==> curparent in view.nodes && Opt(curparent.right) == view.C(curparent, true)
        invariant 0 <= lo <= hi <= |view.E(view.root)| && view.E(view.root)[lo..hi] == view.E(Some(curnode))
        decreases |view.E(view.root)| - (hi - lo)
      {
        lo := UpRight(view, curnode, curparent, lo, hi);
        curnode := curparent;
        Links(curnode);
        ParentNode(view, curnode);
        if curnode.parent != null { Links(curnode.parent); }
        curparent := curparent.parent;
      }
      if curparent == null {
        RootIs(view, curnode);
        assert |view.E(view.root)[lo..hi]| == hi - lo;
      } else {
        ParentNode(view, curnode);
        UpLeft(view, curnode, curparent, lo, hi);
      }
      r := curparent;
    }

    /** No node is listed twice. */
    lemma OnceEach()
      requires Ordered()
      ensures forall j, k | 0 <= j < k < |view.E(view.root)| :: view.E(view.root)[j] != view.E(view.root)[k]
      ensures forall n :: n in view.E(view.root) <==> n in view.nodes
      ensures |Listed()| == |view.E(view.root)|
    {
      SortedDistinct(compare, view.E(view.root), items);
      RootMembers(view);
    }

    /** Iteration: the first element after null, else the next in order, and null after the last. */
    method NextElement(curnode: Node?<T>, ghost i: nat) returns (r: Node?<T>)
      requires Ordered()
      requires curnode != null ==> i < |view.E(view.root)| && view.E(view.root)[i] == curnode
      ensures var e := view.E(view.root); var next := if curnode == null then 0 else i + 1;
              r == if next < |e| then e[next] else null
    {
      hide Shape.C, Shape.P, Shape.E, Shape.Linked, Agrees, Sorted, TotalOrder, Sum;
      OnceEach();
      RootElems();
      if curnode == null {
        r := Minimum(root);
      } else {
        r := Successor(curnode, i);
      }
    }

    ghost function Key(content: T): T -> int {
      (c: T) => compare(c, content)
    }

    /** The descent of TreeAddByIndex: the node that compares equal, or the empty place under curparent. */
    method Place(content: T) returns (curnode: Node?<T>, curparent: Node?<T>, left: bool, ghost at: nat)
      requires Ordered()
      ensures at <= |Listed()|
      ensures curnode != null ==>
                && curnode in view.nodes
                && at < |Listed()|
                && view.E(view.root)[at] == curnode
                && compare(Listed()[at].content, content) == 0
      ensures curnode == null ==> forall j | 0 <= j < at :: compare(Listed()[j].content, content) > 0
      ensures curnode == null ==> forall j | at <= j < |Listed()| :: compare(Listed()[j].content, content) < 0
      ensures curnode == null && curparent == null ==> root == null
      ensures curnode == null && curparent != null ==> curparent in view.nodes && view.C(curparent, left) == None
      ensures curnode == null && curparent != null ==> if left then at > 0 && view.E(view.root)[at - 1] == curparent
                else at < |Listed()| && view.E(view.root)[at] == curparent
    {
      hide Shape.C, Shape.P, Shape.E, Shape.Linked, Agrees, Sorted, TotalOrder, Sum, Listing, Falls, Narrowed;
      ghost var e, l, f := view.E(view.root), Listed(), Key(content);
      KeyFalls(compare, l, content);
      NarrowedAll(f, l);
      ghost var lo, hi := 0, |e|;
      RootElems();
      curparent, curnode, left := null, root, false;
      while curnode != null
        invariant 0 <= lo <= hi <= |e| && (curnode != null ==> curnode in view.nodes)
                  && view.E(Opt(curnode)) == e[lo..hi]
        invariant Narrowed(f, l, lo, hi)
        invariant curparent == null ==> curnode == root
        invariant curparent != null ==> curparent in view.nodes && view.C(curparent, left) == Opt(curnode)
        invariant curparent != null ==> if left then lo > 0 && e[lo - 1] == curparent
                  else hi < |e| && e[hi] == curparent
        decreases hi - lo
      {
        ghost var mid := Middle(view, curnode, lo, hi);
        Links(curnode);
        var result := compare(curnode.content.value, content);
        assert l[mid] == items[curnode];
        Narrows(f, l, lo, hi, mid);
        left := result > 0;
        if result == 0 {
          at := mid;
          return;
        }
        ChildNodes(view, curnode);
        if left { lo := mid + 1; } else { hi := mid; }
        curparent := curnode;
        curnode := curnode.Child(left);
      }
      assert lo == hi;
      NarrowedEnds(f, l, lo);
      at := lo;
    }

    /** A new red node, not linked to any other yet. */
    method NewNode(content: T, size0: nat) returns (x: Node<T>)
      requires Agrees()
      modifies this`view, this`paint, this`items
      ensures Agrees() && fresh(x) && x !in old(view.nodes) && view == old(view).Joined(x)
      ensures paint == old(paint).Set(x, true, 0) && items == old(items)[x := Item(content, size0)]
    {
      hide Shape.C, Shape.P, Shape.E, Paint.Red, Paint.Set, Shape.Joined;
      x := new Node();
      x.red := true;
      x.content := Some(content);
      x.size := size0;
      JoinedIs(view, x);
      SetPaint(paint, x, true, 0);
      view, paint, items := view.Joined(x), paint.Set(x, true, 0), items[x := Item(content, size0)];
    }

    /** A new red node at an empty place. */
    method Attach(content: T, size0: nat, p: Node?<T>, d: bool) returns (x: Node<T>)
      requires Agrees() && view.Linked()
      requires if p != null then p in view.nodes && view.C(p, d) == None else view.nodes == {}
      modifies this`view, this`paint, this`items, this`root, view.nodes
      ensures Agrees() && fresh(x) && x !in old(view.nodes)
      ensures view == Grown(old(view), x, Opt(p), d) && paint == old(paint).Set(x, true, 0)
      ensures items == old(items)[x := Item(content, size0)]
    {
      hide Agrees, Shape.C, Shape.P, Shape.E, Shape.Linked, Paint.Red, Paint.Set, Shape.SetChild, Shape.SetRoot,
           Shape.SetParent, Shape.Joined;
      ghost var s := view;
      x := NewNode(content, size0);
      JoinedIs(s, x);
      if p != null {
        SetChild(p, d, x);
      } else {
        SetRoot(x);
      }
      SetParent(x, p);
      SetAllElems(GrownElements(s, x, Opt(p), d));
    }

    ghost method SetAllElems(m: map<Node<T>, seq<Node<T>>>)
      requires Agrees()
      modifies this`view
      ensures Agrees() && view == old(view).(elems := m)
    {
      view := view.(elems := m);
    }

    /** The node that compares equal takes the new content. */
    method Refill(n: Node<T>, content: T, size0: nat)
      requires Agrees() && n in view.nodes
      modifies this`items, n`content, n`size
      ensures Agrees() && items == old(items)[n := Item(content, size0)]
    {
      hide Shape.C, Shape.P, Paint.Red;
      n.content := Some(content);
      n.size := size0;
      items := items[n := Item(content, size0)];
    }

    /** A fresh key: a new node, then the fix-up. */
    method AddFresh(content: T, size0: nat, curparent: Node?<T>, left: bool, ghost at: nat)
      requires Ordered() && at <= |Listed()|
      requires forall j | 0 <= j < at :: compare(Listed()[j].content, content) > 0
      requires forall j | at <= j < |Listed()| :: compare(Listed()[j].content, content) < 0
      requires if curparent != null then curparent in view.nodes && view.C(curparent, left) == None
                else view.nodes == {}
      requires curparent != null ==> if left then at > 0 && view.E(view.root)[at - 1] == curparent
                else at < |Listed()| && view.E(view.root)[at] == curparent
      modifies this, view.nodes
      ensures Ordered() && fresh(view.nodes - old(view.nodes))
      ensures Listed() == old(Listed())[..at] + [Item(content, size0)] + old(Listed())[at..]
      ensures old(Balanced(view, paint)) ==> Balanced(view, paint)
      ensures exists x :: AddedTo(old(view), old(paint), x, Opt(curparent), left, view, paint)
    {
      hide Shape.C, Shape.P, Shape.E, Shape.Linked, Agrees, Sorted, TotalOrder, Sum, Balanced, Grown, Paint.Set,
           FixAdd, Listing;
      ghost var s, c, l, e, was := view, paint, Listed(), view.E(view.root), items;
      OnceEach();
      count := count + 1;
      size := size + size0;
      var newel := Attach(content, size0, curparent, left);
      GrownFacts(s, c, newel, Opt(curparent), left, at);
      if Balanced(s, c) { FixAddBalances(view, paint, newel); }
      BalanceAfterAdd(newel);
      assert AddedTo(s, c, newel, Opt(curparent), left, view, paint);
      InsertKeeps(compare, e, was, newel, Item(content, size0), at);
    }

    /** An equal key: the node's content is replaced, and the fix-up runs all the same. */
    method AddEqual(content: T, size0: nat, curnode: Node<T>, ghost at: nat)
      requires Ordered() && at < |Listed()| && curnode in view.nodes && view.E(view.root)[at] == curnode
      requires compare(Listed()[at].content, content) == 0
      modifies this, view.nodes
      ensures Ordered() && view.nodes == old(view.nodes)
      ensures Listed() == old(Listed())[at := Item(content, size0)]
      ensures view == old(FixAdd(view, paint, curnode).s) && paint == old(FixAdd(view, paint, curnode).c)
    {
      hide Shape.C, Shape.P, Shape.E, Shape.Linked, Agrees, Sorted, TotalOrder, Sum, Balanced, FixAdd, Listing;
      ghost var l, e, was := Listed(), view.E(view.root), items;
      OnceEach();
      Links(curnode);
      size := size + size0 - curnode.size;
      Refill(curnode, content, size0);
      BalanceAfterAdd(curnode);
      ReplaceKeeps(compare, e, was, curnode, Item(content, size0), at);
    }

    /**
     * TreeAdd: a fresh key gets a node of its own and the tree stays a red-black tree; an equal key is
     * refused or has its entry replaced, after which the fix-up runs from its node all the same.
     */
    method AddByIndex(content: T, size0: nat) returns (rc: Option<T>, ghost at: nat)
      requires Ordered()
      modifies this, view.nodes
      ensures Ordered() && fresh(view.nodes - old(view.nodes))
      ensures old(Lookup(Key(content), Listed())) == None || !allowDuplicates ==>
                rc == Some(content) && Listed() == Inserted(compare, old(Listed()), Item(content, size0))
      ensures old(Lookup(Key(content), Listed()) == None && Balanced(view, paint)) ==> Balanced(view, paint)
      ensures old(Lookup(Key(content), Listed())) == None ==>
                exists x, p, d :: AddedTo(old(view), old(paint), x, p, d, view, paint)
      ensures old(Lookup(Key(content), Listed())).Some? && allowDuplicates ==>
                && rc == None
                && view == old(view)
                && paint == old(paint)
                && items == old(items)
      ensures old(Lookup(Key(content), Listed())).Some? && !allowDuplicates ==>
                && at < |old(Listed())|
                && compare(old(Listed())[at].content, content) == 0
                && Listed() == old(Listed())[at := Item(content, size0)]
      ensures old(Lookup(Key(content), Listed())).Some? && !allowDuplicates ==> var n := old(view.E(view.root))[at];
                n in old(view.nodes) && view == old(FixAdd(view, paint, n).s) && paint == old(FixAdd(view, paint, n).c)
    {
      hide Shape.C, Shape.P, Shape.E, Shape.Linked, Agrees, Sorted, TotalOrder, Sum, Balanced, Lookup, FixAdd, Inserted;
      ghost var l := Listed();
      KeyFalls(compare, l, content);
      LookupIs(Key(content), l);
      OnceEach();
      var curnode, curparent, left, place := Place(content);
      at := place;
      if curnode != null {
        if allowDuplicates { return None, at; }
        InsertedEqual(compare, l, Item(content, size0), at);
        AddEqual(content, size0, curnode, at);
      } else {
        if curparent == null { NoNodes(); }
        InsertedFresh(compare, l, Item(content, size0), at);
        AddFresh(content, size0, curparent, left, at);
      }
      rc := Some(content);
    }

    /** Takes a node with at most one child out of the links. */
    method Detach(redundant: Node<T>, d: bool)
      requires Agrees() && view.Linked() && redundant in view.nodes && view.C(redundant, !d) == None
      modifies this`view, this`root, view.nodes - {redundant}
      ensures Agrees() && view == Cut(old(view), redundant, d)
    {
      hide Agrees, Shape.C, Shape.P, Shape.E, Shape.Linked, Shape.SetChild, Shape.SetRoot, Shape.SetParent;
      ghost var s := view;
      Links(redundant);
      ChildNodes(s, redundant);
      ParentNode(s, redundant);
      var curchild := redundant.Child(d);
      var above := redundant.parent;
      if above != null { ChildNodes(s, above); StillAbove(s, redundant, d); }
      if curchild != null { SetParent(curchild, above); }
      if above == null {
        SetRoot(curchild);
      } else {
        Links(above);
        if redundant == above.left {
          SetChild(above, false, curchild);
        } else {
          SetChild(above, true, curchild);
        }
      }
      DropNode(redundant, CutElements(s, redundant));
    }

    ghost method DropNode(n: Node<T>, m: map<Node<T>, seq<Node<T>>>)
      requires Agrees()
      modifies this`view
      ensures Agrees() && view == old(view).(nodes := old(view.nodes) - {n}, elems := m)
    {
      view := view.(nodes := view.nodes - {n}, elems := m);
    }

    /** After a black node has been taken out: the fix-up, unless the tree is empty now. */
    method Rebalance(redundant: Node<T>, curchild: Node?<T>, ghost s: Shape<Node<T>>, ghost d: bool)
      requires
        && Agrees() && Balanced(s, paint) && redundant in s.nodes && view == Cut(s, redundant, d)
        && s.C(redundant, !d) == None
      requires
        && s.C(redundant, d) == Opt(curchild) && s.P(redundant) == Opt(redundant.parent)
        && redundant.red == paint.Red(Some(redundant))
      modifies this`view, this`paint, this`root, view.nodes
      ensures Agrees() && Balanced(view, paint) && view.nodes == s.nodes - {redundant}
      ensures view.E(view.root) == Cut(s, redundant, d).E(Cut(s, redundant, d).root)
    {
      hide Agrees, Shape.C, Shape.P, Shape.E, Shape.Linked, Paint.Red, Paint.B, Cut, Sinking;
      CutNodes(s, redundant, d);
      if !redundant.red {
        if curchild == null {
          if redundant.parent != null {
            CutBlack(s, paint, redundant, d);
            var temp := new Node();
            temp.parent := redundant.parent;
            BalanceAfterRemove(temp, Side(s, redundant));
          } else {
            CutLast(s, paint, redundant, d);
          }
        } else {
          CutBlack(s, paint, redundant, d);
          Links(curchild);
          BalanceAfterRemove(curchild, Side(s, redundant));
        }
      } else {
        CutRed(s, paint, redundant, d);
      }
    }

    /** The node that is taken out: the node itself, or its successor when it has two children. */
    method Redundant(curnode: Node<T>, ghost at: nat) returns (redundant: Node<T>, ghost gone: nat)
      requires Valid() && at < |Listed()| && view.E(view.root)[at] == curnode
      ensures redundant in view.nodes && (redundant.left == null || redundant.right == null)
      ensures gone < |Listed()| && view.E(view.root)[gone] == redundant
      ensures if redundant == curnode then gone == at else gone == at + 1
    {
      hide Agrees, Shape.C, Shape.P, Shape.E, Shape.Linked, Paint.Red, Paint.B, Sum, Sorted, TotalOrder,
          Balanced, Listing;
      OnceEach();
      BalancedLinked(view, paint);
      Links(curnode);
      redundant, gone := curnode, at;
      if curnode.left != null && curnode.right != null {
        var next := Successor(curnode, at);
        redundant, gone := next, at + 1;
        Links(next);
      }
    }

    /** A node with at most one child goes, its entry moving to curnode, and the fix-up runs if it was black. */
    method TakeOut(redundant: Node<T>, curnode: Node<T>, ghost gone: nat)
      requires Agrees() && Balanced(view, paint) && redundant in view.nodes && curnode in view.nodes
      requires (redundant.left == null || redundant.right == null)
      requires gone < |view.E(view.root)| && view.E(view.root)[gone] == redundant
      requires forall j, k | 0 <= j < k < |view.E(view.root)| :: view.E(view.root)[j] != view.E(view.root)[k]
      modifies this`view, this`paint, this`root, this`items, view.nodes
      ensures Agrees() && Balanced(view, paint) && view.nodes == old(view.nodes) - {redundant}
      ensures view.E(view.root) == old(view.E(view.root)[..gone] + view.E(view.root)[gone + 1..])
      ensures redundant in old(items)
      ensures items == if redundant == curnode then old(items) else old(items[curnode := items[redundant]])
    {
      hide Agrees, Shape.C, Shape.P, Shape.E, Shape.Linked, Paint.Red, Paint.B, Cut, Balanced;
      ghost var s := view;
      BalancedLinked(view, paint);
      Links(redundant);
      var d := redundant.left == null;
      var curchild := redundant.Child(d);
      Detach(redundant, d);
      CutOrder(s, redundant, d, gone);
      if redundant != curnode { Refill(curnode, redundant.content.value, redundant.size); }
      Rebalance(redundant, curchild, s, d);
    }

    /** Removes a node's entry; with two children the successor's node goes and its entry moves up. */
    method RemoveNodeIndex(curnode: Node<T>, ghost at: nat) returns (content: T)
      requires Valid() && at < |Listed()| && view.E(view.root)[at] == curnode
      modifies this, view.nodes
      ensures Valid() && view.nodes <= old(view.nodes)
      ensures content == old(Listed())[at].content && Listed() == old(Listed())[..at] + old(Listed())[at + 1..]
    {
      hide Agrees, Shape.C, Shape.P, Shape.E, Shape.Linked, Paint.Red, Paint.B, Sum, Sorted, TotalOrder,
          Balanced, Listing;
      ghost var e, was := view.E(view.root), items;
      OnceEach();
      Links(curnode);
      var size0 := curnode.size;
      content := curnode.content.value;
      var redundant, gone := Redundant(curnode, at);
      TakeOut(redundant, curnode, gone);
      BalancedLinked(view, paint);
      RemoveKeeps(compare, e, was, at, gone);
      size := size - size0;
      count := count - 1;
    }

    /** TreeRemove: looks the content up and removes its node. */
    method RemoveIndex(content: T) returns (rc: Option<T>)
      requires Valid()
      modifies this, view.nodes
      ensures Valid() && view.nodes <= old(view.nodes)
      ensures Listed() == Deleted(compare, old(Listed()), content)
      ensures rc == match old(Lookup(Key(content), Listed())) case None => None case Some(x) => Some(x.content)
    {
      hide Shape.C, Shape.P, Shape.E, Shape.Linked, Agrees, Sorted, TotalOrder, Sum, Balanced, Lookup, Deleted, Falls;
      ghost var l := Listed();
      KeyFalls(compare, l, content);
      OnceEach();
      var curnode, place := FindIndex1(c => compare(c, content));
      if curnode == null {
        DeletedNone(compare, l, content);
        rc := None;
      } else {
        FallsOnce(Key(content), l, place);
        LookupIs(Key(content), l);
        DeletedAt(compare, l, content, place);
        var removed := RemoveNodeIndex(curnode, place);
        rc := Some(removed);
      }
    }

    /** Visits the whole tree as its callers do, from null to null: every entry once, in order. */
    method Walk() returns (visited: seq<Node<T>>)
      requires Ordered()
      ensures visited == view.E(view.root)
      ensures forall j, k | 0 <= j < k < |visited| :: visited[j] != visited[k]
      ensures forall n :: n in visited <==> n in view.nodes
    {
      hide Shape.C, Shape.P, Shape.E, Shape.Linked, Agrees, Sorted, TotalOrder, Sum;
      OnceEach();
      visited := [];
      var current := NextElement(null, 0);
      while current != null
        invariant |visited| <= |view.E(view.root)| && visited == view.E(view.root)[..|visited|]
        invariant current == if |visited| < |view.E(view.root)| then view.E(view.root)[|visited|] else null
        decreases |view.E(view.root)| - |visited|
      {
        visited := visited + [current];
        current := NextElement(current, |visited| - 1);
      }
    }

    lemma NoNodes()
      requires Agrees() && view.Linked() && root == null
      ensures view.nodes == {}
    {
      if n :| n in view.nodes { RootOfNodes(view, n); }
    }

    lemma RootNode()
      requires Agrees() && view.Linked() && view.root.Some?
      ensures root != null && root in view.nodes && Some(root) == view.root && root.red == paint.Red(Some(root))
    {
      assert AgreesAt(root);
    }

    /** The fields of a node and of its parent. */
    lemma Uppers(n: Node<T>)
      requires Agrees() && view.Linked() && n in view.nodes
      ensures Opt(n.parent) == view.P(n)
      ensures n.parent != null ==> n.parent in view.nodes && Opt(n.parent.parent) == view.P(n.parent)
      ensures IsRed(n.parent) == paint.Red(view.P(n))
      ensures n.parent != null && n.parent.parent != null ==> n.parent.parent in view.nodes
    {
      assert view.LinkedAt(n);
      Links(n);
      if n.parent != null { assert view.LinkedAt(n.parent); Links(n.parent); }
    }

    /** What a node's fields are. */
    lemma Links(n: Node<T>)
      requires Agrees() && n in view.nodes
      ensures Opt(n.left) == view.C(n, false) && Opt(n.right) == view.C(n, true) && Opt(n.parent) == view.P(n)
      ensures n.red == paint.Red(Some(n)) && n in items && n.content == Some(items[n].content)
                && n.size == items[n].size
      ensures forall d :: Opt(n.Child(d)) == view.C(n, d)
    {
      assert AgreesAt(n);
    }
  }

  lemma SetChildIs<N>(s: Shape<N>, n: N, d: bool, o: Option<N>)
    ensures var t := s.SetChild(n, d, o);
            && t.nodes == s.nodes && t.root == s.root && t.parent == s.parent && t.elems == s.elems
            && (forall m, e :: t.C(m, e) == if m == n && e == d then o else s.C(m, e))
            && (forall m :: t.P(m) == s.P(m))
  {
  }

  lemma SetParentIs<N>(s: Shape<N>, n: N, o: Option<N>)
    ensures var t := s.SetParent(n, o);
            && t.nodes == s.nodes && t.root == s.root && t.child == s.child && t.elems == s.elems
            && (forall m, e :: t.C(m, e) == s.C(m, e))
            && (forall m :: t.P(m) == if m == n then o else s.P(m))
  {
  }

  /** Half way through a rotation the node above still has its children. */
  lemma StillBelow<N>(s: Shape<N>, cur: N, d: bool)
    requires s.C(cur, !d).Some? && Apart(s, cur, d) && s.P(cur).Some?
    ensures var other := s.C(cur, !d).value; var inner := s.C(other, d); var above := s.P(cur).value;
            var s1 := s.SetChild(cur, !d, inner);
            var s2 := if inner.Some? then s1.SetParent(inner.value, Some(cur)) else s1;
            s2.SetParent(other, s.P(cur)).C(above, d) == s.C(above, d)
  {
  }

  /** Painting one node leaves the colour of another. */
  lemma SameRed<N>(c: Paint<N>, q: N, p: N, b: nat)
    requires p != q
    ensures c.Set(q, true, b).Red(Some(p)) == c.Red(Some(p))
  {
  }

  /** The first node of a subtree is the first of its left part, or its top. */
  lemma FirstElem<N>(s: Shape<N>, n: N)
    requires s.Linked() && n in s.nodes
    ensures |s.E(Some(n))| > 0
    ensures s.C(n, false) == None ==> s.E(Some(n))[0] == n
    ensures s.C(n, false).Some? && |s.E(s.C(n, false))| > 0 ==> s.E(Some(n))[0] == s.E(s.C(n, false))[0]
    ensures |s.E(s.C(n, false))| < |s.E(Some(n))|
  {
    assert s.LinkedAt(n);
    assert s.E(None) == [];
  }

  lemma NoElems<N>(s: Shape<N>)
    ensures s.E(None) == []
  {
  }

  lemma SamePlace<N>(e: seq<N>, m: seq<N>, a: nat, lo: nat, hi: nat)
    requires forall j, k | 0 <= j < k < |e| :: e[j] != e[k]
    requires m != [] && lo <= hi <= |e| && e[lo..hi] == m && a + |m| <= |e| && e[a..a + |m|] == m
    ensures a == lo
  {
    assert e[lo] == m[0] && e[a] == m[0];
  }

  lemma Segments<N>(pre: seq<N>, l: seq<N>, p: N, r: seq<N>, post: seq<N>)
    ensures var e := pre + (l + [p] + r) + post;
            var mid := |pre| + |l|;
            && mid + 1 + |r| <= |e| && e[mid] == p
            && e[|pre|..mid] == l && e[mid + 1..mid + 1 + |r|] == r && e[|pre|..mid + 1 + |r|] == l + [p] + r
  {
  }

  lemma NextOf<N>(pre: seq<N>, l: seq<N>, p: N, r: seq<N>, post: seq<N>, lo: nat, hi: nat)
    requires var e := pre + (l + [p] + r) + post;
             && lo <= hi <= |e| && e[lo..hi] == l && l != [] && forall j, k | 0 <= j < k < |e| :: e[j] != e[k]
    ensures var e := pre + (l + [p] + r) + post; hi < |e| && e[hi] == p
  {
    var e := pre + (l + [p] + r) + post;
    Segments(pre, l, p, r, post);
    SamePlace(e, l, |pre|, lo, hi);
    assert hi - lo == |l|;
  }

  lemma EndOf<N>(pre: seq<N>, l: seq<N>, p: N, r: seq<N>, post: seq<N>, lo: nat, hi: nat)
    requires var e := pre + (l + [p] + r) + post;
             && lo <= hi <= |e| && e[lo..hi] == r && r != [] && forall j, k | 0 <= j < k < |e| :: e[j] != e[k]
    ensures var e := pre + (l + [p] + r) + post; |pre| < lo && e[|pre|..hi] == l + [p] + r
  {
    var e := pre + (l + [p] + r) + post;
    Segments(pre, l, p, r, post);
    SamePlace(e, r, |pre| + |l| + 1, lo, hi);
    assert hi - lo == |r|;
  }

  /** Coming from the right child, the parent's elements end where the child's do. */
  lemma UpRight<N>(s: Shape<N>, n: N, p: N, lo: nat, hi: nat) returns (up: nat)
    requires s.Linked() && n in s.nodes && p in s.nodes && s.C(p, true) == Some(n) && lo <= hi <= |s.E(s.root)|
    requires s.E(s.root)[lo..hi] == s.E(Some(n))
    requires forall j, k | 0 <= j < k < |s.E(s.root)| :: s.E(s.root)[j] != s.E(s.root)[k]
    ensures up < lo && s.E(s.root)[up..hi] == s.E(Some(p))
  {
    assert s.LinkedAt(p);
    FirstElem(s, n);
    hide Shape.C, Shape.P, Shape.E, Shape.Linked;
    var pre, post := Within(s, p);
    var l := s.E(s.C(p, false));
    assert s.E(s.root) == pre + (l + [p] + s.E(Some(n))) + post;
    EndOf(pre, l, p, s.E(Some(n)), post, lo, hi);
    up := |pre|;
  }

  /** Coming from the left child, the parent is the next element. */
  lemma UpLeft<N>(s: Shape<N>, n: N, p: N, lo: nat, hi: nat)
    requires s.Linked() && n in s.nodes && p in s.nodes && s.C(p, false) == Some(n) && lo <= hi <= |s.E(s.root)|
    requires s.E(s.root)[lo..hi] == s.E(Some(n))
    requires forall j, k | 0 <= j < k < |s.E(s.root)| :: s.E(s.root)[j] != s.E(s.root)[k]
    ensures hi < |s.E(s.root)| && s.E(s.root)[hi] == p
  {
    assert s.LinkedAt(p);
    FirstElem(s, n);
    hide Shape.C, Shape.P, Shape.E, Shape.Linked;
    var pre, post := Within(s, p);
    var r := s.E(s.C(p, true));
    assert s.E(s.root) == pre + (s.E(Some(n)) + [p] + r) + post;
    NextOf(pre, s.E(Some(n)), p, r, post, lo, hi);
  }

  lemma SubAt<N>(e: seq<N>, at: nat, p: N, rep: seq<N>)
    requires at < |e| && e[at] == p && forall j, k | 0 <= j < k < |e| :: e[j] != e[k]
    ensures Sub(e, p, rep) == e[..at] + rep + e[at + 1..]
  {
    assert e == e[..at] + [p] + e[at + 1..];
    SubThree(e[..at], p, e[at + 1..], p, rep);
    SubNone(e[..at], p, rep);
    SubNone(e[at + 1..], p, rep);
  }

  /** Where a new leaf ends up in the order, and the state the fix-up starts from. */
  lemma GrownFacts<N>(s: Shape<N>, c: Paint<N>, x: N, p: Option<N>, d: bool, at: nat)
    requires s.Linked() && x !in s.nodes && at <= |s.E(s.root)|
    requires forall j, k | 0 <= j < k < |s.E(s.root)| :: s.E(s.root)[j] != s.E(s.root)[k]
    requires if p.Some? then p.value in s.nodes && s.C(p.value, d) == None else s.nodes == {}
    requires p.Some? ==> if d then at > 0 && s.E(s.root)[at - 1] == p.value
              else at < |s.E(s.root)| && s.E(s.root)[at] == p.value
    ensures var t, e := Grown(s, x, p, d), s.E(s.root);
            && t.Linked() && x in t.nodes && t.nodes == s.nodes + {x} && t.E(t.root) == e[..at] + [x] + e[at..]
            && (Balanced(s, c) ==> Rising(t, c.Set(x, true, 0), x))
  {
    hide Shape.C, Shape.P, Shape.E, Shape.Linked, Paint.Set, Sub, Rising, Balanced;
    var t, e := Grown(s, x, p, d), s.E(s.root);
    GrownIs(s, x, p, d);
    if p.None? {
      GrownRoot(s, x, d);
      GrownRootColors(s, c, x, d);
      EmptyElems(s);
      assert e[..at] + [x] + e[at..] == [x];
    } else {
      GrownLinked(s, x, p.value, d);
      SubAt(e, if d then at - 1 else at, p.value, if d then [p.value, x] else [x, p.value]);
      if Balanced(s, c) { GrownLeafColors(s, c, x, p.value, d); }
    }
  }

  lemma ListingInsert<N, T>(e: seq<N>, items: map<N, Item<T>>, x: N, item: Item<T>, at: nat)
    requires (forall n | n in e :: n in items) && x !in e && at <= |e|
    ensures var e1, items1 := e[..at] + [x] + e[at..], items[x := item]; var l := Listing(e, items);
            && (forall n | n in e1 :: n in items1)
            && Listing(e1, items1) == l[..at] + [item] + l[at..]
  {
  }

  lemma ListingReplace<N, T>(e: seq<N>, items: map<N, Item<T>>, x: N, item: Item<T>, at: nat)
    requires (forall n | n in e :: n in items) && at < |e| && e[at] == x
              && forall j, k | 0 <= j < k < |e| :: e[j] != e[k]
    ensures var items1 := items[x := item];
            && (forall n | n in e :: n in items1)
            && Listing(e, items1) == Listing(e, items)[at := item]
  {
  }

  lemma EmptyElems<N>(s: Shape<N>)
    requires s.Linked() && s.nodes == {}
    ensures s.E(s.root) == []
  {
  }

  lemma InsertSum<T>(l: seq<Item<T>>, item: Item<T>, at: nat)
    requires at <= |l|
    ensures Sum(l[..at] + [item] + l[at..]) == Sum(l) + item.size
  {
    hide Sum;
    SumThree(l[..at], item, l[at..]);
    SumConcat(l[..at], l[at..]);
    assert l == l[..at] + l[at..];
  }

  lemma ReplaceSum<T>(l: seq<Item<T>>, item: Item<T>, at: nat)
    requires at < |l|
    ensures Sum(l[at := item]) == Sum(l) + item.size - l[at].size
  {
    hide Sum;
    SumThree(l[..at], l[at], l[at + 1..]);
    SumThree(l[..at], item, l[at + 1..]);
    assert l == l[..at] + [l[at]] + l[at + 1..];
    assert l[at := item] == l[..at] + [item] + l[at + 1..];
  }

  lemma InsertKeeps<N, T(!new)>(compare: (T, T) -> int, e: seq<N>, items: map<N, Item<T>>, x: N, item: Item<T>, at: nat)
    requires
      && TotalOrder(compare) && (forall n | n in e :: n in items) && x !in e && at <= |e|
      && Sorted(compare, Listing(e, items))
    requires forall j | 0 <= j < at :: compare(Listing(e, items)[j].content, item.content) > 0
    requires forall j | at <= j < |e| :: compare(Listing(e, items)[j].content, item.content) < 0
    ensures var e1, items1 := e[..at] + [x] + e[at..], items[x := item]; var l := Listing(e, items);
            && (forall n | n in e1 :: n in items1)
            && Listing(e1, items1) == l[..at] + [item] + l[at..] && Sorted(compare, Listing(e1, items1))
            && |Listing(e1, items1)| == |l| + 1 && Sum(Listing(e1, items1)) == Sum(l) + item.size
  {
    hide Sorted, TotalOrder, Sum;
    ListingInsert(e, items, x, item, at);
    InsertSorted(compare, Listing(e, items), item, at);
    InsertSum(Listing(e, items), item, at);
    hide Listing;
  }

  lemma ReplaceKeeps<N,
      T(!new)>(compare: (T, T) -> int, e: seq<N>, items: map<N, Item<T>>, x: N, item: Item<T>, at: nat)
    requires TotalOrder(compare) && (forall n | n in e :: n in items) && Sorted(compare, Listing(e, items))
    requires at < |e| && e[at] == x && forall j, k | 0 <= j < k < |e| :: e[j] != e[k]
    requires compare(Listing(e, items)[at].content, item.content) == 0
    ensures var items1 := items[x := item]; var l := Listing(e, items);
            && (forall n | n in e :: n in items1)
            && Listing(e, items1) == l[at := item] && Sorted(compare, Listing(e, items1))
            && Sum(Listing(e, items1)) == Sum(l) + item.size - l[at].size
  {
    hide Sorted, TotalOrder, Sum;
    ListingReplace(e, items, x, item, at);
    ReplaceSorted(compare, Listing(e, items), at, item);
    ReplaceSum(Listing(e, items), item, at);
    hide Listing;
  }

  /** Giving a child a new parent leaves the children of the node above. */
  lemma StillAbove<N>(s: Shape<N>, r: N, d: bool)
    requires s.P(r).Some?
    ensures s.C(r, d).Some? ==> s.SetParent(s.C(r, d).value, s.P(r)).C(s.P(r).value, false) == s.C(s.P(r).value, false)
  {
  }

  lemma CutNodes<N>(s: Shape<N>, r: N, d: bool)
    requires s.Linked() && r in s.nodes && s.C(r, !d) == None
    ensures var t := Cut(s, r, d);
            && t.nodes == s.nodes - {r}
            && (s.C(r, d).Some? ==> s.C(r, d).value in t.nodes && t.P(s.C(r, d).value) == s.P(r))
  {
    CutIs(s, r, d);
    ChildNodes(s, r);
    hide Cut;
  }

  /** Taking out the only node leaves the empty tree. */
  lemma CutLast<N>(s: Shape<N>, c: Paint<N>, r: N, d: bool)
    requires Balanced(s, c) && r in s.nodes && s.C(r, !d) == None && s.C(r, d) == None && s.P(r) == None
    ensures Balanced(Cut(s, r, d), c)
  {
    var t := Cut(s, r, d);
    CutLinked(s, r, d);
    CutIs(s, r, d);
    NoneBlack(c);
    hide Cut, Shape.C, Shape.P, Shape.E, Shape.Linked;
    if n :| n in t.nodes { RootOfNodes(t, n); }
  }

  lemma CutOrder<N>(s: Shape<N>, r: N, d: bool, at: nat)
    requires s.Linked() && r in s.nodes && s.C(r, !d) == None && at < |s.E(s.root)| && s.E(s.root)[at] == r
    requires forall j, k | 0 <= j < k < |s.E(s.root)| :: s.E(s.root)[j] != s.E(s.root)[k]
    ensures var t, e := Cut(s, r, d), s.E(s.root);
            t.Linked() && t.nodes == s.nodes - {r} && t.E(t.root) == e[..at] + e[at + 1..]
  {
    hide Cut, Shape.C, Shape.P, Shape.E, Shape.Linked, Sub;
    CutLinked(s, r, d);
    CutNodes(s, r, d);
    SubAt(s.E(s.root), at, r, []);
    assert s.E(s.root)[..at] + [] + s.E(s.root)[at + 1..] == s.E(s.root)[..at] + s.E(s.root)[at + 1..];
  }

  /** Dropping the node at `gone`, whose entry moves to `at` if the two differ, drops the entry at `at`. */
  lemma RemoveListing<N, T>(e: seq<N>, items: map<N, Item<T>>, at: nat, gone: nat)
    requires (forall n | n in e :: n in items) && at <= gone <= at + 1 && gone < |e|
    requires forall j, k | 0 <= j < k < |e| :: e[j] != e[k]
    ensures var e1 := e[..gone] + e[gone + 1..]; var items1 := if gone == at then items
              else items[e[at] := items[e[gone]]];
            var l := Listing(e, items);
            (forall n | n in e1 :: n in items1) && Listing(e1, items1) == l[..at] + l[at + 1..]
  {
    var e1 := e[..gone] + e[gone + 1..];
    var items1 := if gone == at then items else items[e[at] := items[e[gone]]];
    var l := Listing(e, items);
    assert forall n | n in e1 :: n in e;
    var m, k := Listing(e1, items1), l[..at] + l[at + 1..];
    assert |m| == |k|;
    forall i | 0 <= i < |m| ensures m[i] == k[i] {
      if gone == at || i < at {
      } else if i == at {
        assert e1[i] == e[at];
      } else {
        assert e1[i] == e[i + 1];
        assert e[i + 1] != e[at];
      }
    }
  }

  lemma RemoveSum<T>(l: seq<Item<T>>, at: nat)
    requires at < |l|
    ensures Sum(l[..at] + l[at + 1..]) == Sum(l) - l[at].size
  {
    hide Sum;
    SumThree(l[..at], l[at], l[at + 1..]);
    SumConcat(l[..at], l[at + 1..]);
    assert l == l[..at] + [l[at]] + l[at + 1..];
  }

  lemma RemoveKeeps<N, T(!new)>(compare: (T, T) -> int, e: seq<N>, items: map<N, Item<T>>, at: nat, gone: nat)
    requires (forall n | n in e :: n in items) && at <= gone <= at + 1 && gone < |e|
              && Sorted(compare, Listing(e, items))
    requires forall j, k | 0 <= j < k < |e| :: e[j] != e[k]
    ensures var e1 := e[..gone] + e[gone + 1..]; var items1 := if gone == at then items
              else items[e[at] := items[e[gone]]];
            var l := Listing(e, items);
            && (forall n | n in e1 :: n in items1) && Listing(e1, items1) == l[..at] + l[at + 1..]
            && Sorted(compare, Listing(e1, items1)) && |Listing(e1, items1)| == |l| - 1
                 && Sum(Listing(e1, items1)) == Sum(l) - l[at].size
  {
    hide Sorted, Sum;
    RemoveListing(e, items, at, gone);
    RemoveSorted(compare, Listing(e, items), at);
    RemoveSum(Listing(e, items), at);
    hide Listing;
  }

  lemma BalancedLinked<N>(s: Shape<N>, c: Paint<N>)
    requires Balanced(s, c)
    ensures s.Linked()
  {
  }
}
