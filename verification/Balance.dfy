/** The states the two fix-up loops pass through, and where they start and end. */
module Balance {
  import opened Common
  import opened Shapes
  import opened Colors
  import opened Grafts

  /** Red-black validity. */
  ghost predicate Balanced<N>(s: Shape<N>, c: Paint<N>) {
    s.Linked() && Colored(s, c, None, None) && !c.Red(s.root)
  }

  /** n is painted black, and is one black node higher for it if it was red. */
  function Blackened<N>(c: Paint<N>, n: N): Paint<N> {
    c.Set(n, false, c.B(Some(n)) + if c.Red(Some(n)) then 1 else 0)
  }

  /** The insertion fix-up stands at the red node x, the only one that may have a red parent. */
  ghost predicate Rising<N>(s: Shape<N>, c: Paint<N>, x: N) {
    && s.Linked() && x in s.nodes && c.Red(Some(x)) && Colored(s, c, None, Some(x))
    && (c.Red(s.root) ==> s.root == Some(x))
  }

  /**
   * The removal fix-up stands at cur: what is below `short` lacks a black node and starts with cur,
   * or nothing is lacking and cur is the root. Only at cur may red nodes meet.
   */
  ghost predicate Sinking<N>(s: Shape<N>, c: Paint<N>, short: Option<(N, bool)>, cur: Option<N>) {
    && s.Linked() && (c.Red(s.root) ==> s.root == cur) && (cur.Some? ==> cur.value in s.nodes)
    && (forall n | n in s.nodes :: BalAt(s, c, n, short) && (Some(n) != cur ==> RedAt(s, c, n, cur)))
    && (if short.Some? then short.value.0 in s.nodes && s.C(short.value.0, short.value.1) == cur
         else cur.Some? && s.root == cur)
  }

  lemma FinishLocal<N>(s: Shape<N>, c: Paint<N>, k: Paint<N>, short: Option<(N, bool)>, x: N, n: N)
    requires BalAt(s, c, n, short) && (n != x ==> RedAt(s, c, n, Some(x)))
    requires forall o :: k.Red(o) == if o == Some(x) then false else c.Red(o)
    requires forall o :: k.B(o) == if o == Some(x) then c.B(o) + (if c.Red(o) then 1 else 0) else c.B(o)
    requires short.Some? ==> c.Red(Some(x)) && s.C(short.value.0, short.value.1) == Some(x)
    requires forall e :: s.C(n, e) == Some(x) && c.Red(Some(x)) ==> short == Some((n, e))
    requires forall e :: s.C(n, e) != Some(n)
    ensures BalAt(s, k, n, None) && RedAt(s, k, n, None)
  {
    hide Shape.C, Shape.P, Shape.E, Paint.Red, Paint.B;
  }

  lemma BlackenedIs<N>(c: Paint<N>, x: N)
    ensures forall o :: Blackened(c, x).Red(o) == if o == Some(x) then false else c.Red(o)
    ensures forall o :: Blackened(c, x).B(o) == if o == Some(x) then c.B(o) + (if c.Red(o) then 1 else 0) else c.B(o)
  {
  }

  /** Painting cur black ends the removal fix-up. */
  lemma SinkingEnds<N>(s: Shape<N>, c: Paint<N>, short: Option<(N, bool)>, x: N)
    requires Sinking(s, c, short, Some(x)) && (short.None? || c.Red(Some(x)))
    ensures Balanced(s, Blackened(c, x))
  {
    var k := Blackened(c, x);
    BlackenedIs(c, x);
    assert s.LinkedAt(x);
    if short.Some? { ChildNodes(s, short.value.0); }
    hide Shape.C, Shape.P, Shape.E, Paint.Red, Paint.B, Blackened;
    forall n | n in s.nodes ensures BalAt(s, k, n, None) && RedAt(s, k, n, None) {
      ChildNodes(s, n);
      FinishLocal(s, c, k, short, x, n);
    }
  }

  /** Painting the root black ends the insertion fix-up. */
  lemma RisingEnds<N>(s: Shape<N>, c: Paint<N>, x: N)
    requires Rising(s, c, x) && (c.Red(s.P(x)) ==> s.P(s.P(x).value).None?)
    ensures s.root.Some? && Balanced(s, Blackened(c, s.root.value))
  {
    RootOfNodes(s, x);
    assert s.LinkedAt(x);
    if c.Red(s.P(x)) { assert s.LinkedAt(s.P(x).value); }
    hide Shape.C, Shape.P, Shape.E, Paint.Red, Paint.B, Blackened;
    forall n | n in s.nodes ensures Some(n) != s.root ==> RedAt(s, c, n, s.root) {
      ChildNodes(s, n);
      assert RedAt(s, c, n, Some(x));
    }
    assert forall n | n in s.nodes :: BalAt(s, c, n, None);
    SinkingEnds(s, c, None, s.root.value);
  }

  // ----- where the loops start -----

  lemma GrownLeafColors<N>(s: Shape<N>, c: Paint<N>, x: N, p: N, d: bool)
    requires Balanced(s, c) && x !in s.nodes && p in s.nodes && s.C(p, d) == None
    ensures Rising(Grown(s, x, Some(p), d), c.Set(x, true, 0), x)
  {
    hide Shape.C, Shape.P, Shape.E, Shape.LinkedAt, Paint.Red, Paint.B, Grown, Sub, Paint.Set, BalAt, RedAt;
    var t, k := Grown(s, x, Some(p), d), c.Set(x, true, 0);
    GrownLinked(s, x, p, d);
    GrownIs(s, x, Some(p), d);
    SetPaint(c, x, true, 0);
    RootedAt(s, p);
    forall n | n in t.nodes ensures BalAt(t, k, n, None)
        && RedAt(t, k, n, Some(x)) { GrownNodeColors(s, c, x, p, d, n); }
    hide Colored;
  }

  lemma GrownNodeColors<N>(s: Shape<N>, c: Paint<N>, x: N, p: N, d: bool, n: N)
    requires Balanced(s, c) && x !in s.nodes && p in s.nodes && s.C(p, d) == None && n in s.nodes + {x}
    ensures BalAt(Grown(s, x, Some(p), d), c.Set(x, true, 0), n, None)
    ensures RedAt(Grown(s, x, Some(p), d), c.Set(x, true, 0), n, Some(x))
  {
    hide Shape.C, Shape.P, Shape.E, Paint.Red, Paint.B, Grown, Sub, Paint.Set;
    var t, k := Grown(s, x, Some(p), d), c.Set(x, true, 0);
    GrownIs(s, x, Some(p), d);
    SetPaint(c, x, true, 0);
    NoneBlack(c);
    if n != x {
      ChildNodes(s, n);
      assert BalAt(s, c, n, None) && RedAt(s, c, n, None);
      hide Shape.Linked, Colored;
      GrownColorLocal(s, c, t, k, x, p, d, n);
    }
  }

  lemma GrownColorLocal<N>(s: Shape<N>, c: Paint<N>, t: Shape<N>, k: Paint<N>, x: N, p: N, d: bool, n: N)
    requires n != x && s.C(p, d) == None && c.B(None) == 0 && !c.Red(None)
    requires forall e :: t.C(n, e) == if n == p && e == d then Some(x) else s.C(n, e)
    requires forall o :: k.Red(o) == if o == Some(x) then true else c.Red(o)
    requires forall o :: k.B(o) == if o == Some(x) then 0 else c.B(o)
    requires forall e :: s.C(n, e) != Some(x)
    requires BalAt(s, c, n, None) && RedAt(s, c, n, None)
    ensures BalAt(t, k, n, None) && RedAt(t, k, n, Some(x))
  {
    hide Shape.C, Shape.P, Shape.E, Paint.Red, Paint.B;
  }

  lemma GrownRootColors<N>(s: Shape<N>, c: Paint<N>, x: N, d: bool)
    requires s.Linked() && s.nodes == {}
    ensures Rising(Grown(s, x, None, d), c.Set(x, true, 0), x)
  {
    var t, k := Grown(s, x, None, d), c.Set(x, true, 0);
    GrownRoot(s, x, d);
    GrownIs(s, x, None, d);
    SetPaint(c, x, true, 0);
    assert k.B(None) == 0;
    hide Shape.C, Shape.P, Shape.E, Paint.Red, Paint.B, Grown, Sub, Paint.Set;
  }

  /** Which side of its parent r is on, as the removal code decides it. */
  ghost function Side<N>(s: Shape<N>, r: N): Option<(N, bool)> {
    if s.P(r).None? then None else Some((s.P(r).value, s.C(s.P(r).value, false) != Some(r)))
  }

  lemma CutColorLocal<N>(s: Shape<N>, c: Paint<N>, t: Shape<N>, r: N, d: bool, n: N)
    requires n != r && s.C(r, !d) == None && !c.Red(None)
    requires forall e :: t.C(n, e) == if s.C(n, e) == Some(r) then s.C(r, d) else s.C(n, e)
    requires forall e :: s.C(n, e) == Some(r) ==> Side(s, r) == Some((n, e)) && s.C(n, !e) != Some(r)
    requires s.P(r) == Some(n) ==> s.C(n, false) == Some(r) || s.C(n, true) == Some(r)
    requires BalAt(s, c, n, None) && RedAt(s, c, n, None) && BalAt(s, c, r, None) && RedAt(s, c, r, None)
    ensures c.Red(Some(r)) ==> BalAt(t, c, n, None) && RedAt(t, c, n, None)
    ensures !c.Red(Some(r)) ==> BalAt(t, c, n, Side(s, r)) && RedAt(t, c, n, s.C(r, d))
  {
    hide Shape.C, Shape.P, Shape.E, Paint.Red, Paint.B;
  }

  lemma CutColors<N>(s: Shape<N>, c: Paint<N>, r: N, d: bool, n: N)
    requires Balanced(s, c) && r in s.nodes && s.C(r, !d) == None && n in s.nodes && n != r
    ensures var t := Cut(s, r, d);
            && (c.Red(Some(r)) ==> BalAt(t, c, n, None) && RedAt(t, c, n, None))
            && (!c.Red(Some(r)) ==> BalAt(t, c, n, Side(s, r)) && RedAt(t, c, n, s.C(r, d)))
  {
    CutIs(s, r, d);
    ChildNodes(s, n);
    assert s.LinkedAt(r) && s.LinkedAt(n);
    assert BalAt(s, c, n, None) && RedAt(s, c, n, None) && BalAt(s, c, r, None) && RedAt(s, c, r, None);
    assert s.ParentAt(r) && !c.Red(None);
    hide Shape.C, Shape.P, Shape.E, Paint.Red, Paint.B, Cut, Shape.Linked, Colored, BalAt, RedAt;
    CutColorLocal(s, c, Cut(s, r, d), r, d, n);
  }

  /** Taking out a red node needs no fix-up. */
  lemma CutRed<N>(s: Shape<N>, c: Paint<N>, r: N, d: bool)
    requires Balanced(s, c) && r in s.nodes && s.C(r, !d) == None && c.Red(Some(r))
    ensures Balanced(Cut(s, r, d), c)
  {
    var t := Cut(s, r, d);
    CutLinked(s, r, d);
    CutIs(s, r, d);
    assert s.LinkedAt(r);
    assert s.ParentAt(r);
    hide Shape.C, Shape.P, Shape.E, Paint.Red, Paint.B, Cut, Sub;
    forall n | n in t.nodes ensures BalAt(t, c, n, None) && RedAt(t, c, n, None) { CutColors(s, c, r, d, n); }
  }

  lemma CutSide<N>(s: Shape<N>, r: N, d: bool)
    requires s.Linked() && r in s.nodes && s.C(r, !d) == None
    ensures var t, short := Cut(s, r, d), Side(s, r);
            && (short.Some? ==> short.value.0 in t.nodes && t.C(short.value.0, short.value.1) == s.C(r, d))
            && t.root == (if short.None? then s.C(r, d) else s.root)
            && (s.C(r, d).Some? ==> s.C(r, d).value in t.nodes)
  {
    CutIs(s, r, d);
    ChildNodes(s, r);
    assert s.LinkedAt(r);
    assert s.ParentAt(r);
    if s.P(r).Some? { ChildNodes(s, s.P(r).value); }
    hide Shape.C, Shape.P, Shape.E, Cut, Sub, Shape.Linked;
  }

  /** Taking out a black node leaves its place one black node short. */
  lemma CutBlack<N>(s: Shape<N>, c: Paint<N>, r: N, d: bool)
    requires Balanced(s, c) && r in s.nodes && s.C(r, !d) == None && !c.Red(Some(r))
    requires s.P(r).Some? || s.C(r, d).Some?
    ensures Sinking(Cut(s, r, d), c, Side(s, r), s.C(r, d))
  {
    var t := Cut(s, r, d);
    CutLinked(s, r, d);
    CutSide(s, r, d);
    hide Shape.C, Shape.P, Shape.E, Paint.Red, Paint.B, Sub, Shape.Linked, Colored, BalAt, RedAt;
    forall n | n in t.nodes ensures BalAt(t, c, n, Side(s, r))
        && RedAt(t, c, n, s.C(r, d)) { CutColors(s, c, r, d, n); }
  }

  // ----- the removal steps as steps between Sinking states -----

  lemma SinkingLacks<N>(s: Shape<N>, c: Paint<N>, p: N, e: bool, cur: Option<N>)
    requires Sinking(s, c, Some((p, e)), cur) && !c.Red(cur)
    ensures Lacking(s, c, p, e) && !c.Red(s.root)
  {
    hide Shape.C, Shape.P, Shape.E, Paint.Red, Paint.B;
    forall n | n in s.nodes ensures RedAt(s, c, n, None) { assert Some(n) != cur ==> RedAt(s, c, n, cur); }
  }

  lemma LackingNode<N>(s: Shape<N>, c: Paint<N>, p: N, e: bool)
    requires Lacking(s, c, p, e)
    ensures s.Linked() && p in s.nodes && !c.Red(s.C(p, e))
  {
  }

  /** Where a node stands decides which other node can be the root. */
  lemma RootIs<N>(s: Shape<N>, n: N)
    requires s.Linked() && n in s.nodes
    ensures s.P(n).None? <==> s.root == Some(n)
  {
    assert s.LinkedAt(n);
  }

  lemma RedSiblingRoot<N>(s: Shape<N>, c: Paint<N>, p: N, e: bool)
    requires Lacking(s, c, p, e) && c.Red(s.C(p, !e)) && !c.Red(s.root)
    ensures !Raised(c, s.C(p, !e).value, p).Red(s.Rotate(p, e).root)
    ensures |s.Rotate(p, e).E(s.C(p, e))| == |s.E(s.C(p, e))|
  {
    SiblingExists(s, c, p, e);
    var q := s.C(p, !e).value;
    ChildNodes(s, p);
    RotateApart(s, p, e);
    RotateE(s, p, e);
    RotateNone(s, p, e);
    RaisedIs(c, q, p);
    RootIs(s, p);
    hide Shape.C, Shape.P, Shape.E, Paint.Red, Paint.B, Shape.Rotate, Raised, Lacking;
  }

  lemma AboveIs<N>(s: Shape<N>, p: N)
    requires s.Linked() && p in s.nodes
    ensures var short := Above(s, p);
            if short.Some? then short.value.0 in s.nodes && s.C(short.value.0, short.value.1) == Some(p)
                else s.root == Some(p)
  {
    assert s.LinkedAt(p);
    assert s.ParentAt(p);
  }

  lemma OddWeakens<N>(s: Shape<N>, c: Paint<N>, n: N, odd: Option<N>)
    requires RedAt(s, c, n, None)
    ensures RedAt(s, c, n, odd)
  {
  }

  lemma LowerSinks<N>(s: Shape<N>, c: Paint<N>, p: N, e: bool)
    requires Lacking(s, c, p, e) && !c.Red(s.C(p, !e)) && !c.Red(s.root)
    requires s.C(p, !e).Some? && !c.Red(s.C(s.C(p, !e).value, false)) && !c.Red(s.C(s.C(p, !e).value, true))
    ensures Sinking(s, Lowered(c, s.C(p, !e).value, p), Above(s, p), Some(p))
  {
    var q := s.C(p, !e).value;
    SiblingExists(s, c, p, e);
    RootIs(s, q);
    LoweredRed(c, q, p);
    AboveIs(s, p);
    LowerStep(s, c, p, e);
    var k := Lowered(c, q, p);
    hide Shape.C, Shape.P, Shape.E, Paint.Red, Paint.B, Lowered, BalAt, RedAt, Shape.Linked, Colored, Above;
    forall n | n in s.nodes ensures BalAt(s, k, n, Above(s, p)) && (n != p ==> RedAt(s, k, n, Some(p))) {
      if n != p { OddWeakens(s, k, n, Some(p)); }
    }
  }

  lemma LoweredRed<N>(c: Paint<N>, q: N, p: N)
    requires p != q
    ensures forall o :: Lowered(c, q, p).Red(o) == if o == Some(q) then true else c.Red(o)
  {
  }

  lemma NearRoot<N>(s: Shape<N>, c: Paint<N>, p: N, e: bool)
    requires Lacking(s, c, p, e) && !c.Red(s.C(p, !e)) && s.C(p, !e).Some? && !c.Red(s.root)
    requires c.Red(s.C(s.C(p, !e).value, e)) && !c.Red(s.C(s.C(p, !e).value, !e))
    ensures var q := s.C(p, !e).value; var r := s.C(q, e).value;
            !Raised(c, r, q).Red(s.Rotate(q, !e).root)
  {
    NearStep(s, c, p, e);
    SiblingExists(s, c, p, e);
    var q := s.C(p, !e).value;
    ChildNodes(s, q);
    RootIs(s, q);
    RaisedIs(c, s.C(q, e).value, q);
    hide Shape.C, Shape.P, Shape.E, Paint.Red, Paint.B, Shape.Rotate, Raised, Lacking;
  }

  lemma FarRoot<N>(s: Shape<N>, c: Paint<N>, p: N, e: bool)
    requires Lacking(s, c, p, e) && !c.Red(s.C(p, !e)) && s.C(p, !e).Some? && !c.Red(s.root)
    requires c.Red(s.C(s.C(p, !e).value, !e))
    ensures var q := s.C(p, !e).value;
            !Settled(c, q, s.C(q, !e).value, p).Red(s.Rotate(p, e).root)
  {
    SiblingExists(s, c, p, e);
    var q := s.C(p, !e).value;
    var f := s.C(q, !e).value;
    ChildNodes(s, q);
    RotateApart(s, p, e);
    RotateE(s, p, e);
    RootIs(s, p);
    RootIs(s, q);
    RootIs(s, f);
    SettledIs(c, q, f, p);
    hide Shape.C, Shape.P, Shape.E, Paint.Red, Paint.B, Shape.Rotate, Settled, Colored, Shape.Linked;
  }

  lemma FarSinks<N>(s: Shape<N>, c: Paint<N>, p: N, e: bool)
    requires Lacking(s, c, p, e) && !c.Red(s.C(p, !e)) && s.C(p, !e).Some? && !c.Red(s.root)
    requires c.Red(s.C(s.C(p, !e).value, !e))
    ensures var q := s.C(p, !e).value; var f := s.C(q, !e).value;
            var t, k := s.Rotate(p, e), Settled(c, q, f, p);
            Sinking(t, k, None, t.root)
  {
    FarStep(s, c, p, e);
    FarRoot(s, c, p, e);
    var q := s.C(p, !e).value;
    var t, k := s.Rotate(p, e), Settled(c, q, s.C(q, !e).value, p);
    hide Shape.C, Shape.P, Shape.E, Paint.Red, Paint.B, Shape.Rotate, Settled, BalAt, RedAt;
    forall n | n in t.nodes ensures BalAt(t, k, n, None) && RedAt(t, k, n, t.root) {
      OddWeakens(t, k, n, t.root);
    }
  }

  /** The state after a red sibling has been rotated away. */
  lemma RedSiblingLacks<N>(s: Shape<N>, c: Paint<N>, p: N, e: bool)
    requires Lacking(s, c, p, e) && c.Red(s.C(p, !e)) && !c.Red(s.root)
    ensures var t, k := s.Rotate(p, e), Raised(c, s.C(p, !e).value, p);
            && Lacking(t, k, p, e) && !k.Red(t.root) && !k.Red(t.C(p, !e)) && t.nodes == s.nodes
                 && t.E(t.root) == s.E(s.root)
            && t.C(p, e) == s.C(p, e) && |t.E(t.C(p, e))| == |s.E(s.C(p, e))|
            && s.C(p, !e).value in s.nodes && s.C(p, !e).value != p
  {
    RedSiblingStep(s, c, p, e);
    RedSiblingRoot(s, c, p, e);
    SiblingExists(s, c, p, e);
  }

  /** The state after the near nephew has been rotated outwards. */
  lemma NearLacks<N>(s: Shape<N>, c: Paint<N>, p: N, e: bool)
    requires Lacking(s, c, p, e) && !c.Red(s.C(p, !e)) && s.C(p, !e).Some? && !c.Red(s.root)
    requires c.Red(s.C(s.C(p, !e).value, e)) && !c.Red(s.C(s.C(p, !e).value, !e))
    ensures var q := s.C(p, !e).value; var r := s.C(q, e).value;
            var t, k := s.Rotate(q, !e), Raised(c, r, q);
            && Lacking(t, k, p, e) && !k.Red(t.root) && t.nodes == s.nodes && t.E(t.root) == s.E(s.root)
            && t.C(p, e) == s.C(p, e) && t.C(p, !e) == Some(r) && !k.Red(Some(r)) && k.Red(t.C(r, !e))
  {
    NearStep(s, c, p, e);
    NearRoot(s, c, p, e);
  }
}
