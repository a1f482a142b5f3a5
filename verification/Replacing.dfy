/** Adding an equal key: the fix-up starts at a node of a valid tree, and exactly one situation spoils it. */
module Replacing {
  import opened Common
  import opened Shapes
  import opened Colors
  import opened Grafts
  import opened Balance
  import opened Fixups

  /** x is a black inner grandchild: its parent is red, and its uncle, on the same side as x, is black. */
  ghost predicate Bent<N>(s: Shape<N>, c: Paint<N>, x: N) {
    && !c.Red(Some(x)) && Looping(s, c, x)
    && !c.Red(s.C(s.P(s.P(x).value).value, UncleSide(s, x)))
    && s.C(s.P(x).value, UncleSide(s, x)) == Some(x)
  }

  lemma BalancedSinks<N>(s: Shape<N>, c: Paint<N>, x: N)
    requires Balanced(s, c) && x in s.nodes
    ensures s.root.Some? && Sinking(s, c, None, s.root)
  {
    RootOfNodes(s, x);
    hide Shape.C, Shape.P, Shape.E, Paint.Red, Paint.B, BalAt, RedAt;
    forall n | n in s.nodes ensures BalAt(s, c, n, None) && RedAt(s, c, n, s.root) {
      OddWeakens(s, c, n, s.root);
    }
  }

  /** With no red parent, the fix-up only paints the black root black. */
  lemma IdleKeeps<N>(s: Shape<N>, c: Paint<N>, x: N)
    requires Balanced(s, c) && x in s.nodes && !Looping(s, c, x)
    ensures Balanced(FixAdd(s, c, x).s, FixAdd(s, c, x).c)
  {
    BalancedSinks(s, c, x);
    SinkingEnds(s, c, None, s.root.value);
  }

  lemma LoopingPair<N>(s: Shape<N>, c: Paint<N>, x: N)
    requires Balanced(s, c) && x in s.nodes && Looping(s, c, x)
    ensures var p := s.P(x).value; var g := s.P(p).value; RedPair(s, c, x, p, g, UncleSide(s, x)) && !c.Red(Some(x))
  {
    UncleIs(s, x);
    var p := s.P(x).value;
    ParentRed(s, c, x);
    hide Shape.C, Shape.P, Shape.E, Paint.Red, Paint.B, BalAt, RedAt, Shape.Linked, Looping;
    NoneBlack(c);
    forall n | n in s.nodes ensures BalAt(s, c, n, None) && RedAt(s, c, n, Some(x)) {
      OddWeakens(s, c, n, Some(x));
    }
    LoopingRed(s, c, x);
  }

  lemma LoopingRed<N>(s: Shape<N>, c: Paint<N>, x: N)
    requires Looping(s, c, x)
    ensures c.Red(s.P(x)) && s.P(x).Some? && s.P(s.P(x).value).Some?
  {
  }

  lemma ParentRed<N>(s: Shape<N>, c: Paint<N>, x: N)
    requires Balanced(s, c) && x in s.nodes && c.Red(s.P(x))
    ensures !c.Red(Some(x))
  {
    assert s.LinkedAt(x);
    assert s.ParentAt(x);
    assert RedAt(s, c, s.P(x).value, None);
  }

  /** A red uncle: the recolouring makes the grandparent the node that may have a red parent. */
  lemma RedUncleKeeps<N>(s: Shape<N>, c: Paint<N>, x: N)
    requires Balanced(s, c) && x in s.nodes && Looping(s, c, x)
    requires c.Red(s.C(s.P(s.P(x).value).value, UncleSide(s, x)))
    ensures Balanced(FixAdd(s, c, x).s, FixAdd(s, c, x).c)
  {
    hide Shape.C, Shape.P, Shape.E, Paint.Red, Paint.B, Shape.Linked, Balanced, Looping, Recolored, Colored;
    LoopingPair(s, c, x);
    LoopingRed(s, c, x);
    BalancedRoot(s, c);
    var p := s.P(x).value;
    var g, w := s.P(p).value, UncleSide(s, x);
    UncleIs(s, x);
    NoneBlack(c);
    var u := s.C(g, w).value;
    RecolorStep(s, c, x, p, g, w);
    PairFacts(s, c, x, p, g, w);
    RecoloredIs(c, p, u, g);
    assert Rising(s, Recolored(c, p, u, g), g);
    FixAddBalances(s, Recolored(c, p, u, g), g);
    assert AddRound(s, c, x) == Stage(s, Recolored(c, p, u, g), g);
  }

  lemma BalancedRoot<N>(s: Shape<N>, c: Paint<N>)
    requires Balanced(s, c)
    ensures s.Linked() && !c.Red(s.root)
  {
  }

  /** A black uncle and x outside: the rotation leaves a valid tree, and the loop ends. */
  lemma OuterKeeps<N>(s: Shape<N>, c: Paint<N>, x: N)
    requires Balanced(s, c) && x in s.nodes && Looping(s, c, x) && !Bent(s, c, x)
    requires !c.Red(s.C(s.P(s.P(x).value).value, UncleSide(s, x)))
    ensures Balanced(FixAdd(s, c, x).s, FixAdd(s, c, x).c)
  {
    LoopingPair(s, c, x);
    LoopingRed(s, c, x);
    var p := s.P(x).value;
    var g, w := s.P(p).value, UncleSide(s, x);
    UncleIs(s, x);
    ParentNode(s, x);
    OuterStep(s, c, x, p, g, w);
    var t, k := s.Rotate(g, w), Raised(c, p, g);
    RaisedIs(c, p, g);
    PairFacts(s, c, x, p, g, w);
    TopBlack(s, c, p, g, w);
    hide Shape.C, Shape.P, Shape.E, Paint.Red, Paint.B, Shape.Linked, Raised, Colored, Shape.Rotate;
    assert Balanced(t, k);
    IdleKeeps(t, k, x);
    assert AddRound(s, c, x) == Stage(t, k, x);
  }

  lemma TopBlack<N>(s: Shape<N>, c: Paint<N>, p: N, g: N, w: bool)
    requires Balanced(s, c) && p in s.nodes && g in s.nodes && s.C(g, !w) == Some(p) && p != g
    ensures !Raised(c, p, g).Red(s.Rotate(g, w).root)
  {
    RotateApart(s, g, w);
    RotateE(s, g, w);
    RaisedIs(c, p, g);
    RootIs(s, g);
    hide Shape.C, Shape.P, Shape.E, Paint.Red, Paint.B, Shape.Linked, Raised, Shape.Rotate, Colored;
  }

  // ----- the bent case -----

  /** What lies under o is no longer than o's part, and its parents lie under o too. */
  lemma {:induction false} Inside<N>(s: Shape<N>, o: N, m: N)
    requires s.Linked() && o in s.nodes && m in s.E(Some(o))
    ensures m in s.nodes && |s.E(Some(m))| <= |s.E(Some(o))|
    ensures m == o || (s.P(m).Some? && s.P(m).value in s.E(Some(o)))
    decreases |s.E(Some(o))|
  {
    assert s.LinkedAt(o);
    ChildNodes(s, o);
    var l, r := s.C(o, false), s.C(o, true);
    assert s.E(None) == [];
    assert s.E(Some(o)) == s.E(l) + [o] + s.E(r);
    hide Shape.C, Shape.P, Shape.E, Shape.Linked;
    if m in s.E(l) && l.Some? { Inside(s, l.value, m); }
    else if m in s.E(r) && r.Some? { Inside(s, r.value, m); }
  }

  /** Two colourings that agree on a subtree both trees share give it the same black height. */
  lemma {:induction false} SameHeight<N>(s: Shape<N>, c: Paint<N>, t: Shape<N>, k: Paint<N>, o: Option<N>)
    requires s.Linked() && Colored(s, c, None, None) && Colored(t, k, None, None) && s.nodes == t.nodes
    requires o.Some? ==> o.value in s.nodes
    requires forall m | m in s.E(o) ::
              c.Red(Some(m)) == k.Red(Some(m)) && s.C(m, false) == t.C(m, false) && s.C(m, true) == t.C(m, true)
    ensures c.B(o) == k.B(o)
    decreases |s.E(o)|
  {
    NoneBlack(c);
    NoneBlack(k);
    if o.Some? {
      var n := o.value;
      assert s.LinkedAt(n);
      ChildNodes(s, n);
      assert s.E(o) == s.E(s.C(n, false)) + [n] + s.E(s.C(n, true));
      assert n in s.E(o);
      assert BalAt(s, c, n, None) && BalAt(t, k, n, None);
      hide Shape.C, Shape.P, Shape.E, Shape.Linked, Paint.Red, Paint.B, Colored;
      SameHeight(s, c, t, k, s.C(n, false));
    }
  }

  /** The tree the bent case leaves. */
  ghost function Unbent<N>(s: Shape<N>, x: N, p: N, g: N, w: bool): Shape<N>
    requires Below(s, x, p, g, w) && s.C(p, w) == Some(x)
  {
    BelowInner(s, x, p, g, w);
    s.Rotate(p, !w).Rotate(g, w)
  }

  lemma UnbentIs<N>(s: Shape<N>, x: N, p: N, g: N, w: bool, m: N, e: bool)
    requires Below(s, x, p, g, w) && s.C(p, w) == Some(x)
    ensures Unbent(s, x, p, g, w).nodes == s.nodes
    ensures m == p ==> Unbent(s, x, p, g, w).C(m, e) == if e == w then s.C(x, !w) else s.C(p, e)
    ensures m != p && m != x && m != g && s.C(m, e) != Some(g) ==> Unbent(s, x, p, g, w).C(m, e) == s.C(m, e)
  {
    BelowApart(s, x, p, g, w);
    BelowInner(s, x, p, g, w);
    var t := s.Rotate(p, !w);
    RotateApart(s, p, !w);
    RotateApart(t, g, w);
    RotateE(s, p, !w);
    RotateE(t, g, w);
    RotateC(s, p, !w, m, e);
    RotateC(t, g, w, m, e);
    ChildNodes(s, p);
    ChildNodes(s, g);
    ChildNodes(s, x);
    hide Shape.C, Shape.P, Shape.E, Shape.Linked, Shape.Rotate;
  }

  lemma Untouched<N>(s: Shape<N>, x: N, p: N, g: N, w: bool, o: N, m: N)
    requires
      && Below(s, x, p, g, w) && s.C(p, w) == Some(x) && o in s.nodes && o != x
      && (s.P(o) == Some(p) || s.P(o) == Some(x))
    requires m in s.E(Some(o))
    ensures m != x && m != p && m != g
    ensures forall e :: Unbent(s, x, p, g, w).C(m, e) == s.C(m, e)
  {
    Inside(s, o, m);
    Shorten(s, x);
    Shorten(s, p);
    Shorten(s, o);
    if m == x { Inside(s, o, p); }
    ChildShorter(s, m);
    hide Shape.C, Shape.P, Shape.E, Shape.Linked, Shape.Rotate, Unbent;
    forall e ensures Unbent(s, x, p, g, w).C(m, e) == s.C(m, e) { UnbentIs(s, x, p, g, w, m, e); }
  }

  lemma Shorten<N>(s: Shape<N>, n: N)
    requires s.Linked() && n in s.nodes && s.P(n).Some?
    ensures s.P(n).value in s.nodes && |s.E(Some(n))| < |s.E(s.P(n))|
  {
    ParentNode(s, n);
    ChildShorter(s, s.P(n).value);
  }

  lemma UntouchedAll<N>(s: Shape<N>, x: N, p: N, g: N, w: bool, o: Option<N>)
    requires Below(s, x, p, g, w) && s.C(p, w) == Some(x)
    requires o.Some? ==> o.value in s.nodes && o.value != x && (s.P(o.value) == Some(p) || s.P(o.value) == Some(x))
    ensures forall m | m in s.E(o) :: m != x && m != g && forall e :: Unbent(s, x, p, g, w).C(m, e) == s.C(m, e)
    ensures Unbent(s, x, p, g, w).nodes == s.nodes
  {
    assert s.E(None) == [];
    UnbentIs(s, x, p, g, w, p, w);
    hide Shape.C, Shape.P, Shape.E, Shape.Linked, Shape.Rotate, Unbent;
    forall m | m in s.E(o) ensures m != x && m != g && forall e :: Unbent(s, x, p, g, w).C(m, e) == s.C(m, e) {
      Untouched(s, x, p, g, w, o.value, m);
    }
  }

  /** No black heights fit the tree the bent case leaves. */
  lemma BentSpoils<N>(s: Shape<N>, c: Paint<N>, x: N, p: N, g: N, w: bool, k: Paint<N>)
    requires Balanced(s, c) && Below(s, x, p, g, w) && s.C(p, w) == Some(x) && c.Red(Some(p)) && !c.Red(Some(x))
    requires forall m | m != x && m != g :: k.Red(Some(m)) == c.Red(Some(m))
    ensures !Colored(Unbent(s, x, p, g, w), k, None, None)
  {
    var t := Unbent(s, x, p, g, w);
    if Colored(t, k, None, None) {
      var a, b := s.C(p, !w), s.C(x, !w);
      UnbentIs(s, x, p, g, w, p, w);
      UnbentIs(s, x, p, g, w, p, !w);
      ChildNodes(s, p);
      ChildNodes(s, x);
      UntouchedAll(s, x, p, g, w, a);
      UntouchedAll(s, x, p, g, w, b);
      SameHeight(s, c, t, k, a);
      SameHeight(s, c, t, k, b);
      hide Shape.C, Shape.P, Shape.E, Shape.Linked, Shape.Rotate, Paint.Red, Paint.B, Unbent;
      ColorsAt(s, c, p);
      ColorsAt(s, c, x);
      ColorsAt(t, k, p);
    }
  }

  lemma UnbentRoot<N>(s: Shape<N>, x: N, p: N, g: N, w: bool)
    requires Below(s, x, p, g, w) && s.C(p, w) == Some(x)
    ensures Unbent(s, x, p, g, w).root == s.root || Unbent(s, x, p, g, w).root == Some(x)
  {
    BelowApart(s, x, p, g, w);
    BelowInner(s, x, p, g, w);
    var t := s.Rotate(p, !w);
    RotateApart(s, p, !w);
    RotateApart(t, g, w);
    RotateE(s, p, !w);
    RotateE(t, g, w);
    RotateC(s, p, !w, g, !w);
    hide Shape.C, Shape.P, Shape.E, Shape.Linked, Shape.Rotate;
  }

  lemma BentRound<N>(s: Shape<N>, c: Paint<N>, x: N, p: N, g: N, w: bool)
    requires Balanced(s, c) && x in s.nodes && Bent(s, c, x)
    requires s.P(x) == Some(p) && s.P(p) == Some(g) && w == UncleSide(s, x)
    ensures Below(s, x, p, g, w) && c.Red(Some(p)) && s.C(p, w) == Some(x) && !c.Red(Some(x)) && Looping(s, c, x)
    ensures AddRound(s, c, x) == Stage(Unbent(s, x, p, g, w), Raised(c, x, g), p)
    ensures !Looping(Unbent(s, x, p, g, w), Raised(c, x, g), p)
  {
    UncleIs(s, x);
    AddStepKeeps(s, c, x, p, g, w);
    hide Shape.C, Shape.P, Shape.E, Shape.Linked, Shape.Rotate, Paint.Red, Paint.B, Balanced, Raised;
  }

  lemma FixAddIdle<N>(s: Shape<N>, c: Paint<N>, x: N)
    requires s.Linked() && x in s.nodes && !Looping(s, c, x)
    ensures s.root.Some? && FixAdd(s, c, x) == Stage(s, Blackened(c, s.root.value), x)
  {
    RootOfNodes(s, x);
  }

  lemma FixAddRound<N>(s: Shape<N>, c: Paint<N>, x: N)
    requires s.Linked() && x in s.nodes && Looping(s, c, x)
    ensures var t := AddRound(s, c, x); FixAdd(s, c, x) == FixAdd(t.s, t.c, t.cur)
  {
  }

  lemma BentEnds<N>(s: Shape<N>, c: Paint<N>, x: N, p: N, g: N, w: bool)
    requires Balanced(s, c) && x in s.nodes && Bent(s, c, x)
    requires s.P(x) == Some(p) && s.P(p) == Some(g) && w == UncleSide(s, x)
    ensures Below(s, x, p, g, w) && s.C(p, w) == Some(x)
    ensures var t, k := Unbent(s, x, p, g, w), Raised(c, x, g);
            t.root.Some? && FixAdd(s, c, x) == Stage(t, Blackened(k, t.root.value), p)
  {
    hide Shape.C, Shape.P, Shape.E, Shape.Rotate, Paint.Red, Paint.B, Raised, Blackened, AddRound, Bent, Looping,
         Unbent, AddStep, FixAdd, Below;
    BentRound(s, c, x, p, g, w);
    hide Shape.Linked, Balanced;
    var t := AddRound(s, c, x);
    FixAddRound(s, c, x);
    FixAddIdle(t.s, t.c, t.cur);
  }

  /** The bent case ends the loop with that tree. */
  lemma BentResult<N>(s: Shape<N>, c: Paint<N>, x: N, p: N, g: N, w: bool)
    requires Balanced(s, c) && x in s.nodes && Bent(s, c, x)
    requires s.P(x) == Some(p) && s.P(p) == Some(g) && w == UncleSide(s, x)
    ensures Below(s, x, p, g, w) && c.Red(Some(p)) && s.C(p, w) == Some(x) && !c.Red(Some(x))
    ensures FixAdd(s, c, x).s == Unbent(s, x, p, g, w)
    ensures forall m | m != x && m != g :: FixAdd(s, c, x).c.Red(Some(m)) == c.Red(Some(m))
  {
    hide Shape.C, Shape.P, Shape.E, Shape.Linked, Shape.Rotate, Paint.Red, Paint.B, Balanced, Raised, Blackened,
         AddRound, Bent, Looping, Unbent, AddStep, FixAdd, Below;
    BentRound(s, c, x, p, g, w);
    BentEnds(s, c, x, p, g, w);
    BalancedRoot(s, c);
    UnbentRoot(s, x, p, g, w);
    BelowApart(s, x, p, g, w);
    RaisedIs(c, x, g);
    var t := Unbent(s, x, p, g, w);
    BlackenedIs(Raised(c, x, g), t.root.value);
  }

  /**
   * Adding an equal key keeps the tree a red-black tree exactly when its node is not a black inner
   * grandchild below a red parent with a black uncle.
   */
  lemma ReplaceKeepsBalanceIff<N>(s: Shape<N>, c: Paint<N>, x: N)
    requires Balanced(s, c) && x in s.nodes
    ensures !Bent(s, c, x) ==> Balanced(FixAdd(s, c, x).s, FixAdd(s, c, x).c)
    ensures Bent(s, c, x) ==> forall b: map<N, nat> :: !Balanced(FixAdd(s, c, x).s, Paint(FixAdd(s, c, x).c.red, b))
  {
    var t := FixAdd(s, c, x);
    if Bent(s, c, x) {
      var p := s.P(x).value;
      var g, w := s.P(p).value, UncleSide(s, x);
      BentResult(s, c, x, p, g, w);
      forall b: map<N, nat> ensures !Balanced(t.s, Paint(t.c.red, b)) {
        BentSpoils(s, c, x, p, g, w, Paint(t.c.red, b));
      }
    } else {
      if !Looping(s, c, x) { IdleKeeps(s, c, x); }
      else if c.Red(s.C(s.P(s.P(x).value).value, UncleSide(s, x))) { RedUncleKeeps(s, c, x); }
      else { OuterKeeps(s, c, x); }
    }
  }

  // ----- the situation arises -----

  /** Where 5, 2, 7, 1, 3 and 0 hang when they are added in turn: no fix-up rotates. */
  function Kid(n: nat, d: bool): Option<nat> {
    if n == 5 then Some(if d then 7 else 2)
    else if n == 2 then Some(if d then 3 else 1)
    else if n == 1 && !d then Some(0) else None
  }

  function Above(n: nat): Option<nat> {
    if n == 7 || n == 2 then Some(5) else if n == 3 || n == 1 then Some(2) else if n == 0 then Some(1) else None
  }

  ghost predicate Looks(s: Shape<nat>, c: Paint<nat>, nodes: set<nat>, red: set<nat>) {
    && Balanced(s, c) && LooksLike(s, c, nodes, red)
  }

  ghost predicate LooksLike(s: Shape<nat>, c: Paint<nat>, nodes: set<nat>, red: set<nat>) {
    && s.Linked() && s.nodes == nodes && s.root == Some(5)
    && (forall n, d :: s.C(n, d) == if n in nodes && Kid(n, d).Some? && Kid(n, d).value in nodes then Kid(n, d)
         else None)
    && (forall n | n in nodes :: s.P(n) == Above(n))
    && (forall n: nat :: c.Red(Some(n)) <==> n in red)
  }

  lemma Hangs(s: Shape<nat>, c: Paint<nat>, nodes: set<nat>, red: set<nat>, x: nat, p: nat, d: bool)
    requires Looks(s, c, nodes, red) && x !in nodes && p in nodes && Kid(p, d) == Some(x) && Above(x) == Some(p)
    requires forall e :: Kid(x, e).Some? ==> Kid(x, e).value !in nodes
    ensures var g, k := Grown(s, x, Some(p), d), c.Set(x, true, 0);
            && g.Linked() && x in g.nodes
            && LooksLike(g, k, nodes + {x}, red + {x})
            && AddedTo(s, c, x, Some(p), d, FixAdd(g, k, x).s, FixAdd(g, k, x).c)
            && Balanced(FixAdd(g, k, x).s, FixAdd(g, k, x).c)
  {
    hide Shape.C, Shape.P, Shape.E, Shape.Linked, Paint.Red, Paint.Set, Grown, Colored, FixAdd, Rising;
    GrownIs(s, x, Some(p), d);
    GrownLinked(s, x, p, d);
    GrownLeafColors(s, c, x, p, d);
    SetPaint(c, x, true, 0);
    FixAddBalances(Grown(s, x, Some(p), d), c.Set(x, true, 0), x);
  }

  lemma Settles(s: Shape<nat>, c: Paint<nat>, nodes: set<nat>, red: set<nat>, x: nat)
    requires LooksLike(s, c, nodes, red) && x in nodes
    requires Above(x).Some? ==> Above(x).value !in red
    ensures var t := FixAdd(s, c, x); LooksLike(t.s, t.c, nodes, red - {5})
  {
    hide Shape.C, Shape.P, Shape.E, Shape.Linked, Paint.Red, Blackened, Rounds, AddRound;
    NoneBlack(c);
    BlackenedIs(c, 5);
  }

  lemma RecolorRound(s: Shape<nat>, c: Paint<nat>, nodes: set<nat>, red: set<nat>, x: nat, p: nat, g: nat, w: bool)
    requires LooksLike(s, c, nodes, red) && x in nodes && p in nodes && Above(x) == Some(p) && Above(p) == Some(g)
              && g in nodes
    requires Kid(g, !w) == Some(p) && Kid(g, w).Some? && Kid(g, w).value in nodes && p in red && Kid(g, w).value in red
    ensures Looping(s, c, x) && AddRound(s, c, x) == Stage(s, Recolored(c, p, Kid(g, w).value, g), g)
  {
    hide Shape.C, Shape.P, Shape.E, Shape.Linked, Paint.Red, Recolored, Rounds;
  }

  lemma RecoloredLooks(s: Shape<nat>, c: Paint<nat>, nodes: set<nat>, red: set<nat>, p: nat, u: nat, g: nat)
    requires LooksLike(s, c, nodes, red) && p != u && u != g && p != g
    ensures LooksLike(s, Recolored(c, p, u, g), nodes, red - {p, u} + {g})
  {
    hide Shape.C, Shape.P, Shape.E, Shape.Linked, Paint.Red, Recolored;
    RecoloredIs(c, p, u, g);
  }

  lemma RootedLinked(s: Shape<nat>, c: Paint<nat>, nodes: set<nat>, red: set<nat>)
    requires LooksLike(s, c, nodes, red)
    ensures s.Linked() && s.nodes == nodes
  {
  }

  lemma Recolors(s: Shape<nat>, c: Paint<nat>, nodes: set<nat>, red: set<nat>, x: nat, p: nat, g: nat, w: bool)
    requires LooksLike(s, c, nodes, red) && x in nodes && p in nodes && Above(x) == Some(p) && Above(p) == Some(g)
              && g in nodes
    requires Kid(g, !w) == Some(p) && Kid(g, w).Some? && Kid(g, w).value in nodes && p in red && Kid(g, w).value in red
    requires Above(g).Some? ==> Above(g).value !in red - {p, Kid(g, w).value} + {g}
    ensures var t := FixAdd(s, c, x); LooksLike(t.s, t.c, nodes, red - {p, Kid(g, w).value} + {g} - {5})
  {
    var u := Kid(g, w).value;
    RecolorRound(s, c, nodes, red, x, p, g, w);
    RecoloredLooks(s, c, nodes, red, p, u, g);
    RootedLinked(s, c, nodes, red);
    hide LooksLike, Recolored, Rounds, AddRound, Looping, FixAdd, Shape.Linked;
    Settles(s, Recolored(c, p, u, g), nodes, red - {p, u} + {g}, g);
    FixAddRound(s, c, x);
  }

  lemma RootLooks(s: Shape<nat>, c: Paint<nat>, d: bool)
    requires s == Shape({}, None, map[], map[], map[]) && c == Paint(map[], map[])
    ensures LooksLike(Grown(s, 5, None, d), c.Set(5, true, 0), {5}, {5})
  {
    GrownRoot(s, 5, d);
    EmptyFacts(s, c);
    hide Shape.C, Shape.P, Shape.E, Shape.Linked, Paint.Red, Paint.Set, Grown;
    GrownIs(s, 5, None, d);
    SetPaint(c, 5, true, 0);
  }

  lemma EmptyFacts(s: Shape<nat>, c: Paint<nat>)
    requires s == Shape({}, None, map[], map[], map[]) && c == Paint(map[], map[])
    ensures (forall n, e :: s.C(n, e) == None) && (forall n: nat :: !c.Red(Some(n)))
  {
  }

  lemma FirstAdded(d: bool) returns (t: Stage<nat>)
    ensures AddedTo(Shape({}, None, map[], map[], map[]), Paint(map[], map[]), 5, None, d, t.s, t.c)
    ensures Looks(t.s, t.c, {5}, {})
  {
    hide Shape.C, Shape.P, Shape.E, Paint.Red, Paint.Set, Grown, Colored, FixAdd, Rising, LooksLike;
    var s, c: Paint<nat> := Shape({}, None, map[], map[], map[]), Paint(map[], map[]);
    var g, k := Grown(s, 5, None, d), c.Set(5, true, 0);
    GrownRoot(s, 5, d);
    GrownIs(s, 5, None, d);
    GrownRootColors(s, c, 5, d);
    hide Shape.Linked;
    FixAddBalances(g, k, 5);
    RootLooks(s, c, d);
    t := FixAdd(g, k, 5);
    Settles(g, k, {5}, {5}, 5);
    assert {5} - {5} == {};
  }

  /** The tree of six additions. */
  lemma SixAdded(d: bool) returns (t: seq<Stage<nat>>)
    ensures |t| == 6 && AddedTo(Shape({}, None, map[], map[], map[]), Paint(map[], map[]), 5, None, d, t[0].s, t[0].c)
    ensures AddedTo(t[0].s, t[0].c, 2, Some(5), false, t[1].s, t[1].c)
    ensures AddedTo(t[1].s, t[1].c, 7, Some(5), true, t[2].s, t[2].c)
    ensures AddedTo(t[2].s, t[2].c, 1, Some(2), false, t[3].s, t[3].c)
    ensures AddedTo(t[3].s, t[3].c, 3, Some(2), true, t[4].s, t[4].c)
    ensures AddedTo(t[4].s, t[4].c, 0, Some(1), false, t[5].s, t[5].c)
    ensures Looks(t[5].s, t[5].c, {0, 1, 2, 3, 5, 7}, {0, 2})
  {
    hide LooksLike, Balanced, Grown, FixAdd, AddedTo;
    var a := FirstAdded(d);
    var b := NextIdle(a, {5}, {}, 2, 5, false);
    assert {5} + {2} == {2, 5} && {} + {2} - {5} == {2};
    var c := NextIdle(b, {2, 5}, {2}, 7, 5, true);
    assert {2, 5} + {7} == {2, 5, 7} && {2} + {7} - {5} == {2, 7};
    var e := NextRecolored(c, {2, 5, 7}, {2, 7}, 1, 2, false, 5, true);
    assert {2, 5, 7} + {1} == {1, 2, 5, 7} && {2, 7} + {1} - {2, 7} + {5} - {5} == {1};
    var f := NextIdle(e, {1, 2, 5, 7}, {1}, 3, 2, true);
    assert {1, 2, 5, 7} + {3} == {1, 2, 3, 5, 7} && {1} + {3} - {5} == {1, 3};
    var g := NextRecolored(f, {1, 2, 3, 5, 7}, {1, 3}, 0, 1, false, 2, true);
    assert {1, 2, 3, 5, 7} + {0} == {0, 1, 2, 3, 5, 7} && {1, 3} + {0} - {1, 3} + {2} - {5} == {0, 2};
    t := [a, b, c, e, f, g];
  }

  lemma NextIdle(t: Stage<nat>, nodes: set<nat>, red: set<nat>, x: nat, p: nat, d: bool) returns (u: Stage<nat>)
    requires Looks(t.s, t.c, nodes, red) && x !in nodes && p in nodes && Kid(p, d) == Some(x) && Above(x) == Some(p)
    requires (forall e :: Kid(x, e).Some? ==> Kid(x, e).value !in nodes) && p !in red + {x}
    ensures AddedTo(t.s, t.c, x, Some(p), d, u.s, u.c) && Looks(u.s, u.c, nodes + {x}, red + {x} - {5})
  {
    hide LooksLike, Balanced, Grown, FixAdd, AddedTo;
    Hangs(t.s, t.c, nodes, red, x, p, d);
    var g, k := Grown(t.s, x, Some(p), d), t.c.Set(x, true, 0);
    Settles(g, k, nodes + {x}, red + {x}, x);
    u := FixAdd(g, k, x);
  }

  lemma NextRecolored(t: Stage<nat>, nodes: set<nat>, red: set<nat>, x: nat, p: nat, d: bool, g: nat, w: bool)
    returns (u: Stage<nat>)
    requires Looks(t.s, t.c, nodes, red) && x !in nodes && p in nodes && Kid(p, d) == Some(x) && Above(x) == Some(p)
    requires forall e :: Kid(x, e).Some? ==> Kid(x, e).value !in nodes
    requires Above(p) == Some(g) && g in nodes && Kid(g, !w) == Some(p) && Kid(g, w).Some? && Kid(g, w).value in nodes
    requires p in red && Kid(g, w).value in red
    requires Above(g).Some? ==> Above(g).value !in red + {x} - {p, Kid(g, w).value} + {g}
    ensures AddedTo(t.s, t.c, x, Some(p), d, u.s, u.c)
    ensures Looks(u.s, u.c, nodes + {x}, red + {x} - {p, Kid(g, w).value} + {g} - {5})
  {
    hide LooksLike, Balanced, Grown, FixAdd, AddedTo;
    Hangs(t.s, t.c, nodes, red, x, p, d);
    var s, k := Grown(t.s, x, Some(p), d), t.c.Set(x, true, 0);
    Recolors(s, k, nodes + {x}, red + {x}, x, p, g, w);
    u := FixAdd(s, k, x);
  }

  lemma OrderAt(s: Shape<nat>, n: nat, l: Option<nat>, r: Option<nat>)
    requires s.Linked() && n in s.nodes && s.C(n, false) == l && s.C(n, true) == r
    ensures s.E(Some(n)) == s.E(l) + [n] + s.E(r) && s.E(None) == []
  {
    assert s.LinkedAt(n);
  }

  lemma SixOrder(s: Shape<nat>, c: Paint<nat>, red: set<nat>)
    requires LooksLike(s, c, {0, 1, 2, 3, 5, 7}, red)
    ensures s.E(s.root) == [0, 1, 2, 3, 5, 7]
  {
    hide Shape.C, Shape.P, Shape.E, Shape.Linked, Paint.Red;
    OrderAt(s, 0, None, None);
    OrderAt(s, 3, None, None);
    OrderAt(s, 7, None, None);
    OrderAt(s, 1, Some(0), None);
    OrderAt(s, 2, Some(1), Some(3));
    OrderAt(s, 5, Some(2), Some(7));
  }

  /** After 5, 2, 7, 1, 3 and 0 have been added to an empty tree, adding 3 again spoils it. */
  lemma BentHappens(d: bool) returns (t: seq<Stage<nat>>)
    ensures |t| == 6 && AddedTo(Shape({}, None, map[], map[], map[]), Paint(map[], map[]), 5, None, d, t[0].s, t[0].c)
    ensures AddedTo(t[0].s, t[0].c, 2, Some(5), false, t[1].s, t[1].c)
    ensures AddedTo(t[1].s, t[1].c, 7, Some(5), true, t[2].s, t[2].c)
    ensures AddedTo(t[2].s, t[2].c, 1, Some(2), false, t[3].s, t[3].c)
    ensures AddedTo(t[3].s, t[3].c, 3, Some(2), true, t[4].s, t[4].c)
    ensures AddedTo(t[4].s, t[4].c, 0, Some(1), false, t[5].s, t[5].c)
    ensures var s, c := t[5].s, t[5].c;
            && s.E(s.root) == [0, 1, 2, 3, 5, 7]
            && Balanced(s, c) && 3 in s.nodes && Bent(s, c, 3)
  {
    t := SixAdded(d);
    hide Shape.C, Shape.P, Shape.E, Shape.Linked, Paint.Red, Balanced, AddedTo;
    SixOrder(t[5].s, t[5].c, {0, 2});
  }
}
