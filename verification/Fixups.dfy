/** One round of each fix-up loop, and what the round keeps. */
module Fixups {
  import opened Common
  import opened Shapes
  import opened Colors
  import opened Grafts
  import opened Balance

  datatype Stage<!N> = Stage(s: Shape<N>, c: Paint<N>, cur: N)

  /** x has parent p, p has parent g, and w is the side of g that p is not on. */
  ghost predicate Below<N>(s: Shape<N>, x: N, p: N, g: N, w: bool) {
    s.Linked() && x in s.nodes && p in s.nodes && g in s.nodes && s.P(x) == Some(p) && s.P(p) == Some(g)
        && s.C(g, !w) == Some(p)
  }

  lemma BelowInner<N>(s: Shape<N>, x: N, p: N, g: N, w: bool)
    requires Below(s, x, p, g, w) && s.C(p, w) == Some(x)
    ensures Below(s.Rotate(p, !w), p, x, g, w) && s.Rotate(p, !w).C(x, !w) == Some(p)
    ensures s.Rotate(p, !w).nodes == s.nodes && s.Rotate(p, !w).E(s.Rotate(p, !w).root) == s.E(s.root)
  {
    RotateLinked(s, p, !w);
    RotateApart(s, p, !w);
    RotateE(s, p, !w);
    RotateP(s, p, !w, p);
    RotateP(s, p, !w, x);
    ChildNodes(s, g);
    RotateC(s, p, !w, g, !w);
    RotateC(s, p, !w, x, !w);
    hide Shape.C, Shape.P, Shape.E, Shape.Rotate, Shape.Linked;
  }

  lemma BelowApart<N>(s: Shape<N>, x: N, p: N, g: N, w: bool)
    requires Below(s, x, p, g, w)
    ensures x != p && p != g && x != g
  {
    assert s.LinkedAt(x);
    ChildNodes(s, p);
    ChildNodes(s, g);
    Shorter(s, p, s.C(p, true) == Some(x));
    Shorter(s, g, !w);
  }

  lemma ColorsAt<N>(s: Shape<N>, c: Paint<N>, n: N)
    requires Colored(s, c, None, None) && n in s.nodes
    ensures c.B(s.C(n, false)) == c.B(s.C(n, true)) == c.B(Some(n)) - if c.Red(Some(n)) then 0 else 1
    ensures c.Red(Some(n)) ==> !c.Red(s.C(n, false)) && !c.Red(s.C(n, true))
  {
    assert BalAt(s, c, n, None) && RedAt(s, c, n, None);
    NoneBlack(c);
  }

  /** One round of the insertion fix-up at x, whose uncle is on side w. */
  ghost function AddStep<N>(s: Shape<N>, c: Paint<N>, x: N, p: N, g: N, w: bool): Stage<N>
    requires Below(s, x, p, g, w)
  {
    var u := s.C(g, w);
    if c.Red(u) then Stage(s, Recolored(c, p, u.value, g), g)
    else if s.C(p, w) == Some(x) then
      BelowInner(s, x, p, g, w);
      Stage(s.Rotate(p, !w).Rotate(g, w), Raised(c, x, g), p)
    else Stage(s.Rotate(g, w), Raised(c, p, g), x)
  }

  lemma OuterLinks<N>(s: Shape<N>, x: N, p: N, g: N, w: bool)
    requires Below(s, x, p, g, w) && s.C(p, !w) == Some(x)
    ensures var t := s.Rotate(g, w);
            t.Linked() && t.nodes == s.nodes && t.E(t.root) == s.E(s.root) && t.P(x) == Some(p) && p != g
  {
    RotateLinked(s, g, w);
    RotateApart(s, g, w);
    RotateE(s, g, w);
    RotateP(s, g, w, x);
    ChildNodes(s, p);
    ChildNodes(s, g);
    hide Shape.C, Shape.P, Shape.E, Shape.Rotate, Shape.Linked;
  }

  /** A round keeps the links and the order, and either moves up two levels or ends the loop. */
  lemma AddStepKeeps<N>(s: Shape<N>, c: Paint<N>, x: N, p: N, g: N, w: bool)
    requires Below(s, x, p, g, w)
    ensures var t := AddStep(s, c, x, p, g, w);
            && t.s.Linked() && t.s.nodes == s.nodes && t.s.E(t.s.root) == s.E(s.root) && t.cur in s.nodes
            && (if c.Red(s.C(g, w)) then t.s == s && t.cur == g && |s.E(Some(g))| > |s.E(Some(x))|
                 else !t.c.Red(t.s.P(t.cur)))
  {
    assert s.LinkedAt(x);
    assert s.ParentAt(x);
    if c.Red(s.C(g, w)) {
      Shorter(s, p, s.C(p, true) == Some(x));
      assert s.LinkedAt(p) && s.LinkedAt(g);
      Shorter(s, g, !w);
    } else if s.C(p, w) == Some(x) {
      BelowInner(s, x, p, g, w);
      OuterLinks(s.Rotate(p, !w), p, x, g, w);
      RaisedIs(c, x, g);
    } else {
      OuterLinks(s, x, p, g, w);
      RaisedIs(c, p, g);
    }
  }

  lemma RisingPair<N>(s: Shape<N>, c: Paint<N>, x: N, p: N, g: N, w: bool)
    requires Below(s, x, p, g, w) && Rising(s, c, x) && c.Red(Some(p))
    ensures RedPair(s, c, x, p, g, w) && !c.Red(s.root)
  {
    assert s.LinkedAt(x);
  }

  lemma RisingRecolored<N>(s: Shape<N>, c: Paint<N>, x: N, p: N, g: N, w: bool)
    requires Below(s, x, p, g, w) && Rising(s, c, x) && c.Red(Some(p)) && c.Red(s.C(g, w))
    ensures Rising(s, Recolored(c, p, s.C(g, w).value, g), g)
  {
    RisingPair(s, c, x, p, g, w);
    RecolorStep(s, c, x, p, g, w);
    PairFacts(s, c, x, p, g, w);
    RecoloredIs(c, p, s.C(g, w).value, g);
    RootIs(s, x);
    hide Shape.C, Shape.P, Shape.E, Paint.Red, Paint.B, Recolored, Colored, Shape.Linked;
  }

  lemma RisingRaised<N>(s: Shape<N>, c: Paint<N>, x: N, p: N, g: N, w: bool)
    requires RedPair(s, c, x, p, g, w) && c.Red(Some(x)) && !c.Red(s.root) && s.C(p, !w) == Some(x) && !c.Red(s.C(g, w))
    ensures Rising(s.Rotate(g, w), Raised(c, p, g), x)
  {
    OuterStep(s, c, x, p, g, w);
    PairFacts(s, c, x, p, g, w);
    RaisedIs(c, p, g);
    RotateApart(s, g, w);
    RotateE(s, g, w);
    RootIs(s, g);
    RootIs(s, p);
    var t, k := s.Rotate(g, w), Raised(c, p, g);
    hide Shape.C, Shape.P, Shape.E, Paint.Red, Paint.B, Raised, Shape.Linked, BalAt, RedAt, Shape.Rotate;
    forall n | n in t.nodes ensures BalAt(t, k, n, None) && RedAt(t, k, n, Some(x)) {
      OddWeakens(t, k, n, Some(x));
    }
  }

  /** A round keeps the state of the insertion fix-up. */
  lemma AddStepRises<N>(s: Shape<N>, c: Paint<N>, x: N, p: N, g: N, w: bool)
    requires Below(s, x, p, g, w) && Rising(s, c, x) && c.Red(Some(p))
    ensures var t := AddStep(s, c, x, p, g, w); Rising(t.s, t.c, t.cur)
  {
    RisingPair(s, c, x, p, g, w);
    if c.Red(s.C(g, w)) {
      RisingRecolored(s, c, x, p, g, w);
    } else if s.C(p, w) == Some(x) {
      InnerStep(s, c, x, p, g, w);
      RisingRaised(s.Rotate(p, !w), c, p, x, g, w);
    } else {
      assert s.LinkedAt(x);
      assert s.ParentAt(x);
      RisingRaised(s, c, x, p, g, w);
    }
  }

  ghost predicate Looping<N>(s: Shape<N>, c: Paint<N>, x: N) {
    c.Red(s.P(x)) && s.P(s.P(x).value).Some?
  }

  /** The side the uncle of x is on. */
  ghost function UncleSide<N>(s: Shape<N>, x: N): bool
    requires s.P(x).Some? && s.P(s.P(x).value).Some?
  {
    s.C(s.P(s.P(x).value).value, false) == s.P(x)
  }

  lemma UncleIs<N>(s: Shape<N>, x: N)
    requires s.Linked() && x in s.nodes && s.P(x).Some? && s.P(s.P(x).value).Some?
    ensures var p := s.P(x).value; Below(s, x, p, s.P(p).value, UncleSide(s, x))
  {
    assert s.LinkedAt(x);
    assert s.LinkedAt(s.P(x).value);
    assert s.ParentAt(s.P(x).value);
  }

  ghost function Rounds<N>(s: Shape<N>, c: Paint<N>, x: N): nat
    requires s.Linked() && x in s.nodes
  {
    if Looping(s, c, x) then assert s.LinkedAt(x); 1 + |s.E(s.root)| - |s.E(Some(x))| else 0
  }

  ghost function AddRound<N>(s: Shape<N>, c: Paint<N>, x: N): (t: Stage<N>)
    requires s.Linked() && x in s.nodes && Looping(s, c, x)
    ensures t.s.Linked() && t.s.nodes == s.nodes && t.s.E(t.s.root) == s.E(s.root) && t.cur in s.nodes
    ensures Rounds(t.s, t.c, t.cur) < Rounds(s, c, x)
  {
    UncleIs(s, x);
    var p := s.P(x).value;
    AddStepKeeps(s, c, x, p, s.P(p).value, UncleSide(s, x));
    AddStep(s, c, x, p, s.P(p).value, UncleSide(s, x))
  }

  /** The whole insertion fix-up: rounds while a red parent has a parent, then a black root. */
  ghost function FixAdd<N>(s: Shape<N>, c: Paint<N>, x: N): (t: Stage<N>)
    requires s.Linked() && x in s.nodes
    ensures t.s.Linked() && t.s.nodes == s.nodes && t.s.E(t.s.root) == s.E(s.root)
    decreases Rounds(s, c, x)
  {
    if Looping(s, c, x) then
      var t := AddRound(s, c, x);
      FixAdd(t.s, t.c, t.cur)
    else
      RootOfNodes(s, x);
      Stage(s, Blackened(c, s.root.value), x)
  }

  /** x is added at an empty place, and the fix-up ends with t and k. */
  ghost predicate AddedTo<N>(s: Shape<N>, c: Paint<N>, x: N, p: Option<N>, d: bool, t: Shape<N>, k: Paint<N>) {
    && x !in s.nodes && (if p.Some? then p.value in s.nodes && s.C(p.value, d) == None else s.nodes == {})
    && Grown(s, x, p, d).Linked() && x in Grown(s, x, p, d).nodes
    && t == FixAdd(Grown(s, x, p, d), c.Set(x, true, 0), x).s
    && k == FixAdd(Grown(s, x, p, d), c.Set(x, true, 0), x).c
  }

  /** The insertion fix-up ends in a red-black tree. */
  lemma {:induction false} FixAddBalances<N>(s: Shape<N>, c: Paint<N>, x: N)
    requires Rising(s, c, x)
    ensures Balanced(FixAdd(s, c, x).s, FixAdd(s, c, x).c)
    decreases Rounds(s, c, x)
  {
    hide Shape.C, Shape.P, Shape.E, Paint.Red, Paint.B, Shape.Rotate, Shape.Linked, Colored;
    NoneBlack(c);
    if Looping(s, c, x) {
      UncleIs(s, x);
      var p := s.P(x).value;
      AddStepRises(s, c, x, p, s.P(p).value, UncleSide(s, x));
      var t := AddRound(s, c, x);
      FixAddBalances(t.s, t.c, t.cur);
    } else {
      RisingEnds(s, c, x);
    }
  }
}
