/** Colours and black heights, and what each case of the two fix-ups does to them. */
module Colors {
  import opened Common
  import opened Shapes

  /** Colours; `bh` annotates each node with its black height. */
  datatype Paint<!N> = Paint(red: map<N, bool>, bh: map<N, nat>)
  {
    predicate Red(o: Option<N>) { o.Some? && o.value in red && red[o.value] }
    function B(o: Option<N>): nat { if o.Some? && o.value in bh then bh[o.value] else 0 }
    function Set(n: N, r: bool, b: nat): Paint<N> { Paint(red[n := r], bh[n := b]) }
  }

  lemma SetPaint<N>(c: Paint<N>, n: N, r: bool, b: nat)
    ensures forall o :: c.Set(n, r, b).Red(o) == if o == Some(n) then r else c.Red(o)
    ensures forall o :: c.Set(n, r, b).B(o) == if o == Some(n) then b else c.B(o)
  {
  }

  lemma NoneBlack<N>(c: Paint<N>)
    ensures !c.Red(None) && c.B(None) == 0
  {
  }

  /** Black height below n on one side; one more where the tree is a black node short. */
  ghost function Eff<N>(s: Shape<N>, c: Paint<N>, n: N, d: bool, short: Option<(N, bool)>): nat {
    c.B(s.C(n, d)) + if short == Some((n, d)) then 1 else 0
  }

  ghost predicate BalAt<N>(s: Shape<N>, c: Paint<N>, n: N, short: Option<(N, bool)>) {
    Eff(s, c, n, false, short) == Eff(s, c, n, true, short)
    && c.B(Some(n)) == Eff(s, c, n, false, short) + if c.Red(Some(n)) then 0 else 1
  }

  /** A red node has no red child, except perhaps `odd`. */
  ghost predicate RedAt<N>(s: Shape<N>, c: Paint<N>, n: N, odd: Option<N>) {
    c.Red(Some(n)) ==> (c.Red(s.C(n, false)) ==> s.C(n, false) == odd) && (c.Red(s.C(n, true)) ==> s.C(n, true) == odd)
  }

  ghost predicate Colored<N>(s: Shape<N>, c: Paint<N>, short: Option<(N, bool)>, odd: Option<N>) {
    forall n | n in s.nodes :: BalAt(s, c, n, short) && RedAt(s, c, n, odd)
  }

  /** The insertion fix-up has come to x with a red parent p below g; only between p and x may red meet red. */
  ghost predicate RedPair<N>(s: Shape<N>, c: Paint<N>, x: N, p: N, g: N, w: bool) {
    && s.Linked() && Colored(s, c, None, Some(x))
    && x in s.nodes && p in s.nodes && g in s.nodes
    && c.Red(Some(p)) && s.P(x) == Some(p) && s.P(p) == Some(g) && s.C(g, !w) == Some(p)
  }

  lemma PairFacts<N>(s: Shape<N>, c: Paint<N>, x: N, p: N, g: N, w: bool)
    requires RedPair(s, c, x, p, g, w)
    ensures x != p && p != g && x != g && !c.Red(Some(g))
    ensures s.C(g, w) != Some(p) && s.C(g, w) != Some(g) && s.C(g, w) != Some(x)
    ensures s.C(p, false) == Some(x) || s.C(p, true) == Some(x)
  {
    assert s.LinkedAt(x) && s.LinkedAt(p) && s.LinkedAt(g);
    Shorter(s, g, !w);
    if s.C(p, true) == Some(x) { Shorter(s, p, true); } else { Shorter(s, p, false); }
    if s.C(g, w).Some? { Shorter(s, g, w); }
    assert RedAt(s, c, g, Some(x));
  }

  function Recolored<N>(c: Paint<N>, p: N, u: N, g: N): Paint<N> {
    c.Set(p, false, c.B(Some(p)) + 1).Set(u, false, c.B(Some(u)) + 1).Set(g, true, c.B(Some(g)))
  }

  /** Whose child the nodes of the pair, and the uncle, are. */
  lemma PairParents<N>(s: Shape<N>, c: Paint<N>, x: N, p: N, g: N, w: bool, n: N)
    requires RedPair(s, c, x, p, g, w) && n in s.nodes
    ensures forall e :: s.C(n, e) == Some(x) ==> n == p
    ensures forall e :: s.C(n, e) == Some(p) ==> n == g
    ensures forall e :: s.C(g, w).Some? && s.C(n, e) == s.C(g, w) ==> n == g
    ensures s.C(g, w).Some? ==> s.P(s.C(g, w).value) == Some(g) && s.C(g, w).value in s.nodes
  {
    assert s.LinkedAt(n) && s.LinkedAt(g);
    NotChild(s, n, p);
    NotChild(s, n, x);
    if s.C(g, w).Some? {
      NotChild(s, n, s.C(g, w).value);
      NotChild(s, g, s.C(g, w).value);
    }
  }

  lemma RecoloredIs<N>(c: Paint<N>, p: N, u: N, g: N)
    requires p != u && u != g && p != g
    ensures var t := Recolored(c, p, u, g);
            && (forall o :: t.Red(o) == if o == Some(p) || o == Some(u) then false else if o == Some(g) then true
                 else c.Red(o))
            && (forall o :: t.B(o) == if o == Some(p) || o == Some(u) then c.B(o) + 1 else c.B(o))
  {
  }

  lemma RecolorAt<N>(s: Shape<N>, c: Paint<N>, x: N, p: N, g: N, w: bool, n: N)
    requires RedPair(s, c, x, p, g, w) && c.Red(s.C(g, w)) && n in s.nodes
    ensures var t := Recolored(c, p, s.C(g, w).value, g); BalAt(s, t, n, None) && RedAt(s, t, n, Some(g))
  {
    var u := s.C(g, w).value;
    PairFacts(s, c, x, p, g, w);
    PairParents(s, c, x, p, g, w, n);
    RecoloredIs(c, p, u, g);
    assert BalAt(s, c, n, None) && RedAt(s, c, n, Some(x));
    RecolorLocal(s, c, Recolored(c, p, u, g), x, p, u, g, w, n);
  }

  lemma RecolorLocal<N>(s: Shape<N>, c: Paint<N>, t: Paint<N>, x: N, p: N, u: N, g: N, w: bool, n: N)
    requires x != p && p != g && x != g && p != u && u != g && !c.Red(Some(g)) && c.Red(Some(p)) && c.Red(Some(u))
    requires s.C(g, w) == Some(u) && s.C(g, !w) == Some(p)
    requires BalAt(s, c, n, None) && RedAt(s, c, n, Some(x))
    requires forall e :: s.C(n, e) == Some(x) ==> n == p
    requires forall e :: s.C(n, e) == Some(p) || s.C(n, e) == Some(u) ==> n == g
    requires forall o :: t.Red(o) == if o == Some(p) || o == Some(u) then false else if o == Some(g) then true
              else c.Red(o)
    requires forall o :: t.B(o) == if o == Some(p) || o == Some(u) then c.B(o) + 1 else c.B(o)
    ensures BalAt(s, t, n, None) && RedAt(s, t, n, Some(g))
  {
    hide Shape.C, Shape.P, Shape.E, Paint.Red, Paint.B;
    var l, r := s.C(n, false), s.C(n, true);
    if n == g {
      if w { assert s.C(g, true) == Some(u); } else { assert s.C(g, false) == Some(u); }
    }
  }

  lemma RecolorStep<N>(s: Shape<N>, c: Paint<N>, x: N, p: N, g: N, w: bool)
    requires RedPair(s, c, x, p, g, w) && c.Red(s.C(g, w))
    ensures var t := Recolored(c, p, s.C(g, w).value, g); Colored(s, t, None, Some(g)) && t.Red(Some(g))
  {
    var t := Recolored(c, p, s.C(g, w).value, g);
    forall n | n in s.nodes ensures BalAt(s, t, n, None) && RedAt(s, t, n, Some(g)) {
      RecolorAt(s, c, x, p, g, w, n);
    }
  }

  // ----- the rotations of insertion -----

  /** p and x change places when x is on the inner side. */
  lemma InnerAt<N>(s: Shape<N>, c: Paint<N>, x: N, p: N, g: N, w: bool, n: N)
    requires RedPair(s, c, x, p, g, w) && c.Red(Some(x)) && s.C(p, w) == Some(x) && n in s.nodes
    ensures BalAt(s.Rotate(p, !w), c, n, None) && RedAt(s.Rotate(p, !w), c, n, Some(p))
  {
    hide Shape.C, Shape.P, Shape.E, Shape.Rotate, Paint.Red, Paint.B;
    PairFacts(s, c, x, p, g, w);
    RotateApart(s, p, !w);
    RotateC(s, p, !w, n, false);
    RotateC(s, p, !w, n, true);
    PairParents(s, c, x, p, g, w, n);
    assert s.LinkedAt(x);
    assert BalAt(s, c, n, None) && RedAt(s, c, n, Some(x));
    assert BalAt(s, c, x, None) && RedAt(s, c, x, Some(x));
    assert BalAt(s, c, p, None) && RedAt(s, c, p, Some(x));
    hide Colored, Shape.Linked;
    InnerLocal(s, c, s.Rotate(p, !w), x, p, g, w, n);
  }

  lemma InnerStep<N>(s: Shape<N>, c: Paint<N>, x: N, p: N, g: N, w: bool)
    requires RedPair(s, c, x, p, g, w) && c.Red(Some(x)) && s.C(p, w) == Some(x)
    ensures RedPair(s.Rotate(p, !w), c, p, x, g, w)
    ensures s.Rotate(p, !w).C(x, !w) == Some(p) && s.Rotate(p, !w).C(g, w) == s.C(g, w)
    ensures s.Rotate(p, !w).nodes == s.nodes && s.Rotate(p, !w).E(s.Rotate(p, !w).root) == s.E(s.root)
    ensures s.Rotate(p, !w).root == s.root
  {
    var t := s.Rotate(p, !w);
    PairFacts(s, c, x, p, g, w);
    RotateLinked(s, p, !w);
    RotateApart(s, p, !w);
    RotateE(s, p, !w);
    RotateP(s, p, !w, p);
    RotateP(s, p, !w, x);
    RotateC(s, p, !w, g, w);
    RotateC(s, p, !w, g, !w);
    RotateC(s, p, !w, x, !w);
    forall n | n in s.nodes ensures BalAt(t, c, n, None) && RedAt(t, c, n, Some(p)) { InnerAt(s, c, x, p, g, w, n); }
    hide Shape.C, Shape.P, Shape.E, Shape.Rotate, Colored, Shape.Linked, BalAt, RedAt;
  }

  lemma InnerLocal<N>(s: Shape<N>, c: Paint<N>, t: Shape<N>, x: N, p: N, g: N, w: bool, n: N)
    requires x != p && p != g && x != g && c.Red(Some(x)) && c.Red(Some(p)) && !c.Red(Some(g))
    requires s.P(p) == Some(g) && s.C(p, w) == Some(x)
    requires BalAt(s, c, n, None) && RedAt(s, c, n, Some(x))
    requires BalAt(s, c, x, None) && RedAt(s, c, x, Some(x))
    requires BalAt(s, c, p, None) && RedAt(s, c, p, Some(x))
    requires forall e :: s.C(n, e) == Some(x) ==> n == p
    requires forall e :: s.C(n, e) == Some(p) ==> n == g
    requires forall e :: t.C(n, e) ==
                  if n == p && e == w then s.C(x, !w)
                  else if n == x && e == !w then Some(p)
                  else if Some(n) == s.P(p) && s.C(n, e) == Some(p) then Some(x)
                  else s.C(n, e)
    requires forall e :: s.C(x, e) != Some(x)
    requires s.C(p, !w) != Some(x)
    ensures BalAt(t, c, n, None) && RedAt(t, c, n, Some(p))
  {
    hide Shape.C, Shape.P, Shape.E, Paint.Red, Paint.B;
  }

  /** The pair is rotated to the top of g's place. */
  function Raised<N>(c: Paint<N>, p: N, g: N): Paint<N> {
    c.Set(p, false, c.B(Some(g))).Set(g, true, c.B(Some(p)))
  }

  lemma RaisedIs<N>(c: Paint<N>, p: N, g: N)
    requires p != g
    ensures var t := Raised(c, p, g);
            && (forall o :: t.Red(o) == if o == Some(p) then false else if o == Some(g) then true else c.Red(o))
            && (forall o :: t.B(o) == if o == Some(p) then c.B(Some(g)) else if o == Some(g) then c.B(Some(p))
                 else c.B(o))
  {
  }

  lemma OuterAt<N>(s: Shape<N>, c: Paint<N>, x: N, p: N, g: N, w: bool, n: N)
    requires RedPair(s, c, x, p, g, w) && s.C(p, !w) == Some(x) && !c.Red(s.C(g, w)) && n in s.nodes
    ensures BalAt(s.Rotate(g, w), Raised(c, p, g), n, None) && RedAt(s.Rotate(g, w), Raised(c, p, g), n, None)
  {
    hide Shape.C, Shape.P, Shape.E, Shape.Rotate, Paint.Red, Paint.B, Raised;
    PairFacts(s, c, x, p, g, w);
    RotateApart(s, g, w);
    RaisedIs(c, p, g);
    assert s.LinkedAt(x) && s.LinkedAt(p) && s.LinkedAt(g) && s.LinkedAt(n);
    if s.C(p, w).Some? { NotChild(s, p, s.C(p, w).value); }
    RotateC(s, g, w, n, false);
    RotateC(s, g, w, n, true);
    PairParents(s, c, x, p, g, w, n);
    NotChild(s, n, g);
    assert BalAt(s, c, n, None) && RedAt(s, c, n, Some(x));
    assert BalAt(s, c, p, None) && RedAt(s, c, p, Some(x));
    assert BalAt(s, c, g, None);
    hide Colored, Shape.Linked;
    OuterLocal(s, c, s.Rotate(g, w), Raised(c, p, g), x, p, g, w, n);
  }

  lemma OuterStep<N>(s: Shape<N>, c: Paint<N>, x: N, p: N, g: N, w: bool)
    requires RedPair(s, c, x, p, g, w) && s.C(p, !w) == Some(x) && !c.Red(s.C(g, w))
    ensures var t, k := s.Rotate(g, w), Raised(c, p, g);
            && t.Linked() && t.nodes == s.nodes && t.E(t.root) == s.E(s.root)
            && Colored(t, k, None, None)
            && t.P(x) == Some(p) && !k.Red(Some(p))
            && (t.root == s.root || t.root == Some(p))
  {
    var t, k := s.Rotate(g, w), Raised(c, p, g);
    PairFacts(s, c, x, p, g, w);
    RotateLinked(s, g, w);
    RotateApart(s, g, w);
    RotateE(s, g, w);
    RotateP(s, g, w, x);
    RaisedIs(c, p, g);
    assert s.LinkedAt(x);
    forall n | n in s.nodes ensures BalAt(t, k, n, None) && RedAt(t, k, n, None) { OuterAt(s, c, x, p, g, w, n); }
    hide Colored, Shape.Linked, BalAt, RedAt;
  }

  lemma OuterLocal<N>(s: Shape<N>, c: Paint<N>, t: Shape<N>, k: Paint<N>, x: N, p: N, g: N, w: bool, n: N)
    requires x != p && p != g && x != g && c.Red(Some(p)) && !c.Red(Some(g)) && !c.Red(s.C(g, w))
    requires
      && s.C(g, !w) == Some(p) && s.C(p, !w) == Some(x) && s.C(p, w) != Some(x) && s.C(g, w) != Some(p)
      && s.C(g, w) != Some(g)
    requires s.C(p, w) != Some(p) && s.C(p, w) != Some(g)
    requires BalAt(s, c, n, None) && RedAt(s, c, n, Some(x))
    requires BalAt(s, c, p, None) && RedAt(s, c, p, Some(x)) && BalAt(s, c, g, None)
    requires forall e :: s.C(n, e) == Some(x) ==> n == p
    requires forall e :: s.C(n, e) == Some(p) ==> n == g
    requires forall e :: s.C(n, e) == Some(g) ==> Some(n) == s.P(g)
    requires s.P(g) != Some(g) && s.P(g) != Some(p)
    requires forall e :: t.C(n, e) ==
                  if n == g && e == !w then s.C(p, w)
                  else if n == p && e == w then Some(g)
                  else if Some(n) == s.P(g) && s.C(n, e) == Some(g) then Some(p)
                  else s.C(n, e)
    requires forall o :: k.Red(o) == if o == Some(p) then false else if o == Some(g) then true else c.Red(o)
    requires forall o :: k.B(o) == if o == Some(p) then c.B(Some(g)) else if o == Some(g) then c.B(Some(p)) else c.B(o)
    ensures BalAt(t, k, n, None) && RedAt(t, k, n, None)
  {
    hide Shape.C, Shape.P, Shape.E, Paint.Red, Paint.B;
  }

  // ----- deletion -----

  /** The subtree on side e of p is a black node short, and starts with a black node or is empty. */
  ghost predicate Lacking<N>(s: Shape<N>, c: Paint<N>, p: N, e: bool) {
    s.Linked() && p in s.nodes && Colored(s, c, Some((p, e)), None) && !c.Red(s.C(p, e))
  }

  /** The sibling of a short subtree exists, and is another node. */
  lemma SiblingExists<N>(s: Shape<N>, c: Paint<N>, p: N, e: bool)
    requires Lacking(s, c, p, e)
    ensures s.C(p, !e).Some? && s.C(p, !e).value in s.nodes && s.C(p, !e).value != p && s.C(p, !e) != s.C(p, e)
    ensures s.P(s.C(p, !e).value) == Some(p)
    ensures c.B(s.C(p, !e)) == c.B(s.C(p, e)) + 1
  {
    assert BalAt(s, c, p, Some((p, e)));
    assert s.LinkedAt(p) && s.ChildAt(p, !e);
    assert c.B(None) == 0;
    if e { assert c.B(s.C(p, false)) == c.B(s.C(p, true)) + 1; }
        else { assert c.B(s.C(p, true)) == c.B(s.C(p, false)) + 1; }
    Shorter(s, p, !e);
  }

  /** A red sibling has two black children that are nodes. */
  lemma RedSibling<N>(s: Shape<N>, c: Paint<N>, p: N, e: bool)
    requires Lacking(s, c, p, e) && c.Red(s.C(p, !e))
    ensures var q := s.C(p, !e).value;
            && s.C(q, e).Some? && !c.Red(s.C(q, e)) && !c.Red(s.C(q, !e)) && !c.Red(Some(p))
            && c.B(s.C(q, false)) == c.B(s.C(q, true)) == c.B(Some(q))
            && c.B(Some(p)) == c.B(Some(q)) + 1
  {
    SiblingExists(s, c, p, e);
    var q := s.C(p, !e).value;
    assert BalAt(s, c, q, Some((p, e))) && RedAt(s, c, q, None) && RedAt(s, c, p, None);
    assert BalAt(s, c, p, Some((p, e)));
    assert c.B(None) == 0;
    if e { assert s.C(p, false) == Some(q); } else { assert s.C(p, true) == Some(q); }
  }

  lemma RedSiblingStep<N>(s: Shape<N>, c: Paint<N>, p: N, e: bool)
    requires Lacking(s, c, p, e) && c.Red(s.C(p, !e))
    ensures var q := s.C(p, !e).value; var t, k := s.Rotate(p, e), Raised(c, q, p);
            && Lacking(t, k, p, e) && t.nodes == s.nodes && t.E(t.root) == s.E(s.root)
            && t.C(p, e) == s.C(p, e) && t.C(p, !e) == s.C(q, e) && !k.Red(t.C(p, !e)) && k.Red(Some(p))
            && t.P(p) == Some(q)
            && (t.root == s.root || t.root == Some(q))
  {
    SiblingExists(s, c, p, e);
    RedSibling(s, c, p, e);
    var q := s.C(p, !e).value;
    var t, k := s.Rotate(p, e), Raised(c, q, p);
    RotateLinked(s, p, e);
    RotateApart(s, p, e);
    RotateE(s, p, e);
    RotateP(s, p, e, p);
    RotateC(s, p, e, p, e);
    RotateC(s, p, e, p, !e);
    RaisedIs(c, q, p);
    ChildParents(s, p);
    ChildParents(s, q);
    forall n | n in s.nodes ensures BalAt(t, k, n, Some((p, e))) && RedAt(t, k, n, None) {
      RotateC(s, p, e, n, false);
      RotateC(s, p, e, n, true);
      ChildParents(s, n);
      assert BalAt(s, c, n, Some((p, e))) && RedAt(s, c, n, None);
      assert BalAt(s, c, p, Some((p, e)));
      RedSiblingLocal(s, c, t, k, p, e, q, n);
    }
  }

  lemma RedSiblingLocal<N>(s: Shape<N>, c: Paint<N>, t: Shape<N>, k: Paint<N>, p: N, e: bool, q: N, n: N)
    requires p != q && s.C(p, !e) == Some(q) && s.P(q) == Some(p) && s.P(p) != Some(p) && s.P(p) != Some(q)
    requires c.Red(Some(q)) && !c.Red(Some(p)) && !c.Red(s.C(q, e)) && !c.Red(s.C(q, !e)) && !c.Red(s.C(p, e))
    requires c.B(s.C(q, false)) == c.B(s.C(q, true)) == c.B(Some(q)) && c.B(Some(p)) == c.B(Some(q)) + 1
    requires BalAt(s, c, n, Some((p, e))) && RedAt(s, c, n, None) && BalAt(s, c, p, Some((p, e)))
    requires forall d, m :: s.C(n, d) == Some(m) ==> s.P(m) == Some(n) && m != n
    requires forall d, m :: s.C(p, d) == Some(m) ==> s.P(m) == Some(p) && m != p
    requires forall d, m :: s.C(q, d) == Some(m) ==> s.P(m) == Some(q) && m != q
    requires s.C(p, e) != Some(q)
    requires forall d :: t.C(n, d) ==
                  if n == p && d == !e then s.C(q, e)
                  else if n == q && d == e then Some(p)
                  else if Some(n) == s.P(p) && s.C(n, d) == Some(p) then Some(q)
                  else s.C(n, d)
    requires forall o :: k.Red(o) == if o == Some(q) then false else if o == Some(p) then true else c.Red(o)
    requires forall o :: k.B(o) == if o == Some(q) then c.B(Some(p)) else if o == Some(p) then c.B(Some(q)) else c.B(o)
    ensures BalAt(t, k, n, Some((p, e))) && RedAt(t, k, n, None)
  {
    hide Shape.C, Shape.P, Shape.E, Paint.Red, Paint.B;
  }

  /** Where the shortage is once p's whole subtree is short. */
  ghost function Above<N>(s: Shape<N>, p: N): Option<(N, bool)> {
    if s.P(p).None? then None else Some((s.P(p).value, s.C(s.P(p).value, true) == Some(p)))
  }

  /** Both nephews black: the sibling turns red and the shortage moves up to p. */
  function Lowered<N>(c: Paint<N>, q: N, p: N): Paint<N> {
    c.Set(q, true, if c.B(Some(q)) > 0 then c.B(Some(q)) - 1 else 0)
     .Set(p, c.Red(Some(p)), if c.B(Some(p)) > 0 then c.B(Some(p)) - 1 else 0)
  }

  lemma LoweredIs<N>(c: Paint<N>, q: N, p: N)
    requires p != q && c.B(Some(q)) > 0 && c.B(Some(p)) > 0
    ensures var t := Lowered(c, q, p);
            && (forall o :: t.Red(o) == if o == Some(q) then true else c.Red(o))
            && (forall o :: t.B(o) == if o == Some(q) || o == Some(p) then c.B(o) - 1 else c.B(o))
  {
  }

  lemma LowerStep<N>(s: Shape<N>, c: Paint<N>, p: N, e: bool)
    requires Lacking(s, c, p, e) && !c.Red(s.C(p, !e))
    requires s.C(p, !e).Some? && !c.Red(s.C(s.C(p, !e).value, false)) && !c.Red(s.C(s.C(p, !e).value, true))
    ensures var k := Lowered(c, s.C(p, !e).value, p);
            forall n | n in s.nodes :: BalAt(s, k, n, Above(s, p)) && (n != p ==> RedAt(s, k, n, None))
    ensures var k := Lowered(c, s.C(p, !e).value, p); k.Red(Some(p)) == c.Red(Some(p))
  {
    SiblingExists(s, c, p, e);
    var q := s.C(p, !e).value;
    assert BalAt(s, c, p, Some((p, e))) && BalAt(s, c, q, Some((p, e)));
    LoweredIs(c, q, p);
    ChildParents(s, p);
    forall n | n in s.nodes
      ensures BalAt(s, Lowered(c, q, p), n, Above(s, p)) && (n != p ==> RedAt(s, Lowered(c, q, p), n, None))
    {
      ChildParents(s, n);
      assert s.LinkedAt(n) && s.LinkedAt(p);
      assert s.ChildAt(n, true) && s.ChildAt(n, false);
      assert BalAt(s, c, n, Some((p, e))) && RedAt(s, c, n, None);
      LowerLocal(s, c, Lowered(c, q, p), p, e, q, n);
    }
  }

  lemma LowerLocal<N>(s: Shape<N>, c: Paint<N>, k: Paint<N>, p: N, e: bool, q: N, n: N)
    requires p != q && s.C(p, !e) == Some(q) && s.C(p, e) != Some(q) && s.P(q) == Some(p)
    requires !c.Red(Some(q)) && !c.Red(s.C(q, false)) && !c.Red(s.C(q, true)) && c.B(s.C(p, !e)) == c.B(s.C(p, e)) + 1
    requires c.B(Some(p)) > 0
    requires BalAt(s, c, n, Some((p, e))) && RedAt(s, c, n, None)
    requires forall d, m :: s.C(n, d) == Some(m) ==> s.P(m) == Some(n) && m != n && s.C(n, !d) != Some(m)
    requires s.P(p).Some? ==> s.C(s.P(p).value, false) == Some(p) || s.C(s.P(p).value, true) == Some(p)
    requires forall o :: k.Red(o) == if o == Some(q) then true else c.Red(o)
    requires forall o :: k.B(o) == if o == Some(q) || o == Some(p) then c.B(o) - 1 else c.B(o)
    ensures BalAt(s, k, n, Above(s, p)) && (n != p ==> RedAt(s, k, n, None))
  {
    hide Shape.C, Shape.P, Shape.E, Paint.Red, Paint.B;
  }

  /** Only the near nephew red: it and the sibling change places and colours. */
  lemma NearAt<N>(s: Shape<N>, c: Paint<N>, p: N, e: bool, n: N)
    requires Lacking(s, c, p, e) && !c.Red(s.C(p, !e)) && s.C(p, !e).Some? && n in s.nodes
    requires c.Red(s.C(s.C(p, !e).value, e)) && !c.Red(s.C(s.C(p, !e).value, !e))
    ensures var q := s.C(p, !e).value; var r := s.C(q, e).value;
            var t, k := s.Rotate(q, !e), Raised(c, r, q);
            BalAt(t, k, n, Some((p, e))) && RedAt(t, k, n, None)
  {
    SiblingExists(s, c, p, e);
    var q := s.C(p, !e).value;
    var r := s.C(q, e).value;
    ChildParents(s, p);
    ChildParents(s, q);
    RotateApart(s, q, !e);
    RaisedIs(c, r, q);
    ChildParents(s, r);
    ChildParents(s, n);
    assert BalAt(s, c, q, Some((p, e))) && BalAt(s, c, r, Some((p, e))) && RedAt(s, c, r, None) && RedAt(s, c, q, None);
    assert BalAt(s, c, n, Some((p, e))) && RedAt(s, c, n, None);
    hide Shape.C, Shape.P, Shape.E, Shape.Rotate, Paint.Red, Paint.B, Raised, Colored, Shape.Linked;
    RotateC(s, q, !e, n, false);
    RotateC(s, q, !e, n, true);
    NearLocal(s, c, s.Rotate(q, !e), Raised(c, r, q), p, e, q, r, n);
  }

  /** The links after the near nephew r has been rotated above the sibling q. */
  lemma NearShape<N>(s: Shape<N>, p: N, e: bool, q: N, r: N)
    requires s.Linked() && p in s.nodes && q in s.nodes && s.C(p, !e) == Some(q) && s.C(q, e) == Some(r)
    ensures var t := s.Rotate(q, !e);
            && t.Linked() && t.nodes == s.nodes && t.E(t.root) == s.E(s.root) && t.root == s.root
            && t.C(p, e) == s.C(p, e) && t.C(p, !e) == Some(r) && t.C(r, !e) == Some(q)
  {
    ChildParents(s, p);
    ChildParents(s, q);
    RotateLinked(s, q, !e);
    RotateApart(s, q, !e);
    RotateE(s, q, !e);
    RotateC(s, q, !e, p, e);
    RotateC(s, q, !e, p, !e);
    RotateC(s, q, !e, r, !e);
    hide Shape.C, Shape.P, Shape.E, Shape.Rotate, Shape.Linked;
  }

  lemma NearColored<N>(s: Shape<N>, c: Paint<N>, p: N, e: bool)
    requires Lacking(s, c, p, e) && !c.Red(s.C(p, !e)) && s.C(p, !e).Some?
    requires c.Red(s.C(s.C(p, !e).value, e)) && !c.Red(s.C(s.C(p, !e).value, !e))
    ensures var q := s.C(p, !e).value; var r := s.C(q, e).value;
            s.Rotate(q, !e).nodes == s.nodes ==> Colored(s.Rotate(q, !e), Raised(c, r, q), Some((p, e)), None)
  {
    var q := s.C(p, !e).value;
    var r := s.C(q, e).value;
    hide Shape.C, Shape.P, Shape.E, Shape.Rotate, Shape.Linked, Paint.B, Raised, BalAt, RedAt;
    var t, k := s.Rotate(q, !e), Raised(c, r, q);
    forall n | n in s.nodes ensures BalAt(t, k, n, Some((p, e))) && RedAt(t, k, n, None) { NearAt(s, c, p, e, n); }
  }

  lemma NearStep<N>(s: Shape<N>, c: Paint<N>, p: N, e: bool)
    requires Lacking(s, c, p, e) && !c.Red(s.C(p, !e)) && s.C(p, !e).Some?
    requires c.Red(s.C(s.C(p, !e).value, e)) && !c.Red(s.C(s.C(p, !e).value, !e))
    ensures var q := s.C(p, !e).value; var r := s.C(q, e).value;
            var t, k := s.Rotate(q, !e), Raised(c, r, q);
            && Lacking(t, k, p, e) && t.nodes == s.nodes && t.E(t.root) == s.E(s.root) && t.root == s.root
            && t.C(p, e) == s.C(p, e) && t.C(p, !e) == Some(r) && t.C(r, !e) == Some(q) && k.Red(Some(q))
                 && !k.Red(Some(r))
            && k.Red(Some(p)) == c.Red(Some(p))
  {
    var q := s.C(p, !e).value;
    var r := s.C(q, e).value;
    var t, k := s.Rotate(q, !e), Raised(c, r, q);
    SiblingExists(s, c, p, e);
    hide Shape.C, Shape.P, Shape.E, Shape.Rotate, Shape.Linked, Paint.B, Raised, Colored;
    NearShape(s, p, e, q, r);
    ChildParents(s, p);
    ChildParents(s, q);
    RaisedIs(c, r, q);
    NearColored(s, c, p, e);
  }

  lemma NearLocal<N>(s: Shape<N>, c: Paint<N>, t: Shape<N>, k: Paint<N>, p: N, e: bool, q: N, r: N, n: N)
    requires
      && p != q && p != r && q != r && s.C(p, !e) == Some(q) && s.P(q) == Some(p) && s.C(q, e) == Some(r)
      && s.P(r) == Some(q)
    requires s.C(p, e) != Some(q) && s.C(q, !e) != Some(r)
    requires !c.Red(Some(q)) && c.Red(Some(r)) && !c.Red(s.C(q, !e)) && !c.Red(s.C(p, e))
    requires BalAt(s, c, q, Some((p, e))) && BalAt(s, c, r, Some((p, e))) && RedAt(s, c, r, None)
    requires BalAt(s, c, n, Some((p, e))) && RedAt(s, c, n, None)
    requires forall d, m :: s.C(n, d) == Some(m) ==> s.P(m) == Some(n) && m != n
    requires forall d, m :: s.C(r, d) == Some(m) ==> s.P(m) == Some(r) && m != r
    requires forall d, m :: s.C(q, d) == Some(m) ==> s.P(m) == Some(q) && m != q
    requires forall d :: t.C(n, d) ==
                  if n == q && d == e then s.C(r, !e)
                  else if n == r && d == !e then Some(q)
                  else if Some(n) == s.P(q) && s.C(n, d) == Some(q) then Some(r)
                  else s.C(n, d)
    requires forall o :: k.Red(o) == if o == Some(r) then false else if o == Some(q) then true else c.Red(o)
    requires forall o :: k.B(o) == if o == Some(r) then c.B(Some(q)) else if o == Some(q) then c.B(Some(r)) else c.B(o)
    ensures BalAt(t, k, n, Some((p, e))) && RedAt(t, k, n, None)
  {
    hide Shape.C, Shape.P, Shape.E, Paint.Red, Paint.B;
  }

  /** The far nephew red: p comes down black on the short side and the shortage is gone. */
  function Settled<N>(c: Paint<N>, q: N, f: N, p: N): Paint<N> {
    c.Set(q, c.Red(Some(p)), c.B(Some(p))).Set(p, false, c.B(Some(q))).Set(f, false, c.B(Some(f)) + 1)
  }

  lemma SettledIs<N>(c: Paint<N>, q: N, f: N, p: N)
    requires p != q && q != f && p != f
    ensures var t := Settled(c, q, f, p);
            && (forall o :: t.Red(o) == if o == Some(q) then c.Red(Some(p))
                 else if o == Some(p) || o == Some(f) then false else c.Red(o))
            && (forall o :: t.B(o) == if o == Some(q) then c.B(Some(p)) else if o == Some(p) then c.B(Some(q))
                 else if o == Some(f) then c.B(o) + 1 else c.B(o))
  {
  }

  lemma FarAt<N>(s: Shape<N>, c: Paint<N>, p: N, e: bool, n: N)
    requires Lacking(s, c, p, e) && !c.Red(s.C(p, !e)) && s.C(p, !e).Some?
    requires c.Red(s.C(s.C(p, !e).value, !e)) && n in s.nodes
    ensures var q := s.C(p, !e).value; var f := s.C(q, !e).value;
            var t, k := s.Rotate(p, e), Settled(c, q, f, p);
            BalAt(t, k, n, None) && RedAt(t, k, n, None)
  {
    SiblingExists(s, c, p, e);
    var q := s.C(p, !e).value;
    var f := s.C(q, !e).value;
    ChildParents(s, p);
    ChildParents(s, q);
    RotateApart(s, p, e);
    SettledIs(c, q, f, p);
    ChildParents(s, f);
    ChildParents(s, n);
    assert BalAt(s, c, q, Some((p, e))) && BalAt(s, c, f, Some((p, e))) && RedAt(s, c, f, None) && RedAt(s, c, q, None);
    assert BalAt(s, c, p, Some((p, e))) && RedAt(s, c, p, None);
    assert BalAt(s, c, n, Some((p, e))) && RedAt(s, c, n, None);
    hide Shape.C, Shape.P, Shape.E, Shape.Rotate, Paint.Red, Paint.B, Settled, Colored, Shape.Linked;
    RotateC(s, p, e, n, false);
    RotateC(s, p, e, n, true);
    FarLocal(s, c, s.Rotate(p, e), Settled(c, q, f, p), p, e, q, f, n);
  }

  lemma FarStep<N>(s: Shape<N>, c: Paint<N>, p: N, e: bool)
    requires Lacking(s, c, p, e) && !c.Red(s.C(p, !e)) && s.C(p, !e).Some?
    requires c.Red(s.C(s.C(p, !e).value, !e))
    ensures var q := s.C(p, !e).value; var f := s.C(q, !e).value;
            var t, k := s.Rotate(p, e), Settled(c, q, f, p);
            && t.Linked() && t.nodes == s.nodes && t.E(t.root) == s.E(s.root)
            && Colored(t, k, None, None)
            && (t.root == s.root || t.root == Some(q))
            && t.root.Some?
  {
    SiblingExists(s, c, p, e);
    var q := s.C(p, !e).value;
    var f := s.C(q, !e).value;
    var t, k := s.Rotate(p, e), Settled(c, q, f, p);
    ChildParents(s, p);
    ChildParents(s, q);
    RotateLinked(s, p, e);
    RotateApart(s, p, e);
    RotateE(s, p, e);
    SettledIs(c, q, f, p);
    forall n | n in s.nodes ensures BalAt(t, k, n, None) && RedAt(t, k, n, None) { FarAt(s, c, p, e, n); }
    RootOfNodes(t, p);
    hide Colored, Shape.Linked, BalAt, RedAt;
  }

  lemma FarLocal<N>(s: Shape<N>, c: Paint<N>, t: Shape<N>, k: Paint<N>, p: N, e: bool, q: N, f: N, n: N)
    requires
      && p != q && p != f && q != f && s.C(p, !e) == Some(q) && s.P(q) == Some(p) && s.C(q, !e) == Some(f)
      && s.P(f) == Some(q)
    requires s.C(p, e) != Some(q) && s.C(q, e) != Some(f) && s.P(p) != Some(p) && s.P(p) != Some(q)
    requires !c.Red(Some(q)) && c.Red(Some(f)) && !c.Red(s.C(p, e))
    requires c.B(s.C(p, !e)) == c.B(s.C(p, e)) + 1
    requires BalAt(s, c, q, Some((p, e))) && BalAt(s, c, f, Some((p, e))) && BalAt(s, c, p, Some((p, e)))
    requires RedAt(s, c, f, None) && RedAt(s, c, p, None)
    requires BalAt(s, c, n, Some((p, e))) && RedAt(s, c, n, None)
    requires forall d :: s.C(n, d) != Some(n) && s.C(p, d) != Some(p) && s.C(q, d) != Some(q) && s.C(f, d) != Some(f)
    requires forall d :: s.C(q, d) != Some(p) && s.C(f, d) != Some(p) && s.C(f, d) != Some(q) && s.C(p, d) != Some(f)
    requires forall d :: (s.C(n, d) == Some(q) ==> n == p) && (s.C(n, d) == Some(f) ==> n == q)
    requires forall d :: s.C(n, d) == Some(p) ==> s.P(p) == Some(n)
    requires forall d :: t.C(n, d) ==
                  if n == p && d == !e then s.C(q, e)
                  else if n == q && d == e then Some(p)
                  else if Some(n) == s.P(p) && s.C(n, d) == Some(p) then Some(q)
                  else s.C(n, d)
    requires forall o :: k.Red(o) == if o == Some(q) then c.Red(Some(p)) else if o == Some(p) || o == Some(f) then false
              else c.Red(o)
    requires forall o :: k.B(o) == if o == Some(q) then c.B(Some(p)) else if o == Some(p) then c.B(Some(q))
              else if o == Some(f) then c.B(o) + 1 else c.B(o)
    ensures BalAt(t, k, n, None) && RedAt(t, k, n, None)
  {
    hide Shape.C, Shape.P, Shape.E, Paint.Red, Paint.B;
  }
}
