/** Hanging a new leaf into a tree and taking a node with at most one child out of it. */
module Grafts {
  import opened Common
  import opened Shapes

  /** e with every `at` replaced by `by`. */
  function Sub<N(==)>(e: seq<N>, at: N, rep: seq<N>): seq<N> {
    if e == [] then [] else (if e[0] == at then rep else [e[0]]) + Sub(e[1..], at, rep)
  }

  lemma {:induction false} SubConcat<N>(a: seq<N>, b: seq<N>, at: N, rep: seq<N>)
    ensures Sub(a + b, at, rep) == Sub(a, at, rep) + Sub(b, at, rep)
  {
    if a == [] {
      assert a + b == b;
    } else {
      assert (a + b)[1..] == a[1..] + b;
      SubConcat(a[1..], b, at, rep);
    }
  }

  lemma {:induction false} SubNone<N>(a: seq<N>, at: N, rep: seq<N>)
    requires at !in a
    ensures Sub(a, at, rep) == a
  {
    if a != [] { SubNone(a[1..], at, rep); }
  }

  lemma SubOne<N>(x: N, at: N, rep: seq<N>)
    ensures Sub([x], at, rep) == if x == at then rep else [x]
  {
    assert [x][1..] == [];
    assert Sub<N>([], at, rep) == [];
  }

  lemma SubThree<N>(a: seq<N>, x: N, b: seq<N>, at: N, rep: seq<N>)
    ensures Sub(a + [x] + b, at, rep) == Sub(a, at, rep) + (if x == at then rep else [x]) + Sub(b, at, rep)
  {
    SubConcat(a + [x], b, at, rep);
    SubConcat(a, [x], at, rep);
    SubOne(x, at, rep);
  }

  lemma Regroup<N>(a: seq<N>, l: seq<N>, x: N, r: seq<N>, b: seq<N>)
    ensures a + (l + [x] + r) + b == (a + l + [x]) + r + b
    ensures a + (l + [x] + r) + b == a + l + ([x] + r + b)
  {
  }

  /** Every subtree is a contiguous part of the whole. */
  lemma {:induction false} Within<N>(s: Shape<N>, n: N) returns (pre: seq<N>, post: seq<N>)
    requires s.Linked() && n in s.nodes
    ensures s.E(s.root) == pre + s.E(Some(n)) + post
    decreases |s.E(s.root)| - |s.E(Some(n))|
  {
    hide Shape.C, Shape.P, Shape.E;
    assert s.LinkedAt(n);
    if s.P(n).None? {
      pre, post := [], [];
    } else {
      var p := s.P(n).value;
      assert s.LinkedAt(p);
      var d := s.C(p, true) == Some(n);
      Shorter(s, p, d);
      var a, b := Within(s, p);
      var l, r := s.E(s.C(p, false)), s.E(s.C(p, true));
      Regroup(a, l, p, r, b);
      pre, post := if d then a + l + [p] else a, if d then b else [p] + r + b;
    }
  }

  lemma SubLonger<N>(s: Shape<N>, n: N, at: N, rep: seq<N>)
    requires s.Linked() && n in s.nodes
    ensures |Sub(s.E(Some(n)), at, rep)| <= |Sub(s.E(s.root), at, rep)|
  {
    var pre, post := Within(s, n);
    SubConcat(pre + s.E(Some(n)), post, at, rep);
    SubConcat(pre, s.E(Some(n)), at, rep);
  }

  function GrownElements<N>(s: Shape<N>, x: N, p: Option<N>, d: bool): map<N, seq<N>> {
    var rep := if p.None? then [] else if d then [p.value, x] else [x, p.value];
    (map m | m in s.nodes :: if p.None? then [] else Sub(s.E(Some(m)), p.value, rep))[x := [x]]
  }

  /** x becomes the child on side d of the leaf position p, or the root of an empty tree. */
  function Grown<N>(s: Shape<N>, x: N, p: Option<N>, d: bool): Shape<N> {
    var s0 := s.Joined(x);
    var s1 := if p.Some? then s0.SetChild(p.value, d, Some(x)) else s0.SetRoot(Some(x));
    s1.SetParent(x, p).(elems := GrownElements(s, x, p, d))
  }

  lemma GrownIs<N>(s: Shape<N>, x: N, p: Option<N>, d: bool)
    requires x !in s.nodes && (p.Some? ==> p.value in s.nodes)
    ensures var t := Grown(s, x, p, d);
            && t.nodes == s.nodes + {x} && t.root == (if p.None? then Some(x) else s.root)
            && (forall m, e :: t.C(m, e) == if m == x then None else if Some(m) == p && e == d then Some(x)
                 else s.C(m, e))
            && (forall m :: t.P(m) == if m == x then p else s.P(m))
            && t.E(None) == [] && t.E(Some(x)) == [x]
            && (p.Some? ==>
                 forall m | m in s.nodes ::
                 t.E(Some(m)) == Sub(s.E(Some(m)), p.value, if d then [p.value, x] else [x, p.value]))
  {
  }

  /** Every child is a node. */
  lemma ChildNodes<N>(s: Shape<N>, n: N)
    requires s.Linked() && n in s.nodes
    ensures forall e, m :: s.C(n, e) == Some(m) ==> m in s.nodes && m != n && s.P(m) == Some(n) && s.C(n, !e) != Some(m)
  {
    assert s.LinkedAt(n) && s.ChildAt(n, false) && s.ChildAt(n, true);
    if s.C(n, false).Some? { Shorter(s, n, false); }
    if s.C(n, true).Some? { Shorter(s, n, true); }
  }

  lemma ParentNode<N>(s: Shape<N>, n: N)
    requires s.Linked() && n in s.nodes
    ensures s.P(n).Some? ==>
              && s.P(n).value in s.nodes
              && (s.C(s.P(n).value, false) == Some(n) || s.C(s.P(n).value, true) == Some(n))
  {
    assert s.LinkedAt(n);
  }

  lemma ChildShorter<N>(s: Shape<N>, n: N)
    requires s.Linked() && n in s.nodes
    ensures forall d :: |s.E(s.C(n, d))| < |s.E(Some(n))|
  {
    assert s.LinkedAt(n);
  }

  lemma GrownElems<N>(s: Shape<N>, x: N, p: N, d: bool, n: N)
    requires s.Linked() && x !in s.nodes && p in s.nodes && s.C(p, d) == None && n in s.nodes
    ensures Grown(s, x, Some(p), d).ElemsAt(n)
  {
    var t := Grown(s, x, Some(p), d);
    var rep := if d then [p, x] else [x, p];
    GrownIs(s, x, Some(p), d);
    ChildNodes(s, n);
    assert s.LinkedAt(n);
    SubThree(s.E(s.C(n, false)), n, s.E(s.C(n, true)), p, rep);
    assert s.E(None) == [] && Sub<N>([], p, rep) == [];
    hide Sub, Grown, Shape.C, Shape.P, Shape.E, Shape.Linked;
    GrownLocal(s, t, x, p, d, n, rep);
  }

  lemma GrownLocal<N>(s: Shape<N>, t: Shape<N>, x: N, p: N, d: bool, n: N, rep: seq<N>)
    requires n in s.nodes && x !in s.nodes && s.C(p, d) == None && s.E(None) == [] && t.E(None) == []
              && t.E(Some(x)) == [x]
    requires rep == if d then [p, x] else [x, p]
    requires forall e :: t.C(n, e) == if n == p && e == d then Some(x) else s.C(n, e)
    requires forall m | m in s.nodes :: t.E(Some(m)) == Sub(s.E(Some(m)), p, rep)
    requires forall e, m :: s.C(n, e) == Some(m) ==> m in s.nodes
    requires Sub([], p, rep) == []
    requires s.ElemsAt(n)
    requires var l, r := s.E(s.C(n, false)), s.E(s.C(n, true));
             Sub(l + [n] + r, p, rep) == Sub(l, p, rep) + (if n == p then rep else [n]) + Sub(r, p, rep)
    ensures t.ElemsAt(n)
  {
    hide Sub, Shape.C, Shape.P, Shape.E;
    var l, r := Sub(s.E(s.C(n, false)), p, rep), Sub(s.E(s.C(n, true)), p, rep);
    if n == p && d {
      assert l + [p, x] + r == l + [p] + [x];
    } else if n == p {
      assert l + [x, p] + r == [x] + [p] + r;
    }
  }

  lemma GrownLinks<N>(s: Shape<N>, x: N, p: N, d: bool, n: N)
    requires s.Linked() && x !in s.nodes && p in s.nodes && s.C(p, d) == None && n in s.nodes
    ensures var t := Grown(s, x, Some(p), d); t.ChildAt(n, false) && t.ChildAt(n, true) && t.ParentAt(n)
  {
    hide Sub, Grown, Shape.C, Shape.P, Shape.E, Shape.ElemsAt;
    GrownIs(s, x, Some(p), d);
    ChildNodes(s, n);
    assert s.LinkedAt(n);
    if s.P(n).Some? { ChildNodes(s, s.P(n).value); }
    hide Shape.Linked;
  }

  /** A leaf hung at an empty place keeps the links right and puts x next to p in the order. */
  lemma GrownLinked<N>(s: Shape<N>, x: N, p: N, d: bool)
    requires s.Linked() && x !in s.nodes && p in s.nodes && s.C(p, d) == None
    ensures var t := Grown(s, x, Some(p), d);
            t.Linked() && t.E(t.root) == Sub(s.E(s.root), p, if d then [p, x] else [x, p])
  {
    hide Sub, Grown, Shape.C, Shape.P, Shape.E, Shape.LinkedAt;
    var t := Grown(s, x, Some(p), d);
    GrownIs(s, x, Some(p), d);
    RootedAt(s, p);
    forall n | n in t.nodes ensures t.LinkedAt(n) && |t.E(Some(n))| <= |t.E(t.root)| {
      if n != x { GrownNode(s, x, p, d, n); } else { GrownLeaf(s, x, p, d); }
    }
  }

  lemma RootedAt<N>(s: Shape<N>, n: N)
    requires s.Linked() && n in s.nodes
    ensures s.root.Some? && s.root.value in s.nodes && s.P(s.root.value) == None
  {
    RootOfNodes(s, n);
  }

  lemma GrownNode<N>(s: Shape<N>, x: N, p: N, d: bool, n: N)
    requires s.Linked() && x !in s.nodes && p in s.nodes && s.C(p, d) == None && n in s.nodes
    ensures var t := Grown(s, x, Some(p), d); t.LinkedAt(n) && |t.E(Some(n))| <= |t.E(t.root)|
  {
    hide Sub, Grown, Shape.C, Shape.P, Shape.E, Shape.ElemsAt, Shape.ChildAt, Shape.ParentAt;
    GrownIs(s, x, Some(p), d);
    GrownLinks(s, x, p, d, n);
    GrownElems(s, x, p, d, n);
    RootedAt(s, p);
    SubLonger(s, n, p, if d then [p, x] else [x, p]);
    hide Shape.Linked;
  }

  lemma GrownLeaf<N>(s: Shape<N>, x: N, p: N, d: bool)
    requires s.Linked() && x !in s.nodes && p in s.nodes && s.C(p, d) == None
    ensures var t := Grown(s, x, Some(p), d); t.LinkedAt(x) && |t.E(Some(x))| <= |t.E(t.root)|
  {
    hide Sub, Grown, Shape.C, Shape.P, Shape.E;
    var t, rep := Grown(s, x, Some(p), d), if d then [p, x] else [x, p];
    GrownIs(s, x, Some(p), d);
    RootedAt(s, p);
    SubLonger(s, p, p, rep);
    SubHas(s, p, rep);
    hide Shape.Linked;
    assert t.C(p, d) == Some(x);
    assert t.E(Some(x)) == t.E(t.C(x, false)) + [x] + t.E(t.C(x, true));
  }

  lemma SubHas<N>(s: Shape<N>, p: N, rep: seq<N>)
    requires s.Linked() && p in s.nodes && rep != []
    ensures |Sub(s.E(Some(p)), p, rep)| >= 1
  {
    assert s.LinkedAt(p);
    SubThree(s.E(s.C(p, false)), p, s.E(s.C(p, true)), p, rep);
  }

  lemma GrownRoot<N>(s: Shape<N>, x: N, d: bool)
    requires s.Linked() && s.nodes == {}
    ensures Grown(s, x, None, d).Linked() && Grown(s, x, None, d).E(Some(x)) == [x]
  {
    var t := Grown(s, x, None, d);
    GrownIs(s, x, None, d);
    hide Sub, Grown, Shape.C, Shape.P, Shape.E;
    assert t.E(Some(x)) == t.E(t.C(x, false)) + [x] + t.E(t.C(x, true));
  }

  // ----- taking a node out -----

  function CutElements<N>(s: Shape<N>, r: N): map<N, seq<N>> {
    map m | m in s.nodes - {r} :: Sub(s.E(Some(m)), r, [])
  }

  /** r, which has no child on side !d, is replaced by its child on side d. */
  function Cut<N>(s: Shape<N>, r: N, d: bool): Shape<N> {
    var c, q := s.C(r, d), s.P(r);
    var s1 := if c.Some? then s.SetParent(c.value, q) else s;
    var s2 := if q.None? then s1.SetRoot(c) else s1.SetChild(q.value, s.C(q.value, false) != Some(r), c);
    s2.(nodes := s.nodes - {r}, elems := CutElements(s, r))
  }

  lemma CutWrites<N>(s: Shape<N>, r: N, d: bool, m: N, e: bool)
    ensures var q := s.P(r);
            Cut(s, r, d).C(m, e) == if q == Some(m) && e == (s.C(m, false) != Some(r)) then s.C(r, d) else s.C(m, e)
  {
  }

  lemma CutC<N>(s: Shape<N>, r: N, d: bool, m: N, e: bool)
    requires s.Linked() && r in s.nodes && m in s.nodes
    ensures Cut(s, r, d).C(m, e) == if s.C(m, e) == Some(r) then s.C(r, d) else s.C(m, e)
  {
    CutWrites(s, r, d, m, e);
    ChildNodes(s, m);
    assert s.LinkedAt(r);
    assert s.ParentAt(r);
    hide Cut, Shape.C, Shape.P, Shape.E, Shape.Linked;
  }

  lemma CutIs<N>(s: Shape<N>, r: N, d: bool)
    requires s.Linked() && r in s.nodes
    ensures var t, c, q := Cut(s, r, d), s.C(r, d), s.P(r);
            && t.nodes == s.nodes - {r} && t.root == (if q.None? then c else s.root)
            && (forall m, e | m in s.nodes :: t.C(m, e) == if s.C(m, e) == Some(r) then c else s.C(m, e))
            && (forall m :: t.P(m) == if Some(m) == c then q else s.P(m))
            && t.E(None) == [] && (forall m | m in t.nodes :: t.E(Some(m)) == Sub(s.E(Some(m)), r, []))
  {
    forall m, e | m in s.nodes ensures Cut(s, r, d).C(m, e) == if s.C(m, e) == Some(r) then s.C(r, d) else s.C(m, e) {
      CutC(s, r, d, m, e);
    }
    hide Cut, Shape.C, Shape.P, Shape.E, Shape.Linked, Sub;
    CutRest(s, r, d);
  }

  lemma CutRest<N>(s: Shape<N>, r: N, d: bool)
    ensures var t, c, q := Cut(s, r, d), s.C(r, d), s.P(r);
            && t.nodes == s.nodes - {r} && t.root == (if q.None? then c else s.root)
            && (forall m :: t.P(m) == if Some(m) == c then q else s.P(m))
            && t.E(None) == [] && (forall m | m in t.nodes :: t.E(Some(m)) == Sub(s.E(Some(m)), r, []))
  {
  }

  /** What takes r's place has r's elements but r. */
  lemma CutBelow<N>(s: Shape<N>, r: N, d: bool)
    requires s.Linked() && r in s.nodes && s.C(r, !d) == None
    ensures Cut(s, r, d).E(s.C(r, d)) == Sub(s.E(Some(r)), r, [])
  {
    hide Cut, Shape.C, Shape.P, Shape.E, Sub, Shape.Linked;
    CutIs(s, r, d);
    ChildNodes(s, r);
    OneSided(s, r, d);
    SubNothing(s, r);
  }

  /** Without r itself, the elements under a node with one child are its child's. */
  lemma OneSided<N>(s: Shape<N>, r: N, d: bool)
    requires s.Linked() && r in s.nodes && s.C(r, !d) == None
    ensures Sub(s.E(Some(r)), r, []) == Sub(s.E(s.C(r, d)), r, [])
  {
    hide Shape.C, Shape.P, Shape.E, Sub;
    assert s.LinkedAt(r);
    var l, h := s.E(s.C(r, false)), s.E(s.C(r, true));
    SubThree(l, r, h, r, []);
    SubNothing(s, r);
    if d { assert l == []; } else { assert h == []; }
  }

  lemma SubNothing<N>(s: Shape<N>, r: N)
    ensures s.E(None) == [] && Sub([], r, []) == []
  {
  }

  lemma CutElems<N>(s: Shape<N>, r: N, d: bool, n: N)
    requires s.Linked() && r in s.nodes && s.C(r, !d) == None && n in s.nodes && n != r
    ensures Cut(s, r, d).ElemsAt(n)
  {
    var t := Cut(s, r, d);
    CutIs(s, r, d);
    CutBelow(s, r, d);
    ChildNodes(s, n);
    assert s.LinkedAt(n);
    var l, h := s.C(n, false), s.C(n, true);
    SubThree(s.E(l), n, s.E(h), r, []);
    assert s.E(None) == [] && Sub<N>([], r, []) == [];
    hide Cut, Shape.C, Shape.P, Shape.E, Sub;
    assert t.E(t.C(n, false)) == Sub(s.E(l), r, []) by { if l.Some? && l.value != r { assert l.value in t.nodes; } }
    assert t.E(t.C(n, true)) == Sub(s.E(h), r, []) by { if h.Some? && h.value != r { assert h.value in t.nodes; } }
  }

  lemma CutChildAt<N>(s: Shape<N>, r: N, d: bool, n: N, e: bool)
    requires s.Linked() && r in s.nodes && s.C(r, !d) == None && n in s.nodes && n != r
    ensures Cut(s, r, d).ChildAt(n, e)
  {
    CutIs(s, r, d);
    ChildNodes(s, n);
    ChildNodes(s, r);
    hide Cut, Shape.E, Shape.C, Shape.P, Sub, Shape.Linked;
  }

  lemma CutParentAt<N>(s: Shape<N>, r: N, d: bool, n: N)
    requires s.Linked() && r in s.nodes && s.C(r, !d) == None && n in s.nodes && n != r
    ensures Cut(s, r, d).ParentAt(n)
  {
    CutIs(s, r, d);
    ChildNodes(s, r);
    assert s.LinkedAt(n) && s.LinkedAt(r);
    if s.P(r).Some? { ChildNodes(s, s.P(r).value); }
    hide Cut, Shape.E, Shape.C, Shape.P, Sub, Shape.Linked;
    assert s.P(n) == Some(r) ==> s.C(r, d) == Some(n) by {
      if s.P(n) == Some(r) { assert s.C(r, false) == Some(n) || s.C(r, true) == Some(n); }
    }
    CutParentLocal(s, Cut(s, r, d), r, s.C(r, d), s.P(r), n);
  }

  lemma CutParentLocal<N>(s: Shape<N>, t: Shape<N>, r: N, c: Option<N>, q: Option<N>, n: N)
    requires n in s.nodes && n != r && s.P(r) == q && q != Some(r)
    requires t.nodes == s.nodes - {r} && t.root == (if q.None? then c else s.root)
    requires forall m, e | m in s.nodes :: t.C(m, e) == if s.C(m, e) == Some(r) then c else s.C(m, e)
    requires forall m :: t.P(m) == if Some(m) == c then q else s.P(m)
    requires s.P(n) == Some(r) <==> c == Some(n)
    requires s.ParentAt(n) && s.ParentAt(r)
    ensures t.ParentAt(n)
  {
    hide Shape.E, Shape.C, Shape.P, Shape.Linked;
    if c == Some(n) && q.Some? { assert t.C(q.value, false) == c || t.C(q.value, true) == c; }
  }

  lemma CutRoot<N>(s: Shape<N>, r: N, d: bool)
    requires s.Linked() && r in s.nodes && s.C(r, !d) == None
    ensures var t := Cut(s, r, d);
            && (t.root.Some? ==> t.root.value in t.nodes && t.P(t.root.value) == None)
            && t.E(t.root) == Sub(s.E(s.root), r, [])
  {
    CutIs(s, r, d);
    CutBelow(s, r, d);
    ChildNodes(s, r);
    RootOfNodes(s, r);
    assert s.LinkedAt(r);
    hide Cut, Sub, Shape.C, Shape.P, Shape.E;
    assert s.ParentAt(r);
    if s.P(r).None? { assert s.root == Some(r); } else { assert s.root != Some(r); }
  }

  /** Taking out a node with at most one child keeps the links right and the order of the others. */
  lemma CutLinked<N>(s: Shape<N>, r: N, d: bool)
    requires s.Linked() && r in s.nodes && s.C(r, !d) == None
    ensures var t := Cut(s, r, d); t.Linked() && t.E(t.root) == Sub(s.E(s.root), r, [])
  {
    var t := Cut(s, r, d);
    CutIs(s, r, d);
    CutRoot(s, r, d);
    hide Cut, Sub, Shape.C, Shape.P, Shape.E, Shape.ChildAt, Shape.ParentAt, Shape.ElemsAt;
    forall n | n in t.nodes ensures t.LinkedAt(n) {
      CutChildAt(s, r, d, n, false);
      CutChildAt(s, r, d, n, true);
      CutParentAt(s, r, d, n);
      CutElems(s, r, d, n);
    }
    forall n | n in t.nodes ensures |t.E(Some(n))| <= |t.E(t.root)| {
      SubLonger(s, n, r, []);
    }
  }

  lemma {:induction false} Members<N>(s: Shape<N>, n: N)
    requires s.Linked() && n in s.nodes
    ensures forall m | m in s.E(Some(n)) :: m in s.nodes
    decreases |s.E(Some(n))|
  {
    assert s.LinkedAt(n);
    assert s.ElemsAt(n);
    ChildNodes(s, n);
    if s.C(n, false).Some? { Shorter(s, n, false); Members(s, s.C(n, false).value); }
    if s.C(n, true).Some? { Shorter(s, n, true); Members(s, s.C(n, true).value); }
    hide Shape.C, Shape.P, Shape.E, Shape.Linked;
    assert s.E(None) == [];
  }

  /** What hangs under the root is exactly the nodes. */
  lemma RootMembers<N>(s: Shape<N>)
    requires s.Linked()
    ensures forall m :: m in s.E(s.root) <==> m in s.nodes
  {
    if s.root.Some? { Members(s, s.root.value); }
    forall m | m in s.nodes ensures m in s.E(s.root) {
      var pre, post := Within(s, m);
      assert s.LinkedAt(m);
      assert m in s.E(Some(m));
    }
  }

  /** Where the parts of a subtree lie in the whole. */
  lemma Middle<N>(s: Shape<N>, n: N, lo: nat, hi: nat) returns (mid: nat)
    requires s.Linked() && n in s.nodes && lo <= hi <= |s.E(s.root)| && s.E(s.root)[lo..hi] == s.E(Some(n))
    ensures lo <= mid < hi && s.E(s.root)[mid] == n
    ensures s.E(s.root)[lo..mid] == s.E(s.C(n, false)) && s.E(s.root)[mid + 1..hi] == s.E(s.C(n, true))
  {
    assert s.LinkedAt(n);
    var l, r := s.E(s.C(n, false)), s.E(s.C(n, true));
    hide Shape.C, Shape.P, Shape.E, Shape.Linked;
    assert s.E(Some(n)) == l + [n] + r;
    mid := lo + |l|;
    var e := s.E(s.root);
    Cuts(e, lo, mid, hi, l, n, r);
  }

  lemma Cuts<N>(e: seq<N>, lo: nat, mid: nat, hi: nat, l: seq<N>, n: N, r: seq<N>)
    requires lo <= hi <= |e| && e[lo..hi] == l + [n] + r && mid == lo + |l|
    ensures mid < hi && e[mid] == n && e[lo..mid] == l && e[mid + 1..hi] == r
  {
    assert |e[lo..hi]| == |l| + 1 + |r|;
    assert e[lo..hi][|l|] == n;
    assert e[lo..hi][..|l|] == l;
    assert e[lo..hi][|l| + 1..] == r;
  }
}
