/** The pointer structure of a binary tree with parent links, its order, and rotation. */
module Shapes {
  import opened Common

  /** Links between nodes; `elems` annotates each node with the nodes of its subtree, in order. */
  datatype Shape<!N> = Shape(
    nodes: set<N>, root: Option<N>,
    child: map<(N, bool), Option<N>>, parent: map<N, Option<N>>, elems: map<N, seq<N>>)
  {
    function C(n: N, d: bool): Option<N> { if (n, d) in child then child[(n, d)] else None }
    function P(n: N): Option<N> { if n in parent then parent[n] else None }
    function E(o: Option<N>): seq<N> { if o.Some? && o.value in elems then elems[o.value] else [] }

    function SetRoot(o: Option<N>): Shape<N> { this.(root := o) }
    function SetChild(n: N, d: bool, o: Option<N>): Shape<N> { this.(child := child[(n, d) := o]) }
    function SetParent(n: N, o: Option<N>): Shape<N> { this.(parent := parent[n := o]) }
    function Joined(n: N): Shape<N> {
      this.(nodes := nodes + {n}, child := child[(n, false) := None][(n, true) := None], parent := parent[n := None])
    }
    function SetElems(n: N, e: seq<N>): Shape<N> { this.(elems := elems[n := e]) }

    ghost predicate ChildAt(n: N, d: bool) {
      C(n, d).Some? ==> C(n, d).value in nodes && P(C(n, d).value) == Some(n) && C(n, !d) != C(n, d)
    }

    ghost predicate ParentAt(n: N) {
      if P(n).None? then root == Some(n)
      else P(n).value in nodes && (C(P(n).value, false) == Some(n) || C(P(n).value, true) == Some(n))
    }

    ghost predicate ElemsAt(n: N) {
      E(Some(n)) == E(C(n, false)) + [n] + E(C(n, true))
    }

    ghost predicate LinkedAt(n: N) {
      ChildAt(n, false) && ChildAt(n, true) && ParentAt(n) && ElemsAt(n)
    }

    ghost predicate Linked() {
      && (root.Some? ==> root.value in nodes && P(root.value) == None)
      && (forall n | n in nodes :: LinkedAt(n))
      && (forall n | n in nodes :: |E(Some(n))| <= |E(root)|)
    }

    function Rotate(cur: N, d: bool): Shape<N>
      requires C(cur, !d).Some?
    {
      var other := C(cur, !d).value;
      var inner := C(other, d);
      var above := P(cur);
      var s1 := SetChild(cur, !d, inner);
      var s2 := if inner.Some? then s1.SetParent(inner.value, Some(cur)) else s1;
      var s3 := s2.SetParent(other, above);
      var s4 := if above.None? then s3.SetRoot(Some(other))
                else s3.SetChild(above.value, if C(above.value, d) == Some(cur) then d else !d, Some(other));
      var s5 := s4.SetChild(other, d, Some(cur)).SetParent(cur, Some(other));
      var low := if d then E(inner) + [cur] + E(C(cur, true)) else E(C(cur, false)) + [cur] + E(inner);
      s5.SetElems(cur, low).SetElems(other, E(Some(cur)))
    }
  }

  lemma JoinedIs<N>(s: Shape<N>, n: N)
    ensures var t := s.Joined(n);
            && t.nodes == s.nodes + {n} && t.root == s.root && t.elems == s.elems
            && (forall m, e :: t.C(m, e) == if m == n then None else s.C(m, e))
            && (forall m :: t.P(m) == if m == n then None else s.P(m))
  {
  }

  lemma Shorter<N>(s: Shape<N>, n: N, d: bool)
    requires s.LinkedAt(n) && s.C(n, d).Some?
    ensures |s.E(s.C(n, d))| < |s.E(Some(n))|
    ensures s.C(n, d) != Some(n)
  {
    assert |s.E(Some(n))| == |s.E(s.C(n, false))| + 1 + |s.E(s.C(n, true))|;
  }

  ghost predicate Apart<N>(s: Shape<N>, cur: N, d: bool)
    requires s.C(cur, !d).Some?
  {
    var other := s.C(cur, !d).value; var inner := s.C(other, d);
    && other in s.nodes && other != cur && s.P(other) == Some(cur)
    && (inner.Some? ==>
         inner.value in s.nodes && inner.value != cur && inner.value != other && s.P(inner.value) == Some(other))
    && (s.P(cur).Some? ==>
        var p := s.P(cur).value;
        p in s.nodes && p != cur && p != other && s.P(cur) != inner
        && (s.C(p, d) == Some(cur) <==> s.C(p, !d) != Some(cur)))
  }

  /** The nodes a rotation touches are pairwise different. */
  lemma RotateApart<N>(s: Shape<N>, cur: N, d: bool)
    requires s.Linked() && cur in s.nodes && s.C(cur, !d).Some?
    ensures Apart(s, cur, d)
  {
    var other := s.C(cur, !d).value;
    var inner := s.C(other, d);
    assert s.LinkedAt(cur) && s.LinkedAt(other);
    Shorter(s, cur, !d);
    if inner.Some? { assert s.LinkedAt(inner.value); Shorter(s, other, d); }
    if s.P(cur).Some? {
      var p := s.P(cur).value;
      assert s.LinkedAt(p);
      Shorter(s, p, s.C(p, true) == Some(cur));
    }
  }

  lemma RotateC<N>(s: Shape<N>, cur: N, d: bool, m: N, e: bool)
    requires s.C(cur, !d).Some? && Apart(s, cur, d)
    ensures var other := s.C(cur, !d).value; var inner := s.C(other, d); var t := s.Rotate(cur, d);
            t.C(m, e) ==
                  if m == cur && e == !d then inner
                  else if m == other && e == d then Some(cur)
                  else if Some(m) == s.P(cur) && s.C(m, e) == Some(cur) then Some(other)
                  else s.C(m, e)
  {
  }
  lemma RotateP<N>(s: Shape<N>, cur: N, d: bool, m: N)
    requires s.C(cur, !d).Some? && Apart(s, cur, d)
    ensures var other := s.C(cur, !d).value; var inner := s.C(other, d); var t := s.Rotate(cur, d);
            t.P(m) ==
                  if m == cur then Some(other)
                  else if m == other then s.P(cur)
                  else if Some(m) == inner then Some(cur)
                  else s.P(m)
  {
  }

  lemma RotateE<N>(s: Shape<N>, cur: N, d: bool)
    requires s.C(cur, !d).Some? && Apart(s, cur, d)
    ensures var other := s.C(cur, !d).value; var inner := s.C(other, d); var t := s.Rotate(cur, d);
            && (forall m :: m != cur && m != other ==> t.E(Some(m)) == s.E(Some(m)))
            && t.E(Some(other)) == s.E(Some(cur))
            && t.E(Some(cur)) == (if d then s.E(inner) + [cur] + s.E(s.C(cur, true))
                 else s.E(s.C(cur, false)) + [cur] + s.E(inner))
            && t.nodes == s.nodes
            && t.root == (if s.P(cur).None? then Some(other) else s.root)
  {
  }

  lemma RotateChildAt<N>(s: Shape<N>, cur: N, d: bool, n: N, e: bool)
    requires s.Linked() && cur in s.nodes && s.C(cur, !d).Some? && n in s.nodes
    ensures s.Rotate(cur, d).ChildAt(n, e)
  {
    RotateApart(s, cur, d);
    hide Shape.Rotate, Shape.ParentAt, Shape.ElemsAt, Shape.C, Shape.P, Shape.E;
    RotateC(s, cur, d, n, e);
    RotateC(s, cur, d, n, !e);
    assert s.LinkedAt(n) && s.LinkedAt(cur) && s.LinkedAt(s.C(cur, !d).value);
    var t := s.Rotate(cur, d);
    RotateE(s, cur, d);
    if t.C(n, e).Some? { RotateP(s, cur, d, t.C(n, e).value); }
  }

  lemma RotateParentAt<N>(s: Shape<N>, cur: N, d: bool, n: N)
    requires s.Linked() && cur in s.nodes && s.C(cur, !d).Some? && n in s.nodes
    ensures s.Rotate(cur, d).ParentAt(n)
  {
    RotateApart(s, cur, d);
    hide Shape.Rotate, Shape.ElemsAt, Shape.C, Shape.P, Shape.E;
    assert s.LinkedAt(n) && s.LinkedAt(cur) && s.LinkedAt(s.C(cur, !d).value);
    RotateE(s, cur, d);
    RotateP(s, cur, d, n);
    var t := s.Rotate(cur, d);
    if t.P(n).Some? {
      RotateC(s, cur, d, t.P(n).value, false);
      RotateC(s, cur, d, t.P(n).value, true);
    }
  }

  lemma Assoc<N>(a: seq<N>, x: N, b: seq<N>, y: N, c: seq<N>)
    ensures a + [x] + (b + [y] + c) == (a + [x] + b) + [y] + c
  {
  }

  lemma RotateElemsAtOther<N>(s: Shape<N>, cur: N, d: bool)
    requires s.Linked() && cur in s.nodes && s.C(cur, !d).Some?
    ensures s.Rotate(cur, d).ElemsAt(s.C(cur, !d).value)
  {
    var other := s.C(cur, !d).value;
    RotateApart(s, cur, d);
    RotateE(s, cur, d);
    RotateC(s, cur, d, other, false);
    RotateC(s, cur, d, other, true);
    assert s.LinkedAt(cur) && s.LinkedAt(other);
    RotateThird(s, cur, d);
    hide Shape.Rotate, Shape.ParentAt, Shape.ChildAt, Shape.C, Shape.P, Shape.E;
    Assoc(s.E(s.C(cur, false)), cur, s.E(s.C(other, false)), other, s.E(s.C(other, true)));
    Assoc(s.E(s.C(other, false)), other, s.E(s.C(other, true)), cur, s.E(s.C(cur, true)));
  }

  /** The subtree that stays below the raised node keeps its elements. */
  lemma RotateThird<N>(s: Shape<N>, cur: N, d: bool)
    requires s.Linked() && cur in s.nodes && s.C(cur, !d).Some?
    ensures var other := s.C(cur, !d).value;
            s.Rotate(cur, d).E(s.C(other, !d)) == s.E(s.C(other, !d))
  {
    var other := s.C(cur, !d).value;
    RotateApart(s, cur, d);
    RotateE(s, cur, d);
    RotateNone(s, cur, d);
    assert s.LinkedAt(other) && s.LinkedAt(cur);
    if s.C(other, !d).Some? {
      Shorter(s, other, !d);
      NotChild(s, other, cur);
    }
    hide Shape.Rotate, Shape.ParentAt, Shape.ChildAt, Shape.ElemsAt, Shape.C, Shape.P, Shape.E;
  }

  lemma RotateElemsAtCur<N>(s: Shape<N>, cur: N, d: bool)
    requires s.Linked() && cur in s.nodes && s.C(cur, !d).Some?
    ensures s.Rotate(cur, d).ElemsAt(cur)
  {
    var other := s.C(cur, !d).value;
    RotateApart(s, cur, d);
    RotateE(s, cur, d);
    RotateC(s, cur, d, cur, false);
    RotateC(s, cur, d, cur, true);
    RotateNone(s, cur, d);
    assert s.LinkedAt(cur) && s.LinkedAt(other);
    if s.C(cur, d).Some? { Shorter(s, cur, d); }
    assert s.ChildAt(cur, d) && s.ChildAt(cur, !d);
    hide Shape.Rotate, Shape.ParentAt, Shape.C, Shape.P, Shape.E;
  }

  lemma RotateElemsAtElse<N>(s: Shape<N>, cur: N, d: bool, n: N)
    requires s.Linked() && cur in s.nodes && s.C(cur, !d).Some? && n in s.nodes && n != cur && n != s.C(cur, !d).value
    ensures s.Rotate(cur, d).ElemsAt(n)
  {
    var other := s.C(cur, !d).value;
    RotateApart(s, cur, d);
    RotateE(s, cur, d);
    RotateC(s, cur, d, n, false);
    RotateC(s, cur, d, n, true);
    RotateNone(s, cur, d);
    assert s.LinkedAt(n);
    NotChild(s, n, cur);
    NotChild(s, n, other);
    hide Shape.Rotate, Shape.ParentAt, Shape.ChildAt, Shape.C, Shape.P, Shape.E;
  }

  lemma RotateElemsAt<N>(s: Shape<N>, cur: N, d: bool, n: N)
    requires s.Linked() && cur in s.nodes && s.C(cur, !d).Some? && n in s.nodes
    ensures s.Rotate(cur, d).ElemsAt(n)
  {
    if n == cur { RotateElemsAtCur(s, cur, d); }
    else if n == s.C(cur, !d).value { RotateElemsAtOther(s, cur, d); }
    else { RotateElemsAtElse(s, cur, d, n); }
  }

  lemma RotateNone<N>(s: Shape<N>, cur: N, d: bool)
    requires s.C(cur, !d).Some?
    ensures s.E(None) == [] && s.Rotate(cur, d).E(None) == []
  {
  }

  /** A node's child has it as its parent. */
  lemma NotChild<N>(s: Shape<N>, n: N, c: N)
    requires s.LinkedAt(n)
    ensures forall e :: s.C(n, e) == Some(c) ==> s.P(c) == Some(n)
  {
    assert s.ChildAt(n, false) && s.ChildAt(n, true);
  }

  lemma RotateRoot<N>(s: Shape<N>, cur: N, d: bool)
    requires s.Linked() && cur in s.nodes && s.C(cur, !d).Some?
    ensures var t := s.Rotate(cur, d);
            && (t.root.Some? ==> t.root.value in t.nodes && t.P(t.root.value) == None)
            && t.E(t.root) == s.E(s.root)
  {
    RotateApart(s, cur, d);
    RotateE(s, cur, d);
    assert s.LinkedAt(cur) && s.LinkedAt(s.C(cur, !d).value);
    var t := s.Rotate(cur, d);
    hide Shape.Rotate, Shape.C, Shape.P, Shape.E;
    if t.root.Some? { RotateP(s, cur, d, t.root.value); }
  }

  lemma RotateBound<N>(s: Shape<N>, cur: N, d: bool, n: N)
    requires s.Linked() && cur in s.nodes && s.C(cur, !d).Some? && n in s.nodes
    ensures |s.Rotate(cur, d).E(Some(n))| <= |s.E(s.root)|
  {
    RotateApart(s, cur, d);
    RotateE(s, cur, d);
    if n == cur {
      RotateElemsAtOther(s, cur, d);
      RotateC(s, cur, d, s.C(cur, !d).value, d);
      hide Shape.Rotate, Shape.C, Shape.P, Shape.E;
    }
  }

  lemma RotateLinked<N>(s: Shape<N>, cur: N, d: bool)
    requires s.Linked() && cur in s.nodes && s.C(cur, !d).Some?
    ensures s.Rotate(cur, d).Linked()
    ensures s.Rotate(cur, d).E(s.Rotate(cur, d).root) == s.E(s.root)
  {
    hide Shape.Rotate, Shape.C, Shape.P, Shape.E;
    RotateApart(s, cur, d);
    RotateE(s, cur, d);
    RotateRoot(s, cur, d);
    var t := s.Rotate(cur, d);
    forall n | n in t.nodes ensures t.LinkedAt(n) {
      RotateChildAt(s, cur, d, n, false);
      RotateChildAt(s, cur, d, n, true);
      RotateParentAt(s, cur, d, n);
      RotateElemsAt(s, cur, d, n);
    }
    forall n | n in t.nodes ensures |t.E(Some(n))| <= |t.E(t.root)| {
      RotateBound(s, cur, d, n);
    }
  }

  lemma ChildParents<N>(s: Shape<N>, n: N)
    requires s.Linked() && n in s.nodes
    ensures forall e, m :: s.C(n, e) == Some(m) ==> s.P(m) == Some(n) && m != n
  {
    assert s.LinkedAt(n) && s.ChildAt(n, false) && s.ChildAt(n, true);
    if s.C(n, false).Some? { Shorter(s, n, false); }
    if s.C(n, true).Some? { Shorter(s, n, true); }
  }

  lemma RootOfNodes<N>(s: Shape<N>, n: N)
    requires s.Linked() && n in s.nodes
    ensures s.root.Some?
  {
    if s.root.None? { assert s.LinkedAt(n); assert |s.E(Some(n))| <= |s.E(s.root)|; }
  }
}
