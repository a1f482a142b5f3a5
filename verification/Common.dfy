/** Types that modules of several parts share. */
module Common {
  datatype Option<+T> = None | Some(value: T)

  /** Completion codes of socket operations. */
  datatype Code = COMPLETE | INTERRUPTED | SOCKET_ERROR

  /** The sockets of those calls of the system, among the ones made so far, that it answered with r. */
  ghost function AnsweredWith<R>(replies: nat -> R, r: R, calls: seq<int>): set<int> {
    set i | 0 <= i < |calls| && replies(i) == r :: calls[i]
  }

  lemma AnsweredMore<R>(replies: nat -> R, r: R, calls: seq<int>, s: int)
    ensures AnsweredWith(replies, r, calls + [s]) ==
            AnsweredWith(replies, r, calls) + if replies(|calls|) == r then {s} else {}
  {
    var more := calls + [s];
    assert more[|calls|] == s;
    forall t | t in AnsweredWith(replies, r, calls) ensures t in AnsweredWith(replies, r, more) {
      var i :| 0 <= i < |calls| && replies(i) == r && calls[i] == t;
      assert more[i] == t;
    }
  }

  /** How often a socket occurs in a list. */
  function CountOf(l: seq<int>, s: int): nat { multiset(l)[s] }

  lemma CountMore(l: seq<int>, i: nat)
    requires i < |l|
    ensures forall s :: CountOf(l[..i + 1], s) == CountOf(l[..i], s) + if s == l[i] then 1 else 0
  {
    assert l[..i + 1] == l[..i] + [l[i]];
  }
}
