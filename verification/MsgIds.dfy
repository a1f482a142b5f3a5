// Choosing the message id of a new outbound message (section 2.3.1 of MQTT 3.1.1).

module MsgIds {
  import opened Persistence

  /** The id after this one, counting 1, 2, ..., 65535, 1, ... */
  function Next(id: int): int { if id == MAX_MSG_ID then 1 else id + 1 }

  /** The n-th id after this one. */
  function Nth(id: int, n: nat): int
    decreases n
  {
    if n == 0 then id else Next(Nth(id, n - 1))
  }

  lemma {:induction false} NthIs(id: int, n: nat)
    requires 0 <= id <= MAX_MSG_ID && 1 <= n <= MAX_MSG_ID
    ensures Nth(id, n) == if id + n <= MAX_MSG_ID then id + n else id + n - MAX_MSG_ID
    ensures MsgId(Nth(id, n))
  {
    if n > 1 { NthIs(id, n - 1); }
  }

  /** Going round once meets every other id exactly once and then comes back. */
  lemma NthReaches(id: int, x: int) returns (n: nat)
    requires MsgId(id) && MsgId(x) && x != id
    ensures 1 <= n < MAX_MSG_ID && Nth(id, n) == x
  {
    n := if x > id then x - id else x - id + MAX_MSG_ID;
    NthIs(id, n);
  }

  /** The id chosen: the first one after `last` that is not in use; 0 when a whole round finds none. */
  ghost predicate NextFree(used: set<int>, last: int, id: int) {
    if id == 0 then forall x | MsgId(x) && x != last :: x in used
    else
      exists n: nat ::
        && 1 <= n <= MAX_MSG_ID && id == Nth(last, n) && id != last && id !in used
        && forall k | 1 <= k < n :: Nth(last, k) in used
  }

  function IdSet(list: seq<OutMsg>): set<int> {
    set i | 0 <= i < |list| :: list[i].id
  }

  ghost predicate Chosen(list: seq<OutMsg>, last: int, id: int) {
    NextFree(IdSet(list), last, id)
  }

  /** The search ends: it started from an id, or some id is free. */
  ghost predicate SearchEnds(list: seq<OutMsg>, last: int) {
    MsgId(last) || exists x :: MsgId(x) && !HasId(list, x)
  }

  // ----- how many entries it takes to use up the ids -----

  function Range(n: nat): (r: set<int>)
    ensures forall x :: x in r <==> 1 <= x <= n
    ensures |r| == n
  {
    if n == 0 then {} else Range(n - 1) + {n}
  }

  lemma {:induction false} IdSetSize(list: seq<OutMsg>)
    ensures |IdSet(list)| <= |list|
  {
    if list == [] {
      assert IdSet(list) == {};
    } else {
      var rest, last := list[..|list| - 1], list[|list| - 1];
      IdSetSize(rest);
      assert list == rest + [last];
      assert IdSet(list) == IdSet(rest) + {last.id} by {
        forall x | x in IdSet(list) ensures x in IdSet(rest) + {last.id} {
          var i :| 0 <= i < |list| && list[i].id == x;
          if i < |rest| { assert rest[i].id == x; }
        }
        forall x | x in IdSet(rest) + {last.id} ensures x in IdSet(list) {
          if x in IdSet(rest) {
            var i :| 0 <= i < |rest| && rest[i].id == x;
            assert list[i].id == x;
          } else {
            assert list[|list| - 1].id == x;
          }
        }
      }
    }
  }

  lemma SubsetSize(a: set<int>, b: set<int>)
    requires a <= b
    ensures |a| <= |b|
  {
    assert |b| == |a| + |b - a| by { assert b == a + (b - a); }
  }

  /** With fewer than 65534 messages outstanding there is always an id to give out. */
  lemma FewOutstanding(list: seq<OutMsg>, last: int, id: int)
    requires 0 <= last <= MAX_MSG_ID && |list| < MAX_MSG_ID - 1 && Chosen(list, last, id)
    ensures id != 0
  {
    if id == 0 {
      forall x | x in Range(MAX_MSG_ID) ensures x in IdSet(list) + {last} {
        assert x != last ==> x in IdSet(list);
      }
      IdSetSize(list);
      SubsetSize(Range(MAX_MSG_ID), IdSet(list) + {last});
    }
  }

  /** There is no id exactly when every id but the last one given out is taken; that one is never tried. */
  lemma NoneLeftIff(list: seq<OutMsg>, last: int, id: int)
    requires MsgId(last) && Chosen(list, last, id)
    ensures id == 0 <==> forall x | MsgId(x) && x != last :: HasId(list, x)
  {
    if id != 0 && forall x | MsgId(x) && x != last :: HasId(list, x) {
      var n: nat :| 1 <= n <= MAX_MSG_ID && id == Nth(last, n) && id !in IdSet(list);
      NthIs(last, n);
    }
  }

  lemma {:induction false} NthStaysId(id: int, n: nat)
    requires 0 <= id <= MAX_MSG_ID && n >= 1
    ensures MsgId(Nth(id, n))
  {
    if n > 1 { NthStaysId(id, n - 1); }
  }

  /** The search loop leaves when it meets a free id or, from the second id on, the id it started from. */
  ghost predicate LoopLeavesAt(list: seq<OutMsg>, last: int, n: nat) {
    n >= 1 && (!HasId(list, Nth(last, n)) || (n >= 2 && Nth(last, n) == last))
  }

  /** A client that has not given out an id yet (last is 0) and has all 65535 in use would search for ever. */
  lemma SearchEndsIff(list: seq<OutMsg>, last: int)
    requires 0 <= last <= MAX_MSG_ID
    ensures SearchEnds(list, last) <==> exists n :: LoopLeavesAt(list, last, n)
  {
    if MsgId(last) {
      NthIs(last, MAX_MSG_ID);
      assert LoopLeavesAt(list, last, MAX_MSG_ID);
    } else if SearchEnds(list, last) {
      var x :| MsgId(x) && !HasId(list, x);
      NthIs(0, x);
      assert LoopLeavesAt(list, last, x);
    } else {
      forall n ensures !LoopLeavesAt(list, last, n) {
        if n >= 1 { NthStaysId(last, n); }
      }
    }
  }
}
