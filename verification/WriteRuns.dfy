/** Any run of packets handed over and pending writes continued, on any number of sockets. */
module WriteRuns {
  import opened Common
  import opened Packets
  import opened PacketWriting

  datatype Call = Put(socket: int, buf0: seq<byte>, buffers: seq<seq<byte>>) | Continue(ready: set<int>)

  /** The packets of one socket that were not refused, whole, in the order they were handed over. */
  function Handed(calls: seq<Call>, rcs: seq<Code>, s: int): seq<seq<byte>>
    requires |rcs| <= |calls|
  {
    if rcs == [] then []
    else
      var n := |rcs| - 1;
      Handed(calls, rcs[..n], s)
      + if calls[n].Put? && calls[n].socket == s
          && rcs[n] != SOCKET_ERROR then [Concat([calls[n].buf0] + calls[n].buffers)] else []
  }

  lemma HandedMore(calls: seq<Call>, rcs: seq<Code>, rc: Code, s: int)
    requires |rcs| < |calls|
    ensures var call := calls[|rcs|];
            Handed(calls, rcs + [rc], s) ==
            if call.Put? && call.socket == s
                && rc != SOCKET_ERROR then Handed(calls, rcs, s) + [Concat([call.buf0] + call.buffers)]
            else Handed(calls, rcs, s)
  {
    assert (rcs + [rc])[..|rcs|] == rcs;
    assert Handed(calls, rcs, s) + [] == Handed(calls, rcs, s);
  }

  /** What became of the last packet of a socket that was not refused: COMPLETE if there was none. */
  function LastCode(calls: seq<Call>, rcs: seq<Code>, s: int): Code
    requires |rcs| <= |calls|
  {
    if rcs == [] then COMPLETE
    else
      var n := |rcs| - 1;
      if calls[n].Put? && calls[n].socket == s && rcs[n] != SOCKET_ERROR then rcs[n] else LastCode(calls, rcs[..n], s)
  }

  lemma LastMore(calls: seq<Call>, rcs: seq<Code>, rc: Code, s: int)
    requires |rcs| < |calls|
    ensures var call := calls[|rcs|];
            LastCode(calls, rcs + [rc], s) ==
            if call.Put? && call.socket == s && rc != SOCKET_ERROR then rc else LastCode(calls, rcs, s)
  {
    assert (rcs + [rc])[..|rcs|] == rcs;
  }

  /** Every packet refused so far came behind one that was not taken whole at first, or its socket has had an error. */
  ghost predicate Fair(calls: seq<Call>, rcs: seq<Code>, failed: set<int>)
    requires |rcs| <= |calls|
  {
    forall i | 0 <= i < |rcs| && calls[i].Put? && rcs[i] == SOCKET_ERROR ::
      calls[i].socket in failed || LastCode(calls, rcs[..i], calls[i].socket) == INTERRUPTED
  }

  lemma FairMore(calls: seq<Call>, rcs: seq<Code>, rc: Code, failed: set<int>, failed1: set<int>)
    requires |rcs| < |calls| && Fair(calls, rcs, failed) && failed <= failed1
    requires calls[|rcs|].Put? && rc == SOCKET_ERROR ==>
               calls[|rcs|].socket in failed1 || LastCode(calls, rcs, calls[|rcs|].socket) == INTERRUPTED
    ensures Fair(calls, rcs + [rc], failed1)
  {
    hide LastCode;
    var more := rcs + [rc];
    forall i | 0 <= i < |more| && calls[i].Put? && more[i] == SOCKET_ERROR
      ensures calls[i].socket in failed1 || LastCode(calls, more[..i], calls[i].socket) == INTERRUPTED
    {
      assert more[..i] == rcs[..i];
      if i == |rcs| { assert rcs[..i] == rcs; }
    }
  }

  /**
   * However the system cuts the writes short and whichever sockets are ready when, each socket without errors of the
   * system has taken a prefix of its packets one after another, and all of them unless a write is pending. A packet
   * is refused only while one before it is on its way, and one that is not refused is offered to the system at once.
   */
  method Serve(w: Writer, calls: seq<Call>) returns (rcs: seq<Code>)
    requires w.Valid() && w.Settled() && w.unsent == map[] && forall s | s in w.packets :: w.packets[s] == []
    requires forall call | call in calls && call.Put? :: call.socket in w.accepted && call.buf0 != []
    modifies w, w.Entries()
    ensures w.Valid() && w.Settled() && |rcs| == |calls| && w.accepted.Keys == old(w.accepted.Keys)
    ensures forall s | s in w.accepted && s !in w.Failed() ::
              && w.accepted[s] <= Concat(Handed(calls, rcs, s))
              && (s !in w.unsent ==> w.accepted[s] == Concat(Handed(calls, rcs, s)))
    ensures forall s | s in w.unsent :: LastCode(calls, rcs, s) == INTERRUPTED
    ensures Fair(calls, rcs, w.Failed())
    ensures forall s :: CountOf(w.attempts, s) >= CountOf(old(w.attempts), s) + |Handed(calls, rcs, s)|
  {
    hide Concat, Accounts, Fair, CountOf, AnsweredWith, FirstCode, TakenBy;
    rcs := [];
    AccountsKeys(w.accepted, w.packets, w.unsent, w.Failed());
    FairNone(calls, w.Failed());
    for i := 0 to |calls|
      invariant |rcs| == i && w.Valid() && w.Settled() && w.accepted.Keys == old(w.accepted.Keys)
      invariant w.packets.Keys == w.accepted.Keys
      invariant fresh(w.Entries() - old(w.Entries()))
      invariant forall s | s in w.packets :: w.packets[s] == Handed(calls, rcs, s)
      invariant forall s | s in w.unsent :: LastCode(calls, rcs, s) == INTERRUPTED
      invariant Fair(calls, rcs, w.Failed())
      invariant forall s :: CountOf(w.attempts, s) >= CountOf(old(w.attempts), s) + |Handed(calls, rcs, s)|
    {
      rcs := Make(w, calls, rcs, old(w.attempts));
    }
    forall s | s in w.accepted && s !in w.Failed()
      ensures w.accepted[s] <= Concat(Handed(calls, rcs, s))
      ensures s !in w.unsent ==> w.accepted[s] == Concat(Handed(calls, rcs, s))
    {
      w.AcceptedInOrder(s);
    }
  }

  lemma FairNone(calls: seq<Call>, failed: set<int>)
    ensures Fair(calls, [], failed)
  {
  }

  /** The next call. */
  method Make(w: Writer, calls: seq<Call>, rcs: seq<Code>, ghost asked: seq<int>) returns (rcs1: seq<Code>)
    requires |rcs| < |calls| && w.Valid() && w.Settled() && w.packets.Keys == w.accepted.Keys
    requires forall call | call in calls && call.Put? :: call.socket in w.accepted && call.buf0 != []
    requires forall s | s in w.packets :: w.packets[s] == Handed(calls, rcs, s)
    requires forall s | s in w.unsent :: LastCode(calls, rcs, s) == INTERRUPTED
    requires Fair(calls, rcs, w.Failed())
    requires forall s :: CountOf(w.attempts, s) >= CountOf(asked, s) + |Handed(calls, rcs, s)|
    modifies w, w.Entries()
    ensures |rcs1| == |rcs| + 1 && w.Valid() && w.Settled() && w.accepted.Keys == old(w.accepted.Keys)
    ensures w.packets.Keys == w.accepted.Keys && fresh(w.Entries() - old(w.Entries()))
    ensures forall s | s in w.packets :: w.packets[s] == Handed(calls, rcs1, s)
    ensures forall s | s in w.unsent :: LastCode(calls, rcs1, s) == INTERRUPTED
    ensures Fair(calls, rcs1, w.Failed())
    ensures forall s :: CountOf(w.attempts, s) >= CountOf(asked, s) + |Handed(calls, rcs1, s)|
  {
    hide Concat, Accounts, Fair, CountOf, AnsweredWith, FirstCode, TakenBy;
    ghost var was, failed, unsent := w.attempts, w.Failed(), w.unsent;
    var rc;
    match calls[|rcs|] {
      case Put(socket, buf0, buffers) =>
        assert calls[|rcs|] in calls;
        rc := w.Putdatas(socket, buf0, buffers);
      case Continue(ready) =>
        var errors;
        rc, errors := w.ContinueWrites(ready);
    }
    rcs1 := rcs + [rc];
    AccountsKeys(w.accepted, w.packets, w.unsent, w.Failed());
    FairMore(calls, rcs, rc, failed, w.Failed());
    CountGrows(was, w.attempts);
    forall s ensures s in w.packets ==> w.packets[s] == Handed(calls, rcs1, s) { HandedMore(calls, rcs, rc, s); }
    forall s | s in w.unsent ensures LastCode(calls, rcs1, s) == INTERRUPTED { LastMore(calls, rcs, rc, s); }
    forall s ensures CountOf(w.attempts, s) >= CountOf(asked, s) + |Handed(calls, rcs1, s)| {
      HandedMore(calls, rcs, rc, s);
    }
  }

  lemma CountGrows(a: seq<int>, b: seq<int>)
    requires a <= b
    ensures forall s :: CountOf(a, s) <= CountOf(b, s)
    ensures |b| == |a| + 1 ==> CountOf(b, b[|a|]) == CountOf(a, b[|a|]) + 1
  {
    assert b == a + b[|a|..];
    if |b| == |a| + 1 { assert b == a + [b[|a|]]; }
  }
}
