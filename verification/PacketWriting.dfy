/** Writing packets to non-blocking sockets, and resuming writes that stopped part way (Socket.c). */
module PacketWriting {
  import opened Common
  import opened Packets

  function Concat(v: seq<seq<byte>>): seq<byte> {
    if v == [] then [] else v[0] + Concat(v[1..])
  }

  lemma {:induction false} ConcatAppend(v: seq<seq<byte>>, b: seq<byte>)
    ensures Concat(v + [b]) == Concat(v) + b
  {
    if v == [] {
      assert (v + [b])[1..] == [];
      assert Concat([]) == [];
    } else {
      assert (v + [b])[1..] == v[1..] + [b];
      ConcatAppend(v[1..], b);
    }
  }

  lemma NothingTaken(v: seq<seq<byte>>)
    ensures Concat(v[..0]) == [] && Concat([]) == []
  {
  }

  lemma ConcatTake(v: seq<seq<byte>>, i: nat)
    requires i < |v|
    ensures Concat(v[..i + 1]) == Concat(v[..i]) + v[i]
  {
    assert v[..i + 1] == v[..i] + [v[i]];
    ConcatAppend(v[..i], v[i]);
  }

  /** How much of the vector the system took, or that it took nothing for now, or an error. */
  datatype Written = Took(bytes: nat) | Again | Error

  /** How the system answers one writev: it takes up to so many bytes, nothing for now, or reports an error. */
  datatype Reply = Accept(most: nat) | Refuse | Fail

  function Answer(reply: Reply, total: nat): Written {
    match reply
    case Accept(most) => Took(if most < total then most else total)
    case Refuse => Again
    case Fail => Error
  }

  /** How many of the bytes offered the system takes. */
  function TakenBy(reply: Reply, total: nat): (n: nat)
    ensures n <= total
  {
    if reply.Accept? && reply.most < total then reply.most else if reply.Accept? then total else 0
  }

  /** What the first write of a packet comes back with. */
  function FirstCode(reply: Reply, total: nat): Code {
    match Answer(reply, total)
    case Took(bytes) => if bytes == total then COMPLETE else INTERRUPTED
    case Again => INTERRUPTED
    case Error => SOCKET_ERROR
  }

  class PendingWrite {
    const socket: int
    const iovecs: seq<seq<byte>>
    const total: nat
    var bytes: nat

    constructor (socket: int, iovecs: seq<seq<byte>>, total: nat, bytes: nat)
      ensures this.socket == socket && this.iovecs == iovecs && this.total == total && this.bytes == bytes
    {
      this.socket, this.iovecs, this.total, this.bytes := socket, iovecs, total, bytes;
    }

    /** The bytes still to be written. */
    ghost function Unsent(): seq<byte>
      reads this
    {
      if bytes <= |Concat(iovecs)| then Concat(iovecs)[bytes..] else []
    }

    ghost predicate Sound()
      reads this
    {
      total == |Concat(iovecs)| && bytes <= total
    }
  }

  /** The vector of Socket_continueWrite: the part of the buffers behind the bytes already written. */
  method Rebuild(pw: PendingWrite) returns (iovecs1: seq<seq<byte>>)
    requires pw.Sound()
    ensures Concat(iovecs1) == pw.Unsent()
  {
    NothingTaken(pw.iovecs);
    hide Concat;
    iovecs1 := [];
    var curbuflen := 0;
    for i := 0 to |pw.iovecs|
      invariant curbuflen == |Concat(pw.iovecs[..i])|
      invariant Concat(iovecs1) == if pw.bytes <= curbuflen then Concat(pw.iovecs[..i])[pw.bytes..] else []
    {
      ConcatTake(pw.iovecs, i);
      var len := |pw.iovecs[i]|;
      if pw.bytes <= curbuflen {
        ConcatAppend(iovecs1, pw.iovecs[i]);
        iovecs1 := iovecs1 + [pw.iovecs[i]];
      } else if pw.bytes < curbuflen + len {
        var offset := pw.bytes - curbuflen;
        ConcatAppend(iovecs1, pw.iovecs[i][offset..]);
        iovecs1 := iovecs1 + [pw.iovecs[i][offset..]];
      }
      curbuflen := curbuflen + len;
    }
    assert pw.iovecs[..|pw.iovecs|] == pw.iovecs;
  }

  /** The list names each socket of the set once. */
  ghost predicate Named(l: seq<int>, names: set<int>) {
    && (forall i, j | 0 <= i < j < |l| :: l[i] != l[j])
    && (forall s :: s in names <==> s in l)
  }

  lemma NamedAppend(l: seq<int>, names: set<int>, s: int)
    requires Named(l, names) && s !in names
    ensures Named(l + [s], names + {s})
  {
  }

  lemma NamedRemove(l: seq<int>, names: set<int>, i: nat)
    requires Named(l, names) && i < |l|
    ensures Named(l[..i] + l[i + 1..], names - {l[i]})
  {
    var rest := l[..i] + l[i + 1..];
    assert forall j | 0 <= j < |rest| :: rest[j] == l[if j < i then j else j + 1];
    forall s | s in l && s != l[i] ensures s in rest {
      var j :| 0 <= j < |l| && l[j] == s;
      assert rest[if j < i then j else j - 1] == s;
    }
  }

  lemma NamedOnce(l: seq<int>, names: set<int>, i: nat)
    requires Named(l, names) && i < |l|
    ensures l[i] in names && forall j | 0 <= j < |l| && j != i :: l[j] != l[i]
  {
  }

  ghost function LeftOf(unsent: map<int, seq<byte>>, s: int): seq<byte> {
    if s in unsent then unsent[s] else []
  }

  /** What a socket has taken, and what is left, are its packets one after another. */
  ghost predicate Accounts(accepted: map<int, seq<byte>>, packets: map<int, seq<seq<byte>>>,
      unsent: map<int, seq<byte>>, failed: set<int>) {
    && accepted.Keys == packets.Keys && unsent.Keys <= accepted.Keys
    && forall s | s in accepted && s !in failed :: accepted[s] + LeftOf(unsent, s) == Concat(packets[s])
  }

  /** A packet goes to a socket with nothing pending: n bytes of it are taken and the rest is left. */
  lemma AccountsPut(accepted: map<int, seq<byte>>, packets: map<int, seq<seq<byte>>>, unsent: map<int, seq<byte>>,
      failed: set<int>, s: int, whole: seq<byte>, n: nat)
    requires Accounts(accepted, packets, unsent, failed) && s in accepted && s !in unsent && n <= |whole|
    ensures var accepted1, packets1 := accepted[s := accepted[s] + whole[..n]], packets[s := packets[s] + [whole]];
            && Accounts(accepted1, packets1, unsent[s := whole[n..]], failed)
            && (n == |whole| ==> Accounts(accepted1, packets1, unsent, failed))
  {
    hide Concat;
    ConcatAppend(packets[s], whole);
    assert accepted[s] + [] == accepted[s];
    assert (accepted[s] + whole[..n]) + whole[n..] == accepted[s] + whole;
  }

  /** A socket takes n more bytes of what is left. */
  lemma AccountsMore(accepted: map<int, seq<byte>>, packets: map<int, seq<seq<byte>>>, unsent: map<int, seq<byte>>,
      failed: set<int>, s: int, n: nat)
    requires Accounts(accepted, packets, unsent, failed) && s in accepted && s in unsent && n <= |unsent[s]|
    ensures Accounts(accepted[s := accepted[s] + unsent[s][..n]], packets, unsent[s := unsent[s][n..]], failed)
  {
    hide Concat;
    assert (accepted[s] + unsent[s][..n]) + unsent[s][n..] == accepted[s] + unsent[s];
  }

  /** The ready sockets among the first n of the list have been written to. */
  ghost predicate Asked(l: seq<int>, ready: set<int>, attempts: seq<int>, n: nat) {
    forall j | 0 <= j < n && j < |l| && l[j] in ready :: l[j] in attempts
  }

  /** The first ready socket of the list, if there is one, has been written to. */
  ghost predicate FirstAsked(l: seq<int>, ready: set<int>, attempts: seq<int>) {
    forall j | 0 <= j < |l| && l[j] in ready :: l[j] in attempts || exists k | 0 <= k < j :: l[k] in ready
  }

  lemma NoneAsked(l: seq<int>, ready: set<int>)
    ensures Asked(l, ready, [], 0)
  {
  }

  lemma AskedIdle(l: seq<int>, ready: set<int>, attempts: seq<int>, i: nat)
    ensures i < |l| && l[i] !in ready && Asked(l, ready, attempts, i) ==> Asked(l, ready, attempts, i + 1)
  {
  }

  lemma AskedMeans(l: seq<int>, ready: set<int>, attempts: seq<int>, n: nat)
    ensures Asked(l, ready, attempts, n) && n >= |l| ==> forall j | 0 <= j < |l| && l[j] in ready :: l[j] in attempts
    ensures FirstAsked(l, ready, attempts) ==>
              forall j | 0 <= j < |l| && l[j] in ready :: l[j] in attempts || exists k | 0 <= k < j :: l[k] in ready
  {
  }

  lemma AskedMore(l: seq<int>, ready: set<int>, attempts: seq<int>, i: nat, socket: int)
    ensures FirstAsked(l, ready, attempts) ==> FirstAsked(l, ready, attempts + [socket])
    ensures i < |l| && l[i] == socket && socket in ready && Asked(l, ready, attempts, i) ==>
              Asked(l, ready, attempts + [socket], i + 1) && FirstAsked(l, ready, attempts + [socket])
  {
  }

  class Writer {
    var writes: seq<PendingWrite>
    var writePending: seq<int>
    /** The socket whose element of writePending is the list's current one, or None. */
    var remembered: Option<int>
    /** What each socket's system buffer has taken. */
    var accepted: map<int, seq<byte>>
    /** What the system will do, call by call, and the sockets of the calls so far. */
    const replies: nat -> Reply
    var attempts: seq<int>
    /** The packets handed to each socket, and what is left of the last of them. */
    ghost var packets: map<int, seq<seq<byte>>>
    ghost var unsent: map<int, seq<byte>>

    /** The sockets for which the system has reported an error. */
    ghost function Failed(): set<int>
      reads this`attempts
    {
      AnsweredWith(replies, Fail, attempts)
    }

    ghost predicate EntryAt(i: nat)
      requires i < |writes| && i < |writePending|
      reads this`writes, this`writePending, this`unsent, writes[i]
    {
      writes[i].socket == writePending[i] && writePending[i] in unsent && writes[i].Sound()
          && unsent[writePending[i]] == writes[i].Unsent()
    }

    /** The two lists run in step, with one entry a socket. */
    ghost predicate Listed()
      reads this`writes, this`writePending, this`unsent, writes
    {
      |writes| == |writePending| && Named(writePending, unsent.Keys) && forall i | 0 <= i < |writes| :: EntryAt(i)
    }

    ghost function Left(s: int): seq<byte>
      reads this`unsent
    {
      LeftOf(unsent, s)
    }

    ghost function Entries(): set<PendingWrite>
      reads this`writes
    {
      set pw | pw in writes
    }

    ghost predicate Books()
      reads this
    {
      Accounts(accepted, packets, unsent, Failed())
    }

    ghost predicate Valid()
      reads this, writes
    {
      Listed() && Books()
    }

    /**
     * After any run: a socket without errors has taken a prefix of its packets in order, all of them unless a write is
     * pending.
     */
    lemma AcceptedInOrder(s: int)
      requires Valid() && s in accepted && s !in Failed()
      ensures s in packets && accepted[s] <= Concat(packets[s])
      ensures s !in unsent ==> accepted[s] == Concat(packets[s])
    {
      assert accepted[s] + Left(s) == Concat(packets[s]);
    }

    /** Between calls no pending write is finished. */
    ghost predicate Settled()
      reads this
    {
      forall s | s in unsent :: unsent[s] != []
    }

    constructor (sockets: set<int>, replies: nat -> Reply)
      ensures Valid() && Settled() && accepted.Keys == sockets && unsent == map[]
      ensures this.replies == replies && attempts == []
      ensures forall s | s in sockets :: packets[s] == []
    {
      writes, writePending, remembered, attempts := [], [], None, [];
      accepted := map s | s in sockets :: [];
      packets := map s | s in sockets :: [];
      unsent, this.replies := map[], replies;
    }

    /** writev: the system takes any part of the vector from its front. */
    method Writev(socket: int, iovecs: seq<seq<byte>>) returns (r: Written)
      requires socket in accepted
      modifies this`accepted, this`attempts
      ensures attempts == old(attempts) + [socket]
      ensures r == Answer(replies(|old(attempts)|), |Concat(iovecs)|)
      ensures Failed() == if r.Error? then old(Failed()) + {socket} else old(Failed())
      ensures r.Took? ==>
                && r.bytes <= |Concat(iovecs)|
                && accepted == old(accepted)[socket := old(accepted)[socket] + Concat(iovecs)[..r.bytes]]
      ensures !r.Took? ==> accepted == old(accepted)
    {
      AnsweredMore(replies, Fail, attempts, socket);
      var all := Concat(iovecs);
      r := Answer(replies(|attempts|), |all|);
      if r.Took? { accepted := accepted[socket := accepted[socket] + all[..r.bytes]]; }
      attempts := attempts + [socket];
    }

    /** The socket's place in the list of pending writes, if it has one. */
    method Find(socket: int) returns (i: nat)
      requires Listed()
      ensures
        && i <= |writePending| && (i < |writePending| <==> socket in unsent)
        && (i < |writePending| ==> writePending[i] == socket)
    {
      i := 0;
      while i < |writePending| && writePending[i] != socket
        invariant i <= |writePending| && socket !in writePending[..i]
      {
        i := i + 1;
      }
    }

    /** Socket_noPendingWrites: a socket that is found becomes the list's current element. */
    method NoPendingWrites(socket: int) returns (free: bool)
      requires Listed()
      modifies this`remembered
      ensures free <==> socket !in unsent
      ensures remembered == if free then old(remembered) else Some(socket)
    {
      var i := Find(socket);
      free := i == |writePending|;
      if !free { remembered := Some(socket); }
    }

    /** Socket_putdatas: a packet is written whole, or what is left of it is kept until the socket takes more. */
    method Putdatas(socket: int, buf0: seq<byte>, buffers: seq<seq<byte>>) returns (rc: Code)
      requires Valid() && Settled() && socket in accepted && buf0 != []
      modifies this
      ensures Valid() && Settled() && accepted.Keys == old(accepted.Keys)
      ensures socket in old(unsent) ==>
                && rc == SOCKET_ERROR
                && accepted == old(accepted)
                && unsent == old(unsent)
                && packets == old(packets)
                && attempts == old(attempts)
      ensures socket !in old(unsent) && rc != SOCKET_ERROR ==>
                && packets == old(packets)[socket := old(packets)[socket] + [Concat([buf0] + buffers)]]
                && Failed() == old(Failed())
      ensures socket !in old(unsent) ==> (rc == INTERRUPTED <==> socket in unsent)
      ensures socket !in old(unsent) ==>
                && attempts == old(attempts) + [socket]
                && rc == FirstCode(replies(|old(attempts)|), |Concat([buf0] + buffers)|)
                && accepted[socket] == old(accepted)[socket] + Concat([buf0] + buffers)
                     [..TakenBy(replies(|old(attempts)|), |Concat([buf0] + buffers)|)]
      ensures fresh(Entries() - old(Entries()))
      ensures Failed() ==
              if socket !in old(unsent) && rc == SOCKET_ERROR then old(Failed()) + {socket} else old(Failed())
      ensures socket !in old(unsent) && rc == SOCKET_ERROR ==>
                && accepted == old(accepted)
                && unsent == old(unsent)
                && Failed() == old(Failed()) + {socket}
                && packets == old(packets)
      ensures forall s | s in accepted && s != socket :: accepted[s] == old(accepted)[s] && Left(s) == old(Left(s))
    {
      hide Concat, Accounts, AnsweredWith;
      var free := NoPendingWrites(socket);
      if !free { return SOCKET_ERROR; }
      var iovecs := [buf0] + buffers;
      var total := Total(iovecs);
      FirstBytes(buf0, buffers);
      rc := Begin(socket, iovecs, total);
    }

    /** The first write of a packet, on a socket with nothing pending. */
    method Begin(socket: int, iovecs: seq<seq<byte>>, total: nat) returns (rc: Code)
      requires Valid() && Settled() && socket in accepted && socket !in unsent && total == |Concat(iovecs)| > 0
      modifies this
      ensures Valid() && Settled() && accepted.Keys == old(accepted.Keys)
      ensures rc != SOCKET_ERROR ==>
                packets == old(packets)[socket := old(packets)[socket] + [Concat(iovecs)]] && Failed() == old(Failed())
      ensures attempts == old(attempts) + [socket] && rc == FirstCode(replies(|old(attempts)|), total)
      ensures accepted[socket] == old(accepted)[socket] + Concat(iovecs)[..TakenBy(replies(|old(attempts)|), total)]
      ensures rc == INTERRUPTED <==> socket in unsent
      ensures fresh(Entries() - old(Entries()))
      ensures rc == SOCKET_ERROR ==>
                && accepted == old(accepted)
                && unsent == old(unsent)
                && Failed() == old(Failed()) + {socket}
                && packets == old(packets)
      ensures forall s | s in accepted && s != socket :: accepted[s] == old(accepted)[s] && Left(s) == old(Left(s))
    {
      hide Concat, Accounts, AnsweredWith;
      ghost var whole, a, k, u := Concat(iovecs), accepted, packets, unsent;
      AccountsKeys(a, k, u, Failed());
      AccountsFail(a, k, u, Failed(), socket);
      var r := Writev(socket, iovecs);
      assert accepted[socket] + [] == accepted[socket];
      if r.Error? { return SOCKET_ERROR; }
      var bytes := if r.Took? then r.bytes else 0;
      AccountsPut(a, k, u, Failed(), socket, whole, bytes);
      assert accepted == a[socket := a[socket] + whole[..bytes]]
          by { if !r.Took? { assert a[socket] + [] == a[socket]; } }
      packets := packets[socket := packets[socket] + [whole]];
      if bytes == total {
        rc := COMPLETE;
      } else {
        Pend(socket, iovecs, total, bytes);
        rc := INTERRUPTED;
      }
    }

    /** SocketBuffer_pendingWrite and the list of sockets with pending output. */
    method Pend(socket: int, iovecs: seq<seq<byte>>, total: nat, bytes: nat)
      requires Listed() && socket !in unsent && total == |Concat(iovecs)| && bytes < total
      modifies this`writes, this`writePending, this`unsent
      ensures Listed() && unsent == old(unsent)[socket := Concat(iovecs)[bytes..]]
      ensures fresh(Entries() - old(Entries()))
    {
      hide Concat;
      var pw := new PendingWrite(socket, iovecs, total, bytes);
      ghost var u, n := unsent, |writes|;
      NamedAppend(writePending, unsent.Keys, socket);
      writes, writePending := writes + [pw], writePending + [socket];
      unsent := unsent[socket := Concat(iovecs)[bytes..]];
      assert unsent.Keys == u.Keys + {socket};
      forall j | 0 <= j < |writes| ensures EntryAt(j) {
        if j < n { assert old(EntryAt(j)); }
      }
    }

    /** Socket_continueWrite: 1 when the packet is finished, 0 when not, -1 for an error. */
    method ContinueWrite(i: nat) returns (rc: int)
      requires Valid() && i < |writes|
      modifies this`accepted, this`unsent, this`attempts, writes[i]
      ensures rc == -1 || rc == 0 || rc == 1
      ensures attempts == old(attempts) + [writePending[i]]
      ensures Failed() == if rc == -1 then old(Failed()) + {writePending[i]} else old(Failed())
      ensures rc == -1 <==> replies(|old(attempts)|).Fail?
      ensures writePending[i] in old(unsent)
      ensures var s := writePending[i]; var rest := old(unsent)[s];
              var n := TakenBy(replies(|old(attempts)|), |rest|);
              s in accepted && accepted[s] == old(accepted)[s] + rest[..n] && unsent == old(unsent)[s := rest[n..]]
      ensures Valid() && accepted.Keys == old(accepted.Keys) && unsent.Keys == old(unsent.Keys)
      ensures rc == -1 ==> accepted == old(accepted) && unsent == old(unsent)
      ensures writePending[i] in unsent && (rc == 1 <==> rc != -1 && unsent[writePending[i]] == [])
      ensures forall s | s in accepted
                && s != writePending[i] :: accepted[s] == old(accepted)[s] && Left(s) == old(Left(s))
    {
      hide Concat, Accounts, AnsweredWith;
      var pw := writes[i];
      ghost var s, a, k, u := writePending[i], accepted, packets, unsent;
      assert EntryAt(i);
      AccountsKeys(a, k, u, Failed());
      AccountsFail(a, k, u, Failed(), s);
      var iovecs1 := Rebuild(pw);
      var r := Writev(pw.socket, iovecs1);
      assert accepted[s] + [] == accepted[s] && u[s][0..] == u[s];
      if r.Error? { return -1; }
      var bytes := if r.Took? then r.bytes else 0;
      AccountsMore(a, k, u, Failed(), s, bytes);
      assert accepted == a[s := a[s] + u[s][..bytes]] by { if !r.Took? { assert a[s] + [] == a[s]; } }
      Advance(i, bytes);
      rc := if pw.bytes == pw.total then 1 else 0;
    }

    method Advance(i: nat, bytes: nat)
      requires Listed() && i < |writes| && EntryAt(i) && bytes <= |unsent[writePending[i]]|
      modifies this`unsent, writes[i]
      ensures Listed() && unsent == old(unsent)[writePending[i] := old(unsent)[writePending[i]][bytes..]]
      ensures writePending[i] in unsent && (writes[i].bytes == writes[i].total <==> unsent[writePending[i]] == [])
    {
      hide Concat;
      var pw := writes[i];
      NamedOnce(writePending, unsent.Keys, i);
      assert forall j | 0 <= j < |writes| && j != i :: writes[j] != pw && writes[j].socket == writePending[j] by {
        forall j | 0 <= j < |writes| && j != i ensures writes[j] != pw
            && writes[j].socket == writePending[j] { assert EntryAt(j); }
      }
      ghost var u := unsent;
      pw.bytes := pw.bytes + bytes;
      unsent := unsent[writePending[i] := unsent[writePending[i]][bytes..]];
      assert unsent.Keys == u.Keys;
      assert EntryAt(i);
      forall j | 0 <= j < |writes| ensures EntryAt(j) {
        if j != i { assert old(EntryAt(j)); }
      }
    }

    /** The entries of both lists for a socket go. */
    method Remove(i: nat)
      requires Listed() && i < |writes|
      modifies this`writes, this`writePending, this`unsent
      ensures Listed() && unsent == old(unsent) - {old(writePending)[i]}
      ensures
        && writes == old(writes)[..i] + old(writes)[i + 1..]
        && writePending == old(writePending)[..i] + old(writePending)[i + 1..]
    {
      hide Concat, Named;
      ghost var s, w, u := writePending[i], writes, unsent;
      NamedOnce(writePending, unsent.Keys, i);
      NamedRemove(writePending, unsent.Keys, i);
      ghost var p := writePending;
      assert forall j | 0 <= j < |w| :: w[j].socket == p[j] && p[j] in u && w[j].Sound() && u[p[j]] == w[j].Unsent()
          by {
        forall j | 0 <= j < |w| ensures w[j].socket == p[j] && p[j] in u && w[j].Sound()
            && u[p[j]] == w[j].Unsent() { assert EntryAt(j); }
      }
      writes, writePending := writes[..i] + writes[i + 1..], writePending[..i] + writePending[i + 1..];
      unsent := unsent - {s};
      assert unsent.Keys == u.Keys - {s};
      forall j | 0 <= j < |writes| ensures EntryAt(j) {
        var k := if j < i then j else j + 1;
        assert writes[j] == w[k] && writePending[j] == p[k] && p[k] != s;
      }
    }

    /** Where the walk goes on after the element i was unlinked: at the list's current element, or not at all. */
    method Resume(i: nat, socket: int) returns (next: nat)
      requires Listed() && i <= |writePending|
      modifies this`remembered
      ensures next <= |writePending|
      ensures old(remembered) == Some(socket) ==> next == i
      ensures old(remembered) != Some(socket) ==> remembered == old(remembered)
      ensures next < |writePending| ==> remembered == Some(writePending[next])
    {
      if remembered == Some(socket) {
        remembered := if i < |writePending| then Some(writePending[i]) else None;
        next := i;
      } else if remembered.Some? {
        next := Find(remembered.value);
      } else {
        next := |writePending|;
      }
    }

    /** The walk comes to a ready socket: its write goes on, and the walk moves to the element behind it or resumes. */
    method Visit(i: nat) returns (next: nat, rc: int)
      requires Valid() && Settled() && i < |writePending|
      modifies this, writes[i]
      ensures Valid() && Settled() && accepted.Keys == old(accepted.Keys) && packets == old(packets)
      ensures next <= |writePending| && unsent.Keys <= old(unsent.Keys) && Entries() <= old(Entries())
      ensures if rc == 0 then writePending == old(writePending) && next == i + 1
                else |writePending| == |old(writePending)| - 1 && old(writePending)[i] !in unsent
      ensures Failed() == if rc == -1 then old(Failed()) + {old(writePending)[i]} else old(Failed())
      ensures attempts == old(attempts) + [old(writePending)[i]]
      ensures forall s | s in accepted
                && s != old(writePending)[i] :: accepted[s] == old(accepted)[s] && Left(s) == old(Left(s))
    {
      hide Concat, Accounts, AnsweredWith;
      var socket := writePending[i];
      rc := Continue(i);
      if rc == 0 {
        next := i + 1;
      } else {
        next := Resume(i, socket);
      }
    }

    /**
     * Socket_continueWrites over the sockets that can take more. Nothing is accepted for any other socket;
     * a finished packet leaves the lists, and an error ends its socket's output. The first ready socket always
     * has its write continued, and every ready one has unless some write left the lists: then the walk goes on
     * from the list's current element, which may be anywhere.
     */
    method ContinueWrites(ready: set<int>) returns (rc: Code, errors: set<int>)
      requires Valid() && Settled()
      modifies this, Entries()
      ensures Valid() && Settled() && accepted.Keys == old(accepted.Keys) && packets == old(packets)
      ensures unsent.Keys <= old(unsent.Keys) && Failed() == old(Failed()) + errors && errors <= ready
      ensures errors !! unsent.Keys
      ensures rc == SOCKET_ERROR <==> errors != {}
      ensures forall s | s in accepted && s !in ready :: accepted[s] == old(accepted)[s] && Left(s) == old(Left(s))
      ensures Entries() <= old(Entries())
      ensures old(attempts) <= attempts
      ensures forall i | 0 <= i < |old(writePending)| && old(writePending)[i] in ready ::
                old(writePending)[i] in attempts[|old(attempts)|..]
                || (writePending != old(writePending) && exists j | 0 <= j < i :: old(writePending)[j] in ready)
    {
      hide Concat, Accounts, Asked, FirstAsked, AnsweredWith;
      NoneAsked(writePending, ready);
      var i: nat := 0;
      rc, errors := COMPLETE, {};
      ghost var asked, l := attempts, writePending;
      assert attempts[|asked|..] == [];
      while i < |writePending|
        invariant Valid() && 0 <= i <= |writePending| && accepted.Keys == old(accepted.Keys) && packets == old(packets)
        invariant unsent.Keys <= old(unsent.Keys) && Failed() == old(Failed()) + errors && errors <= ready
        invariant errors !! unsent.Keys && (rc == SOCKET_ERROR <==> errors != {})
        invariant Settled() && Entries() <= old(Entries())
        invariant forall s | s in accepted && s !in ready :: accepted[s] == old(accepted)[s] && Left(s) == old(Left(s))
        invariant asked <= attempts && |writePending| <= |l|
        invariant if |writePending| == |l| then writePending == l && Asked(l, ready, attempts[|asked|..], i)
                  else FirstAsked(l, ready, attempts[|asked|..])
        decreases |writePending|, |writePending| - i
      {
        var socket := writePending[i];
        ghost var before := attempts;
        if socket in ready {
          AskedMore(l, ready, before[|asked|..], i, socket);
          var rc1;
          i, rc1 := Visit(i);
          assert attempts[|asked|..] == before[|asked|..] + [socket];
          if rc1 == -1 { rc, errors := SOCKET_ERROR, errors + {socket}; }
        } else {
          AskedIdle(l, ready, attempts[|asked|..], i);
          i := i + 1;
        }
      }
      AskedMeans(l, ready, attempts[|asked|..], i);
    }

    /** One pending write goes on, and leaves the lists when it is finished or fails. */
    method Continue(i: nat) returns (rc: int)
      requires Valid() && Settled() && i < |writePending|
      modifies this`accepted, this`unsent, this`attempts, this`writes, this`writePending, writes[i]
      ensures attempts == old(attempts) + [old(writePending)[i]]
      ensures Valid() && Settled() && accepted.Keys == old(accepted.Keys)
      ensures rc == 0 ==> writes == old(writes) && writePending == old(writePending) && unsent.Keys == old(unsent.Keys)
      ensures rc != 0 ==>
                && writes == old(writes)[..i] + old(writes)[i + 1..]
                && writePending == old(writePending)[..i] + old(writePending)[i + 1..]
                && unsent.Keys <= old(unsent.Keys)
                && old(writePending)[i] !in unsent
      ensures Failed() == if rc == -1 then old(Failed()) + {old(writePending)[i]} else old(Failed())
      ensures forall s | s in accepted
                && s != old(writePending)[i] :: accepted[s] == old(accepted)[s] && Left(s) == old(Left(s))
    {
      hide Concat, Accounts, Named, AnsweredWith, Answer;
      ghost var socket := writePending[i];
      AccountsKeys(accepted, packets, unsent, Failed());
      rc := ContinueWrite(i);
      assert forall s | s in unsent && s != socket :: unsent[s] != [] by {
        forall s | s in unsent && s != socket ensures unsent[s] != [] { assert Left(s) == old(Left(s)); }
      }
      if rc == -1 {
        AccountsFail(accepted, packets, unsent, Failed(), socket);
        assert Failed() + {socket} == Failed();
        Remove(i);
      } else if rc == 1 {
        PendingKey(i);
        AccountsDone(accepted, packets, unsent, Failed(), socket);
        Remove(i);
      }
    }

    lemma PendingKey(i: nat)
      requires Listed() && i < |writePending|
      ensures writePending[i] in unsent
    {
      assert EntryAt(i);
    }
  }

  lemma AccountsDone(accepted: map<int, seq<byte>>, packets: map<int, seq<seq<byte>>>, unsent: map<int, seq<byte>>,
      failed: set<int>, s: int)
    requires Accounts(accepted, packets, unsent, failed) && s in unsent && unsent[s] == []
    ensures Accounts(accepted, packets, unsent - {s}, failed)
  {
  }

  lemma AccountsKeys(accepted: map<int, seq<byte>>, packets: map<int, seq<seq<byte>>>, unsent: map<int, seq<byte>>,
      failed: set<int>)
    requires Accounts(accepted, packets, unsent, failed)
    ensures accepted.Keys == packets.Keys && unsent.Keys <= accepted.Keys
  {
  }

  lemma AccountsFail(accepted: map<int, seq<byte>>, packets: map<int, seq<seq<byte>>>, unsent: map<int, seq<byte>>,
      failed: set<int>, s: int)
    requires Accounts(accepted, packets, unsent, failed)
    ensures Accounts(accepted, packets, unsent, failed + {s}) && Accounts(accepted, packets, unsent - {s}, failed + {s})
  {
  }

  method Total(v: seq<seq<byte>>) returns (total: nat)
    ensures total == |Concat(v)|
  {
    total := 0;
    for i := 0 to |v|
      invariant total == |Concat(v[..i])|
    {
      ConcatTake(v, i);
      total := total + |v[i]|;
    }
    assert v[..|v|] == v;
  }

  lemma FirstBytes(b: seq<byte>, v: seq<seq<byte>>)
    requires b != []
    ensures Concat([b] + v) != []
  {
    assert ([b] + v)[0] == b;
  }
}
