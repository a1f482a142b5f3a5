/** Input saved for sockets whose packet has not arrived whole (SocketBuffer.c). */
module SocketBuffers {
  import opened Common
  import opened Packets

  /** A socket_queue as a value; socket 0 means that no socket has it. */
  datatype Queue = Queue(socket: int, index: nat, headerlen: nat, fixedHeader: seq<byte>, buflen: nat,
      datalen: nat, buf: seq<byte>)
  {
    ghost predicate Sound() {
      |fixedHeader| == 5 && headerlen <= 5 && index <= 5 && datalen <= buflen <= |buf|
    }

    function Header(): seq<byte>
      requires Sound()
    {
      fixedHeader[..headerlen]
    }

    function Data(): seq<byte>
      requires Sound()
    {
      buf[..datalen]
    }

    function Kept(c: byte): Queue {
      if index > 4 || |fixedHeader| != 5 then this
      else this.(fixedHeader := fixedHeader[index := c], index := index + 1, headerlen := index + 1)
    }

    /** The buffer is reallocated; nothing was in it yet. */
    function Enlarged(room: nat, contents: seq<byte>): Queue { this.(buflen := room, buf := contents) }

    /** Bytes are received into the buffer. */
    function Filled(at: nat, chunk: seq<byte>): Queue
      requires at + |chunk| <= |buf|
    {
      this.(buf := buf[..at] + chunk + buf[at + |chunk|..])
    }

    function Reset(): Queue { this.(socket := 0, index := 0, headerlen := 0, datalen := 0) }

    ghost predicate Blank() {
      Sound() && socket == 0 && index == 0 && headerlen == 0 && datalen == 0 && buflen == 0
    }
  }

  /** The default queue and the queues saved by socket. */
  datatype Pool = Pool(def: Queue, saved: map<int, Queue>)
  {
    function Current(s: int): Queue { if s in saved then saved[s] else def }

    function Update(s: int, q: Queue): Pool {
      if s in saved then this.(saved := saved[s := q]) else this.(def := q)
    }

    predicate Replays(s: int) {
      s in saved && saved[s].index < saved[s].headerlen && saved[s].index < |saved[s].fixedHeader|
    }

    /** The header byte a saved queue replays next. */
    function Replay(s: int): byte
      requires Replays(s)
    {
      saved[s].fixedHeader[saved[s].index]
    }

    function CharReplayed(s: int): Pool
      requires Replays(s)
    {
      this.(saved := saved[s := saved[s].(index := saved[s].index + 1)])
    }

    function Claimed(s: int): Pool {
      if s !in saved && def.socket == 0 then this.(def := def.(socket := s, index := 0, datalen := 0)) else this
    }

    function CharQueued(s: int, c: byte): Pool {
      var p := Claimed(s);
      if s !in saved && p.def.socket != s then p else p.Update(s, p.Current(s).Kept(c))
    }

    function Interrupted(s: int, actual: nat, fresh_def: Queue): Pool {
      if s in saved then this.(saved := saved[s := saved[s].(index := 0, datalen := actual)])
      else Pool(fresh_def, saved[s := def.(socket := s, index := 0, datalen := actual)])
    }

    function Completed(s: int): Pool {
      if s in saved then Pool(saved[s].Reset(), saved - {s}) else this.(def := def.Reset())
    }

    function CleanedUp(s: int): Pool {
      Pool(if def.socket == s then def.Reset() else def, saved - {s})
    }
  }

  /** Where an interrupted read leaves its queue. */
  lemma InterruptedIs(p: Pool, s: int, actual: nat)
    ensures s in p.saved ==>
              p.Current(s) == p.saved[s]
              && forall d ::
              p.Interrupted(s, actual, d) == p.(saved := p.saved[s := p.saved[s].(index := 0, datalen := actual)])
    ensures s !in p.saved ==> p.Current(s) == p.def
    ensures s !in p.saved ==>
              forall d :: p.Interrupted(s, actual, d) == Pool(d,
              p.saved[s := p.def.(socket := s)][s := p.def.(socket := s).(index := 0, datalen := actual)])
  {
  }

  class SocketQueue {
    var socket: int
    var index: nat
    var headerlen: nat
    const fixedHeader: array<byte>
    var buflen: nat
    var datalen: nat
    var buf: array<byte>

    /** SocketBuffer_newDefQ: a kilobyte is allocated, but its length is then set to 0. */
    constructor ()
      ensures fresh(fixedHeader) && fresh(buf) && fixedHeader != buf && Of().Blank() && |Of().buf| == 1000
    {
      socket, index, headerlen, buflen, datalen := 0, 0, 0, 0, 0;
      fixedHeader := new byte[5];
      buf := new byte[1000];
    }

    ghost function Of(): Queue
      reads this, fixedHeader, buf
    {
      Queue(socket, index, headerlen, fixedHeader[..], buflen, datalen, buf[..])
    }
  }

  /** The pool is a picture of the default queue and of the list of saved ones; `holder` finds a socket's. */
  ghost predicate TiedTo(def: SocketQueue, queues: seq<SocketQueue>, objs: map<SocketQueue, Queue>,
      holder: map<int, SocketQueue>, pool: Pool) {
    && def in objs && pool.def == objs[def] && def !in queues && pool.def.Sound()
    && (forall i, j | 0 <= i < j < |queues| :: queues[i] != queues[j])
    && (forall q | q in queues ::
         q in objs && objs[q].socket in pool.saved && objs[q].socket in holder && holder[objs[q].socket] == q)
    && (forall s | s in pool.saved ::
         s in holder && holder[s] in queues && holder[s] in objs && objs[holder[s]].socket == s
         && pool.saved[s] == objs[holder[s]])
    && (forall s | s in pool.saved :: pool.saved[s].Sound())
  }

  /** A queue of the list is changed, but not its socket; or the default queue is. */
  lemma TiedUpdate(def: SocketQueue, queues: seq<SocketQueue>, objs: map<SocketQueue, Queue>,
      holder: map<int, SocketQueue>, pool: Pool, q: SocketQueue, v: Queue)
    requires
      && TiedTo(def, queues, objs, holder, pool) && v.Sound()
      && (q == def || (q in queues && v.socket == objs[q].socket))
    ensures TiedTo(def, queues, objs[q := v], holder, if q == def then pool.(def := v)
              else pool.(saved := pool.saved[v.socket := v]))
  {
    hide Queue.Sound;
  }

  lemma TiedExtend(def: SocketQueue, queues: seq<SocketQueue>, objs: map<SocketQueue, Queue>,
      holder: map<int, SocketQueue>, pool: Pool, d: SocketQueue, v: Queue)
    requires TiedTo(def, queues, objs, holder, pool) && d !in objs
    ensures TiedTo(def, queues, objs[d := v], holder, pool) && d !in queues
  {
    hide Queue.Sound;
  }

  /** The default queue joins the list under a socket that has none, and d is the new default. */
  lemma TiedAppend(def: SocketQueue, queues: seq<SocketQueue>, objs: map<SocketQueue, Queue>,
      holder: map<int, SocketQueue>, pool: Pool, s: int, d: SocketQueue)
    requires
      && TiedTo(def, queues, objs, holder, pool) && d in objs && d != def && d !in queues && objs[d].Sound()
      && s !in pool.saved && pool.def.socket == s
    ensures TiedTo(d, queues + [def], objs, holder[s := def], Pool(objs[d], pool.saved[s := pool.def]))
  {
    hide Queue.Sound;
  }

  /** A queue leaves the list and becomes the default; the old default is gone. */
  lemma TiedDetach(def: SocketQueue, queues: seq<SocketQueue>, objs: map<SocketQueue, Queue>,
      holder: map<int, SocketQueue>, pool: Pool, i: nat)
    requires TiedTo(def, queues, objs, holder, pool) && i < |queues| && queues[i] in objs
    ensures var s := objs[queues[i]].socket;
            TiedTo(queues[i], queues[..i] + queues[i + 1..], objs - {def}, holder,
                Pool(objs[queues[i]], pool.saved - {s}))
  {
    hide Queue.Sound;
    var q := queues[i];
    var rest := queues[..i] + queues[i + 1..];
    assert forall j | 0 <= j < |rest| :: rest[j] == queues[if j < i then j else j + 1];
    assert forall r :: r in rest <==> r in queues && r != q;
  }

  /** A queue leaves the list. */
  lemma TiedRemove(def: SocketQueue, queues: seq<SocketQueue>, objs: map<SocketQueue, Queue>,
      holder: map<int, SocketQueue>, pool: Pool, i: nat)
    requires TiedTo(def, queues, objs, holder, pool) && i < |queues| && queues[i] in objs
    ensures var s := objs[queues[i]].socket;
            TiedTo(def, queues[..i] + queues[i + 1..], objs, holder, pool.(saved := pool.saved - {s}))
  {
    hide Queue.Sound;
    var q := queues[i];
    var rest := queues[..i] + queues[i + 1..];
    assert forall j | 0 <= j < |rest| :: rest[j] == queues[if j < i then j else j + 1];
    assert forall r :: r in rest <==> r in queues && r != q;
  }

  class SocketBuffer {
    var defQueue: SocketQueue
    var queues: seq<SocketQueue>
    ghost var objs: map<SocketQueue, Queue>
    ghost var owner: map<array<byte>, SocketQueue>
    ghost var holder: map<int, SocketQueue>
    ghost var pool: Pool

    /** A queue's fields are what `objs` says, and its two arrays are its own. */
    ghost predicate MirrorAt(q: SocketQueue)
      requires q in objs
      reads this`objs, this`owner, q, q.fixedHeader, q.buf
    {
      && q.Of() == objs[q] && q.fixedHeader != q.buf
      && q.fixedHeader in owner && owner[q.fixedHeader] == q && q.buf in owner && owner[q.buf] == q
    }

    ghost predicate Mirror()
      reads this`objs, this`owner, objs.Keys, owner.Keys
    {
      forall q | q in objs :: q.fixedHeader in owner.Keys && q.buf in owner.Keys && MirrorAt(q)
    }

    ghost predicate Tied()
      reads this
    {
      TiedTo(defQueue, queues, objs, holder, pool)
    }

    ghost predicate Valid()
      reads this, objs.Keys, owner.Keys
    {
      Mirror() && Tied()
    }

    /** SocketBuffer_initialize */
    constructor ()
      ensures Valid() && pool.def.Blank() && pool.saved == map[]
    {
      defQueue := new SocketQueue();
      queues := [];
      new;
      objs := map[defQueue := defQueue.Of()];
      owner := map[defQueue.fixedHeader := defQueue][defQueue.buf := defQueue];
      holder := map[];
      pool := Pool(defQueue.Of(), map[]);
    }

    lemma MirrorIs(q: SocketQueue)
      requires Mirror() && q in objs
      ensures q.Of() == objs[q] && q.fixedHeader in owner && q.buf in owner && owner[q.fixedHeader] == q
                && owner[q.buf] == q
      ensures q.socket == objs[q].socket && q.index == objs[q].index && q.headerlen == objs[q].headerlen
      ensures
        && q.buflen == objs[q].buflen && q.datalen == objs[q].datalen && q.fixedHeader[..] == objs[q].fixedHeader
        && q.buf[..] == objs[q].buf
    {
      assert MirrorAt(q);
    }

    /** ListFindItem over the saved queues. */
    method Find(socket: int) returns (i: nat)
      requires Valid()
      ensures i <= |queues| && (i < |queues| <==> socket in pool.saved)
      ensures i < |queues| ==> queues[i] in objs && queues[i].socket == socket && objs[queues[i]] == pool.saved[socket]
    {
      hide SocketQueue.Of, Queue.Sound;
      i := 0;
      while i < |queues| && queues[i].socket != socket
        invariant i <= |queues| && forall j | 0 <= j < i :: queues[j] in objs && objs[queues[j]].socket != socket
      {
        MirrorIs(queues[i]);
        i := i + 1;
      }
      if i < |queues| { MirrorIs(queues[i]); }
    }

    /** After the fields of q have been written. */
    ghost method Note(q: SocketQueue)
      requires
        && q in objs && Tied() && q.fixedHeader in owner && owner[q.fixedHeader] == q && q.buf in owner
        && owner[q.buf] == q && q.fixedHeader != q.buf
      requires forall r | r in objs && r != q :: r.fixedHeader in owner.Keys && r.buf in owner.Keys && MirrorAt(r)
      requires q == defQueue || (q in queues && q.socket == objs[q].socket)
      requires q.Of().Sound()
      modifies this`objs, this`pool
      ensures Valid() && pool == if q == old(defQueue) then old(pool).(def := q.Of())
                else old(pool).(saved := old(pool).saved[q.socket := q.Of()])
      ensures objs.Keys == old(objs.Keys) && owner == old(owner)
    {
      hide SocketQueue.Of, Queue.Sound, TiedTo;
      OfSocket(q);
      TiedUpdate(defQueue, queues, objs, holder, pool, q, q.Of());
      objs := objs[q := q.Of()];
      pool := if q == defQueue then pool.(def := q.Of()) else pool.(saved := pool.saved[q.socket := q.Of()]);
    }

    static lemma OfSocket(q: SocketQueue)
      ensures q.Of().socket == q.socket
    {
    }

    method GetQueuedChar(socket: int) returns (rc: Code, c: byte)
      requires Valid()
      modifies this`pool, this`objs, objs.Keys
      ensures Valid() && objs.Keys == old(objs.Keys) && owner == old(owner)
      ensures old(pool).Replays(socket) ==>
                && rc == COMPLETE
                && c == old(pool).Replay(socket)
                && pool == old(pool).CharReplayed(socket)
      ensures !old(pool).Replays(socket) ==>
                && rc == (if socket in pool.saved && pool.saved[socket].index > 4 then SOCKET_ERROR else INTERRUPTED)
                && pool == old(pool)
    {
      hide TiedTo;
      rc, c := INTERRUPTED, 0;
      var i := Find(socket);
      if i < |queues| {
        var queue := queues[i];
        QueueOf(socket, i);
        if queue.index < queue.headerlen {
          c := queue.fixedHeader[queue.index];
          queue.index := queue.index + 1;
          Note(queue);
          rc := COMPLETE;
        } else if queue.index > 4 {
          rc := SOCKET_ERROR;
        }
      }
    }

    /** A queue in use: what its fields hold, and that its arrays are its own. */
    ghost predicate Known(q: SocketQueue)
      reads this, q, q.fixedHeader, q.buf
    {
      && (q == defQueue || q in queues) && q in objs && q.Of() == objs[q] && objs[q].Sound()
      && q.fixedHeader in owner && q.buf in owner && owner[q.fixedHeader] == q && owner[q.buf] == q
           && q.fixedHeader != q.buf
    }

    method SetLengths(q: SocketQueue, actual_len: nat)
      requires Valid() && Known(q) && actual_len <= q.buflen
      modifies this`pool, this`objs, q
      ensures Valid() && objs.Keys == old(objs.Keys) && owner == old(owner)
      ensures var v := old(objs)[q].(index := 0, datalen := actual_len);
              pool == if q == defQueue then old(pool).(def := v)
                  else old(pool).(saved := old(pool).saved[v.socket := v])
    {
      hide TiedTo;
      q.index := 0;
      q.datalen := actual_len;
      Note(q);
    }

    /** What is known of a saved queue. */
    lemma QueueOf(socket: int, i: nat)
      requires Valid() && i < |queues| && queues[i] in objs && queues[i].socket == socket
      ensures var q := queues[i];
              socket in pool.saved && q in queues && q in objs && objs[q] == pool.saved[socket] && q != defQueue
                  && Known(q) && objs[q].socket == socket && q.buflen == objs[q].buflen
    {
      MirrorIs(queues[i]);
    }

    lemma DefaultOf()
      requires Valid()
      ensures
        && defQueue in objs && objs[defQueue] == pool.def && defQueue !in queues && Known(defQueue)
        && defQueue.socket == pool.def.socket && defQueue.buflen == pool.def.buflen
    {
      MirrorIs(defQueue);
    }

    /** The header byte c goes into a queue that has room for it. */
    method Keep(q: SocketQueue, c: byte)
      requires Valid() && Known(q) && q.index <= 4
      modifies this`pool, this`objs, q, q.fixedHeader
      ensures Valid() && objs.Keys == old(objs.Keys) && owner == old(owner)
      ensures pool == if q == defQueue then old(pool).(def := old(objs)[q].Kept(c))
                else old(pool).(saved := old(pool).saved[old(objs)[q].socket := old(objs)[q].Kept(c)])
    {
      hide TiedTo;
      q.fixedHeader[q.index] := c;
      q.index := q.index + 1;
      q.headerlen := q.index;
      Note(q);
    }

    /** A free default queue is given to the socket. */
    method Claim(s: int)
      requires Valid() && defQueue.socket == 0
      modifies this`pool, this`objs, defQueue
      ensures Valid() && objs.Keys == old(objs.Keys) && owner == old(owner)
      ensures pool == old(pool).(def := old(pool).def.(socket := s, index := 0, datalen := 0))
    {
      hide TiedTo;
      DefaultOf();
      defQueue.socket, defQueue.index, defQueue.datalen := s, 0, 0;
      Note(defQueue);
    }

    /** SocketBuffer_queueChar: a character read is kept in case the read is interrupted. */
    method QueueChar(socket: int, c: byte)
      requires Valid()
      modifies this`pool, this`objs, objs.Keys, owner.Keys
      ensures Valid() && objs.Keys == old(objs.Keys) && owner == old(owner)
      ensures pool == old(pool).CharQueued(socket, c)
    {
      hide TiedTo, Valid;
      var curq := defQueue;
      var error := false;
      DefaultOf();
      var i := Find(socket);
      if i < |queues| {
        QueueOf(socket, i);
        curq := queues[i];
      } else if defQueue.socket == 0 {
        Claim(socket);
        DefaultOf();
      } else if defQueue.socket != socket {
        error := true;
      }
      if curq.index > 4 { error := true; }
      if !error { Keep(curq, c); }
    }

    method Rename(s: int)
      requires Valid()
      modifies this`pool, this`objs, defQueue
      ensures Valid() && objs.Keys == old(objs.Keys) && owner == old(owner) && Known(defQueue) && defQueue.socket == s
      ensures pool == old(pool).(def := old(pool).def.(socket := s))
    {
      hide TiedTo;
      DefaultOf();
      defQueue.socket := s;
      Note(defQueue);
    }

    /** A saved queue is to be replayed from its start, with so much data in it. */
    method Rewind(socket: int, i: nat, actual_len: nat)
      requires Valid() && i < |queues| && queues[i] in objs && queues[i].socket == socket
      requires socket in pool.saved && actual_len <= pool.saved[socket].buflen
      modifies this`pool, this`objs, queues[i]
      ensures Valid() && objs.Keys == old(objs.Keys) && owner == old(owner)
      ensures pool == old(pool).(saved :=
                old(pool).saved[socket := old(pool).saved[socket].(index := 0, datalen := actual_len)])
    {
      hide *;
      QueueOf(socket, i);
      SetLengths(queues[i], actual_len);
    }

    /** The default queue joins the list and a new one takes its place. */
    method AppendDefault(socket: int)
      requires Valid() && socket !in pool.saved
      modifies this`defQueue, this`queues, this`pool, this`objs, this`owner, this`holder, defQueue
      ensures Valid() && fresh(objs.Keys - old(objs.Keys)) && fresh(owner.Keys - old(owner.Keys))
      ensures pool.def.Blank() && pool.saved == old(pool).saved[socket := old(pool).def.(socket := socket)]
      ensures queues == old(queues) + [old(defQueue)] && old(defQueue) in objs && old(defQueue).socket == socket
    {
      hide *;
      Rename(socket);
      var q := NewDefQ();
      PushDefault(socket, q);
    }

    /** ListAppend of the default queue, and q is the default from now on. */
    method PushDefault(socket: int, q: SocketQueue)
      requires
        && Valid() && socket !in pool.saved && pool.def.socket == socket && q in objs && q != defQueue
        && q !in queues && objs[q].Sound()
      modifies this`defQueue, this`queues, this`holder, this`pool
      ensures
        && Valid() && pool == Pool(objs[q], old(pool).saved[socket := old(pool).def])
        && queues == old(queues) + [old(defQueue)] && old(defQueue) in objs
    {
      hide TiedTo, Queue.Sound, Mirror;
      TiedAppend(defQueue, queues, objs, holder, pool, socket, q);
      DefaultOf();
      queues := queues + [defQueue];
      holder := holder[socket := defQueue];
      pool := Pool(objs[q], pool.saved[socket := pool.def]);
      defQueue := q;
    }

    /** A queue that has just been made is taken note of. */
    ghost method Adopt(q: SocketQueue)
      requires Valid() && q !in objs && q.fixedHeader !in owner && q.buf !in owner && q.fixedHeader != q.buf
      modifies this`objs, this`owner
      ensures Valid() && objs == old(objs)[q := q.Of()] && owner == old(owner)[q.fixedHeader := q][q.buf := q]
    {
      hide TiedTo, Queue.Sound, SocketQueue.Of;
      TiedExtend(defQueue, queues, objs, holder, pool, q, q.Of());
      objs, owner := objs[q := q.Of()], owner[q.fixedHeader := q][q.buf := q];
    }

    method NewDefQ() returns (q: SocketQueue)
      requires Valid()
      modifies this`objs, this`owner
      ensures Valid() && fresh(q) && fresh(owner.Keys - old(owner.Keys)) && fresh(objs.Keys - old(objs.Keys))
      ensures
        && objs.Keys == old(objs.Keys) + {q} && q in objs && objs[q].Blank() && objs[q].Sound() && q != defQueue
        && q !in queues
    {
      hide TiedTo, Queue.Sound, Queue.Blank, SocketQueue.Of, Mirror;
      q := new SocketQueue();
      assert q !in objs && q.fixedHeader !in owner && q.buf !in owner;
      BlankSound(q.Of());
      TiedNot(defQueue, queues, objs, holder, pool, q);
      Adopt(q);
    }

    static lemma TiedNot(def: SocketQueue, queues: seq<SocketQueue>, objs: map<SocketQueue, Queue>,
        holder: map<int, SocketQueue>, pool: Pool, d: SocketQueue)
      requires TiedTo(def, queues, objs, holder, pool) && d !in objs
      ensures d != def && d !in queues
    {
    }

    static lemma BlankSound(v: Queue)
      requires v.Blank()
      ensures v.Sound()
    {
    }

    /** SocketBuffer_interrupted: what has been read so far is kept under the socket. */
    method Interrupted(socket: int, actual_len: nat)
      requires Valid() && actual_len <= pool.Current(socket).buflen
      modifies this`defQueue, this`queues, this`pool, this`objs, this`owner, this`holder, objs.Keys
      ensures Valid() && fresh(objs.Keys - old(objs.Keys)) && fresh(owner.Keys - old(owner.Keys))
      ensures pool == old(pool).Interrupted(socket, actual_len, pool.def)
                && if socket in old(pool).saved then pool.def == old(pool).def else pool.def.Blank()
    {
      hide *;
      InterruptedIs(pool, socket, actual_len);
      DefaultOf();
      var i := Find(socket);
      if i == |queues| {
        AppendDefault(socket);
      }
      Rewind(socket, i, actual_len);
    }

    /** A saved queue leaves the list and takes the default's place. */
    method DetachSaved(i: nat, ghost socket: int)
      requires Valid() && i < |queues| && queues[i] in objs && objs[queues[i]].socket == socket
      modifies this`defQueue, this`queues, this`pool, this`objs
      ensures Valid() && objs.Keys <= old(objs.Keys) && owner == old(owner)
      ensures socket in old(pool).saved && pool == Pool(old(pool).saved[socket], old(pool).saved - {socket})
    {
      hide TiedTo, Queue.Sound;
      TiedDetach(defQueue, queues, objs, holder, pool, i);
      SavedIs(socket, i);
      var queue := queues[i];
      objs := objs - {defQueue};
      pool := Pool(old(objs)[queue], pool.saved - {socket});
      defQueue := queue;
      queues := queues[..i] + queues[i + 1..];
    }

    lemma SavedIs(socket: int, i: nat)
      requires Valid() && i < |queues| && queues[i] in objs && objs[queues[i]].socket == socket
      ensures socket in pool.saved && pool.saved[socket] == objs[queues[i]]
    {
      assert queues[i] in queues;
    }

    method ResetDefault()
      requires Valid()
      modifies this`pool, this`objs, defQueue
      ensures
        && Valid() && objs.Keys == old(objs.Keys) && owner == old(owner)
        && pool == old(pool).(def := old(pool).def.Reset())
    {
      hide TiedTo;
      DefaultOf();
      defQueue.socket, defQueue.index := 0, 0;
      defQueue.headerlen, defQueue.datalen := 0, 0;
      Note(defQueue);
    }

    /** SocketBuffer_complete: the packet is whole, and its queue becomes the free default. */
    method Complete(socket: int) returns (buf: array<byte>)
      requires Valid()
      modifies this`defQueue, this`queues, this`pool, this`objs, objs.Keys
      ensures Valid() && objs.Keys <= old(objs.Keys) && owner == old(owner) && pool == old(pool).Completed(socket)
      ensures buf[..] == pool.def.buf
    {
      hide TiedTo, Valid, Mirror, MirrorAt, SocketQueue.Of;
      DefaultOf();
      var i := Find(socket);
      if i < |queues| {
        QueueOf(socket, i);
        DetachSaved(i, socket);
      }
      DefaultOf();
      ResetDefault();
      DefaultOf();
      MirrorBuf(defQueue);
      buf := defQueue.buf;
    }

    lemma MirrorBuf(q: SocketQueue)
      requires Known(q)
      ensures q.buf[..] == objs[q].buf
    {
    }

    /** SocketBuffer_cleanup: whatever is saved for a closed socket is dropped. */
    method Cleanup(socket: int)
      requires Valid()
      modifies this`queues, this`pool, this`objs, objs.Keys
      ensures Valid() && objs.Keys <= old(objs.Keys) && owner == old(owner) && pool == old(pool).CleanedUp(socket)
    {
      hide TiedTo, Mirror, MirrorAt, SocketQueue.Of;
      var i := Find(socket);
      if i < |queues| {
        QueueOf(socket, i);
        TiedRemove(defQueue, queues, objs, holder, pool, i);
        SavedIs(socket, i);
        queues := queues[..i] + queues[i + 1..];
        pool := pool.(saved := pool.saved - {socket});
      }
      DefaultOf();
      if defQueue.socket == socket { ResetDefault(); }
    }

    /** The queue a socket's data goes to. */
    ghost predicate Serves(q: SocketQueue, socket: int)
      reads this, q, q.fixedHeader, q.buf
    {
      Known(q) && objs[q] == pool.Current(socket) && (socket in pool.saved <==> q != defQueue)
    }

    /**
     * SocketBuffer_getQueuedData: the buffer to read into and how much of the packet it holds. A buffer with
     * data in it is always long enough, so the branch that would copy it after freeing it is never taken.
     */
    method GetQueuedData(socket: int, bytes: nat) returns (buf: array<byte>, actual_len: nat, ghost queue: SocketQueue)
      requires Valid() && (pool.Current(socket).datalen > 0 ==> bytes <= pool.Current(socket).buflen)
      modifies this`pool, this`objs, this`owner, objs.Keys
      ensures Valid() && objs.Keys == old(objs.Keys) && fresh(owner.Keys - old(owner.Keys))
      ensures actual_len == if socket in old(pool).saved then old(pool).saved[socket].datalen else 0
      ensures
        && Serves(queue, socket) && buf == queue.buf && bytes <= buf.Length && buf in owner.Keys
        && buf[..] == pool.Current(socket).buf
      ensures bytes > old(pool).Current(socket).buflen ==> buf.Length == bytes
      ensures pool == if bytes <= old(pool).Current(socket).buflen then old(pool)
                else old(pool).Update(socket, old(pool).Current(socket).Enlarged(bytes, buf[..]))
    {
      hide TiedTo, Valid, Mirror, MirrorAt, SocketQueue.Of;
      var i := Find(socket);
      DefaultOf();
      var current := defQueue;
      actual_len := 0;
      if i < |queues| {
        QueueOf(socket, i);
        current := queues[i];
        actual_len := current.datalen;
        LengthsOf(current);
      }
      LengthsOf(current);
      if bytes > current.buflen {
        if current.datalen > 0 {
          assert false;
        } else {
          Enlarge(current, bytes);
        }
      }
      buf := current.buf;
      queue := current;
      if i < |queues| { QueueOf(socket, i); } else { DefaultOf(); }
      LengthsOf(current);
      MirrorBuf(current);
    }

    lemma LengthsOf(q: SocketQueue)
      requires Known(q)
      ensures
        && q.datalen == objs[q].datalen && q.buflen == objs[q].buflen && q.index == objs[q].index
        && q.socket == objs[q].socket
      ensures q.buf in owner.Keys && q.buflen <= q.buf.Length
    {
    }

    method Enlarge(q: SocketQueue, bytes: nat)
      requires Valid() && Known(q) && q.datalen == 0
      modifies this`pool, this`objs, this`owner, q
      ensures
        && Valid() && objs.Keys == old(objs.Keys) && fresh(owner.Keys - old(owner.Keys)) && q.buf.Length == bytes
        && q.socket == old(q.socket)
      ensures var v := old(objs)[q].Enlarged(bytes, q.buf[..]);
              pool == if q == defQueue then old(pool).(def := v)
                  else old(pool).(saved := old(pool).saved[v.socket := v])
    {
      hide TiedTo;
      q.buf := new byte[bytes];
      q.buflen := bytes;
      owner := owner[q.buf := q];
      Note(q);
    }

    /** What recv does to the buffer. */
    static method Receive(buf: array<byte>, at: nat, chunk: seq<byte>)
      requires at + |chunk| <= buf.Length
      modifies buf
      ensures buf[..] == old(buf[..])[..at] + chunk + old(buf[..])[at + |chunk|..]
    {
      forall k | 0 <= k < |chunk| { buf[at + k] := chunk[k]; }
    }

    method Fill(buf: array<byte>, at: nat, chunk: seq<byte>, ghost q: SocketQueue, ghost socket: int)
      requires Valid() && Serves(q, socket) && buf == q.buf && at + |chunk| <= q.buf.Length
      modifies this`pool, this`objs, q.buf
      ensures Valid() && objs.Keys == old(objs.Keys) && owner == old(owner)
      ensures q.buf[..] == old(q.buf[..])[..at] + chunk + old(q.buf[..])[at + |chunk|..]
      ensures
        && old(pool).Current(socket).buf == old(q.buf[..])
        && pool == old(pool).Update(socket, old(pool).Current(socket).Filled(at, chunk))
    {
      hide TiedTo, Queue.Sound;
      SoundFilled(objs[q], at, chunk);
      SavedSocket(socket, q);
      Receive(buf, at, chunk);
      Note(q);
    }

    lemma SavedSocket(socket: int, q: SocketQueue)
      requires Valid() && Serves(q, socket)
      ensures q.socket == objs[q].socket && (socket in pool.saved ==> q in queues && q.socket == socket)
    {
    }

    static lemma SoundFilled(v: Queue, at: nat, chunk: seq<byte>)
      requires v.Sound() && at + |chunk| <= |v.buf|
      ensures v.Filled(at, chunk).Sound()
    {
    }
  }
}
