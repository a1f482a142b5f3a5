/** What the saved input means while packets are read, and what each buffer operation does to that meaning. */
module Reads {
  import opened Common
  import opened Packets
  import opened Frames
  import opened SocketBuffers

  /** A queue's header is no longer than a header is, and data only follows a full one. */
  ghost predicate Loaded(q: Queue) {
    && q.Sound() && q.headerlen >= 0
    && (HeadOf(q.Header()).Full? ==> HeadOf(q.Header()).size == q.headerlen)
    && (q.datalen > 0 ==> HeadOf(q.Header()).Full? && q.datalen < HeadOf(q.Header()).remaining <= q.buflen)
  }

  /** A queue between two reads: rewound, and its packet not all there. */
  ghost predicate Paused(q: Queue) {
    && Loaded(q) && q.index == 0 && HeadOf(q.Header()) != Bad
    && (HeadOf(q.Header()).Full? ==> q.datalen < HeadOf(q.Header()).remaining)
  }

  ghost predicate Idle(q: Queue) {
    q.Sound() && q.socket == 0 && q.index == 0 && q.headerlen == 0 && q.datalen == 0
  }

  ghost predicate OthersPaused(p: Pool, s: int) {
    forall t | t in p.saved && t != s :: t != 0 && Paused(p.saved[t])
  }

  /** Between calls: the default queue is free and every saved queue is paused. */
  ghost predicate Ready(p: Pool) {
    Idle(p.def) && forall t | t in p.saved :: t != 0 && Paused(p.saved[t])
  }

  /** Within a call for s that has seen the header bytes h. */
  ghost predicate Reading(p: Pool, s: int, h: seq<byte>) {
    && OthersPaused(p, s) && s != 0 && |h| <= 5
    && if s in p.saved then
         Idle(p.def) && Loaded(p.saved[s]) && p.saved[s].index == |h| <= p.saved[s].headerlen
             && h == p.saved[s].fixedHeader[..|h|]
         && (HeadOf(p.saved[s].Header()) == Bad ==> |h| == p.saved[s].headerlen)
       else
         p.def.Sound() && p.def.index == p.def.headerlen == |h| && h == p.def.Header() && p.def.datalen == 0
         && p.def.socket == (if h == [] then 0 else s)
  }

  /** After an error for s: the default queue is free or taken by s, and what others have saved is untouched. */
  ghost predicate Broken(p: Pool, s: int) {
    OthersPaused(p, s) && s != 0 && (p.def.socket == s || Idle(p.def))
  }

  /** The bytes read for s that belong to a packet still to come. */
  ghost function Kept(p: Pool, s: int): seq<byte> {
    if s in p.saved then (if p.saved[s].Sound() then p.saved[s].Header() + p.saved[s].Data() else [])
    else if p.def.socket == s && p.def.Sound() then p.def.Header() else []
  }

  /** p and t hold the same for every socket but s. */
  ghost predicate SameOthers(p: Pool, t: Pool, s: int) {
    forall r | r != s :: (r in p.saved <==> r in t.saved) && (r in p.saved ==> p.saved[r] == t.saved[r])
  }

  lemma Starts(p: Pool, s: int)
    requires Ready(p) && s != 0
    ensures Reading(p, s, []) && HeadOf([]) == Short && forall c: byte :: [] + [c] == [c]
  {
    if s in p.saved { assert Paused(p.saved[s]); }
  }

  /** Every header byte that is replayed was read before. */
  lemma ReplayReads(p: Pool, s: int, h: seq<byte>)
    requires Reading(p, s, h) && p.Replays(s)
    ensures Reading(p.CharReplayed(s), s, h + [p.Replay(s)]) && Kept(p.CharReplayed(s), s) == Kept(p, s)
    ensures SameOthers(p, p.CharReplayed(s), s)
  {
    var q := p.saved[s];
    assert q.fixedHeader[..|h| + 1] == h + [q.fixedHeader[|h|]];
  }

  /** With no byte to replay, the bytes seen are all there is of the header, and there is no data. */
  lemma ReplayDone(p: Pool, s: int, h: seq<byte>)
    requires Reading(p, s, h) && !p.Replays(s) && HeadOf(h) == Short
    ensures |h| <= 4 && s in p.saved ==> p.saved[s].Header() == h && p.saved[s].datalen == 0 && p.saved[s].index <= 4
    ensures Kept(p, s) == h
  {
    ShortHead(h);
  }

  /** An interrupted header is kept, rewound, under the socket. */
  lemma InterruptedHeader(p: Pool, s: int, h: seq<byte>, d: Queue)
    requires
      && Reading(p, s, h) && !p.Replays(s) && HeadOf(h) == Short && (s in p.saved ==> d == p.def)
      && (s !in p.saved ==> d.Blank())
    ensures var t := p.Interrupted(s, 0, d);
            Ready(t) && s in t.saved && Kept(t, s) == Kept(p, s) && SameOthers(p, t, s)
  {
    ReplayDone(p, s, h);
  }

  /** A header byte that arrives is kept. */
  lemma CharReads(p: Pool, s: int, h: seq<byte>, c: byte)
    requires Reading(p, s, h) && !p.Replays(s) && HeadOf(h) == Short
    ensures var t := p.CharQueued(s, c);
            Reading(t, s, h + [c]) && Kept(t, s) == Kept(p, s) + [c] && SameOthers(p, t, s)
  {
    ReplayDone(p, s, h);
    ShortHead(h);
    var t := p.CharQueued(s, c);
    if s in p.saved {
      var q := p.saved[s];
      KeptHeader(q, c);
    } else {
      var q := if p.def.socket == 0 then p.def.(socket := s, index := 0, datalen := 0) else p.def;
      KeptHeader(q, c);
    }
  }

  lemma KeptHeader(q: Queue, c: byte)
    requires q.Sound() && q.index == q.headerlen && q.headerlen <= 4
    ensures q.Kept(c).Sound() && q.Kept(c).Header() == q.Header() + [c] && q.Kept(c).Data() == q.Data()
    ensures q.Kept(c).index == q.Kept(c).headerlen == q.headerlen + 1
  {
    var f := q.fixedHeader[q.index := c];
    assert f[..q.index + 1] == q.fixedHeader[..q.index] + [c];
  }

  /** A full header has been replayed or read to its end, and what data there is fits the buffer. */
  lemma HeaderWhole(p: Pool, s: int, h: seq<byte>)
    requires Reading(p, s, h) && HeadOf(h).Full? && HeadOf(h).size == |h|
    ensures var q := p.Current(s);
            && q.Sound() && q.Header() == h && q.headerlen == |h| && (s !in p.saved ==> q.datalen == 0)
            && (q.datalen > 0 ==> q.datalen < HeadOf(h).remaining <= q.buflen) && q.datalen <= HeadOf(h).remaining
            && Kept(p, s) == h + q.Data()
  {
    if s in p.saved {
      var q := p.saved[s];
      HeadStable(h, q.Header()[|h|..]);
      assert h + q.Header()[|h|..] == q.Header();
    }
  }

  /** A packet without data is complete with its header. */
  lemma EmptyCompletes(p: Pool, s: int, h: seq<byte>)
    requires Reading(p, s, h) && HeadOf(h) == Full(|h|, 0)
    ensures Ready(p.Completed(s)) && Kept(p.Completed(s), s) == [] && Kept(p, s) == h
              && SameOthers(p, p.Completed(s), s)
  {
    HeaderWhole(p, s, h);
  }

  /** A longer buffer for a packet without data yet. */
  lemma EnlargedReads(p: Pool, s: int, h: seq<byte>, bytes: nat, contents: seq<byte>)
    requires Reading(p, s, h) && HeadOf(h) == Full(|h|, bytes) && |contents| == bytes > p.Current(s).buflen
    ensures var t := p.Update(s, p.Current(s).Enlarged(bytes, contents));
            Reading(t, s, h) && Kept(t, s) == Kept(p, s) && SameOthers(p, t, s)
  {
    HeaderWhole(p, s, h);
  }

  /** Data received behind what is there. */
  lemma FilledReads(p: Pool, s: int, h: seq<byte>, chunk: seq<byte>)
    requires Reading(p, s, h) && HeadOf(h).Full? && HeadOf(h).size == |h|
    requires p.Current(s).Sound() && p.Current(s).datalen + |chunk| <= |p.Current(s).buf|
    ensures var q := p.Current(s); var t := p.Update(s, q.Filled(q.datalen, chunk));
            && Reading(t, s, h) && Kept(t, s) == Kept(p, s) && SameOthers(p, t, s)
            && t.Current(s) == q.Filled(q.datalen, chunk) && t.Current(s).buflen == q.buflen
                 && (s in t.saved <==> s in p.saved) && t.Current(s).buf[..q.datalen + |chunk|] == q.Data() + chunk
  {
    HeaderWhole(p, s, h);
    var q := p.Current(s);
    var u := q.Filled(q.datalen, chunk);
    assert u.buf[..q.datalen] == q.buf[..q.datalen];
  }

  /** All the data is there: the queue becomes the free default. */
  lemma DataCompletes(p: Pool, s: int, h: seq<byte>)
    requires Reading(p, s, h) && HeadOf(h).Full? && HeadOf(h).size == |h|
    ensures var t := p.Completed(s);
            Ready(t) && Kept(t, s) == [] && SameOthers(p, t, s) && t.def.buf == p.Current(s).buf
  {
    HeaderWhole(p, s, h);
  }

  /** Not all the data is there: header and data are kept under the socket. */
  lemma InterruptedData(p: Pool, s: int, h: seq<byte>, bytes: nat, actual: nat, d: Queue)
    requires Reading(p, s, h) && HeadOf(h) == Full(|h|, bytes) && actual < bytes <= p.Current(s).buflen
    requires (s in p.saved ==> d == p.def) && (s !in p.saved ==> d.Blank())
    ensures var t := p.Interrupted(s, actual, d);
            && p.Current(s).Sound() && Ready(t) && s in t.saved && Kept(t, s) == h + p.Current(s).buf[..actual]
                 && SameOthers(p, t, s)
  {
    HeaderWhole(p, s, h);
  }

  /** Dropping what a broken socket has saved frees the default queue again. */
  lemma CleanupReady(p: Pool, s: int)
    requires Broken(p, s) && p.def.Sound()
    ensures Ready(p.CleanedUp(s)) && Kept(p.CleanedUp(s), s) == [] && SameOthers(p, p.CleanedUp(s), s)
  {
  }

  lemma ReadingBreaks(p: Pool, s: int, h: seq<byte>)
    requires Reading(p, s, h)
    ensures Broken(p, s)
  {
  }
}
