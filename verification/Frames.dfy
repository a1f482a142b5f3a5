/** Packets on a byte stream: a header byte, one to four length bytes, and as many bytes of data. */
module Frames {
  import opened Packets

  /** How far a stream's fixed header has come: `size` is its length in bytes, `remaining` the length it announces. */
  datatype Head = Short | Bad | Full(size: nat, remaining: int)

  /** The length bytes from the k-th on, seven bits each, the lowest first; a fifth is bad data. */
  function LengthOf(b: seq<byte>, k: nat): (h: Head)
    requires k <= 4
    ensures h.Full? ==> 1 <= h.size <= |b| && h.size + k <= 4 && h.remaining >= 0
    decreases 4 - k
  {
    if k == 4 then Bad
    else if b == [] then Short
    else if b[0] < 128 then Full(1, b[0])
    else match LengthOf(b[1..], k + 1)
      case Full(n, r) => Full(n + 1, b[0] - 128 + 128 * r)
      case other => other
  }

  function HeadOf(b: seq<byte>): (h: Head)
    ensures h.Full? ==> 2 <= h.size <= |b| && h.size <= 5 && h.remaining >= 0
  {
    if b == [] then Short
    else match LengthOf(b[1..], 0)
      case Full(n, r) => Full(n + 1, r)
      case other => other
  }

  /** A whole packet: its fixed header and its data. */
  datatype Frame = Frame(head: seq<byte>, data: seq<byte>)

  function Wire(f: Frame): seq<byte> { f.head + f.data }

  predicate WellFormed(f: Frame) { HeadOf(f.head) == Full(|f.head|, |f.data|) }

  datatype Next = Incomplete | Malformed | Complete(frame: Frame)

  /** The first packet of a stream that is all there. */
  function NextOf(b: seq<byte>): (n: Next)
    ensures n.Complete? ==> 2 <= |Wire(n.frame)| <= |b|
  {
    match HeadOf(b)
    case Short => Incomplete
    case Bad => Malformed
    case Full(k, r) => if |b| < k + r then Incomplete else Complete(Frame(b[..k], b[k..k + r]))
  }

  /** The uninterrupted reader: every packet of the stream, up to its end or to bad data. */
  function OnePass(b: seq<byte>): seq<Frame>
    decreases |b|
  {
    match NextOf(b)
    case Complete(f) => [f] + OnePass(b[|Wire(f)|..])
    case _ => []
  }

  /** Why the uninterrupted reader stops: nothing whole is left, or bad data. */
  function EndOf(b: seq<byte>): (n: Next)
    ensures !n.Complete?
    decreases |b|
  {
    match NextOf(b)
    case Complete(f) => EndOf(b[|Wire(f)|..])
    case other => other
  }

  function Flat(fs: seq<Frame>): seq<byte> {
    if fs == [] then [] else Wire(fs[0]) + Flat(fs[1..])
  }

  /** Bytes that follow do not change a length that is known to be full or bad. */
  lemma {:induction false} LengthStable(b: seq<byte>, more: seq<byte>, k: nat)
    requires k <= 4 && LengthOf(b, k) != Short
    ensures LengthOf(b + more, k) == LengthOf(b, k)
    decreases 4 - k
  {
    if k < 4 && b[0] >= 128 {
      assert (b + more)[1..] == b[1..] + more;
      LengthStable(b[1..], more, k + 1);
    }
  }

  lemma {:induction false} LengthExact(b: seq<byte>, k: nat)
    requires k <= 4 && LengthOf(b, k).Full?
    ensures LengthOf(b[..LengthOf(b, k).size], k) == LengthOf(b, k)
    decreases 4 - k
  {
    var n := LengthOf(b, k).size;
    LengthStep(b, k);
    LengthStep(b[..n], k);
    hide LengthOf;
    if b[0] >= 128 {
      LengthExact(b[1..], k + 1);
      assert b[..n][1..] == b[1..][..n - 1];
    }
  }

  lemma LengthStep(b: seq<byte>, k: nat)
    requires k < 4 && b != []
    ensures LengthOf(b, k) == if b[0] < 128 then Full(1, b[0])
                              else match LengthOf(b[1..], k + 1)
                                case Full(n, r) => Full(n + 1, b[0] - 128 + 128 * r)
                                case other => other
  {
  }

  lemma HeadStable(b: seq<byte>, more: seq<byte>)
    requires HeadOf(b) != Short
    ensures HeadOf(b + more) == HeadOf(b)
  {
    assert (b + more)[1..] == b[1..] + more;
    LengthStable(b[1..], more, 0);
  }

  lemma HeadExact(b: seq<byte>)
    requires HeadOf(b).Full?
    ensures HeadOf(b[..HeadOf(b).size]) == HeadOf(b)
  {
    LengthExact(b[1..], 0);
    assert b[..HeadOf(b).size][1..] == b[1..][..HeadOf(b).size - 1];
  }

  /** A well-formed packet at the front of a stream is the next packet, whatever follows. */
  lemma NextIsFrame(f: Frame, more: seq<byte>)
    requires WellFormed(f)
    ensures NextOf(Wire(f) + more) == Complete(f)
  {
    assert Wire(f) + more == f.head + (f.data + more);
    HeadStable(f.head, f.data + more);
    var b := Wire(f) + more;
    assert b[..|f.head|] == f.head;
    assert b[|f.head|..|f.head| + |f.data|] == f.data;
  }

  /** What the next packet is made of. */
  lemma NextWellFormed(b: seq<byte>)
    requires NextOf(b).Complete?
    ensures var f := NextOf(b).frame; WellFormed(f) && b == Wire(f) + b[|Wire(f)|..]
  {
    HeadExact(b);
    var k, r := HeadOf(b).size, HeadOf(b).remaining;
    assert b == b[..k] + b[k..k + r] + b[k + r..];
  }

  /** One pass takes whole, well-formed packets off the front and stops only where no whole packet is left. */
  lemma {:induction false} OnePassCovers(b: seq<byte>) returns (rest: seq<byte>)
    ensures b == Flat(OnePass(b)) + rest && !NextOf(rest).Complete? && forall f | f in OnePass(b) :: WellFormed(f)
    decreases |b|
  {
    hide NextOf, WellFormed, Wire;
    if NextOf(b).Complete? {
      var f := NextOf(b).frame;
      NextWellFormed(b);
      NextFits(b);
      var more := b[|Wire(f)|..];
      rest := OnePassCovers(more);
      assert OnePass(b) == [f] + OnePass(more);
      assert Flat([f] + OnePass(more)) == Wire(f) + Flat(OnePass(more))
          by { assert ([f] + OnePass(more))[1..] == OnePass(more); }
      assert b == Wire(f) + (Flat(OnePass(more)) + rest);
    } else {
      rest := b;
    }
  }

  lemma NextFits(b: seq<byte>)
    requires NextOf(b).Complete?
    ensures 2 <= |Wire(NextOf(b).frame)| <= |b|
  {
  }

  lemma OnePassStep(f: Frame, rest: seq<byte>)
    requires WellFormed(f)
    ensures OnePass(Wire(f) + rest) == [f] + OnePass(rest) && EndOf(Wire(f) + rest) == EndOf(rest)
  {
    hide NextOf, Wire, WellFormed;
    NextIsFrame(f, rest);
    assert (Wire(f) + rest)[|Wire(f)|..] == rest;
  }

  /** Reading whole packets one after another is the one-pass reader's way through the stream. */
  lemma {:induction false} OnePassFlat(fs: seq<Frame>, more: seq<byte>)
    requires forall f | f in fs :: WellFormed(f)
    ensures OnePass(Flat(fs) + more) == fs + OnePass(more) && EndOf(Flat(fs) + more) == EndOf(more)
  {
    hide WellFormed, Wire, OnePass, EndOf;
    if fs == [] {
      assert Flat(fs) + more == more;
    } else {
      var rest := Flat(fs[1..]) + more;
      assert Flat(fs) + more == Wire(fs[0]) + rest;
      OnePassStep(fs[0], rest);
      OnePassFlat(fs[1..], more);
      assert [fs[0]] + (fs[1..] + OnePass(more)) == fs + OnePass(more);
    }
  }

  lemma {:induction false} FlatAppend(fs: seq<Frame>, f: Frame)
    ensures Flat(fs + [f]) == Flat(fs) + Wire(f)
  {
    if fs == [] {
      assert (fs + [f])[1..] == [];
      assert Flat([]) == [];
    } else {
      assert (fs + [f])[1..] == fs[1..] + [f];
      FlatAppend(fs[1..], f);
    }
  }

  lemma {:induction false} ShortLength(b: seq<byte>, k: nat)
    requires k <= 4 && LengthOf(b, k) == Short
    ensures |b| + k <= 3 && forall d | d in b :: d >= 128
    decreases 4 - k
  {
    if b != [] {
      ShortLength(b[1..], k + 1);
      assert forall d | d in b :: d == b[0] || d in b[1..];
    }
  }

  /** An unfinished header has at most four bytes. */
  lemma ShortHead(b: seq<byte>)
    requires HeadOf(b) == Short
    ensures |b| <= 4 && (forall i | 1 <= i < |b| :: b[i] >= 128)
  {
    if b != [] {
      ShortLength(b[1..], 0);
      forall i | 1 <= i < |b| ensures b[i] >= 128 { assert b[1..][i - 1] == b[i]; }
    }
  }

  function Pow128(k: nat): nat { if k == 0 then 1 else 128 * Pow128(k - 1) }

  /** What unfinished length bytes add up to, the k-th on. */
  function Partial(b: seq<byte>): int {
    if b == [] then 0 else b[0] - 128 + 128 * Partial(b[1..])
  }

  /** One more length byte. */
  lemma {:induction false} LengthSnoc(b: seq<byte>, c: byte, k: nat)
    requires k <= 4 && LengthOf(b, k) == Short
    ensures LengthOf(b + [c], k) == if c < 128 then Full(|b| + 1, Partial(b) + c * Pow128(|b|))
              else if |b| + 1 + k == 4 then Bad else Short
    ensures c >= 128 ==> Partial(b + [c]) == Partial(b) + (c - 128) * Pow128(|b|)
    decreases 4 - k
  {
    if b == [] {
      assert (b + [c])[1..] == [];
      assert LengthOf([], k + 1) == if k + 1 == 4 then Bad else Short;
    } else {
      assert (b + [c])[1..] == b[1..] + [c];
      LengthSnoc(b[1..], c, k + 1);
      Scale(c, Pow128(|b| - 1));
      Scale(c - 128, Pow128(|b| - 1));
    }
  }

  lemma Scale(c: int, p: int)
    ensures 128 * (c * p) == c * (128 * p)
  {
  }

  /** One more byte of an unfinished header. */
  lemma HeadSnoc(b: seq<byte>, c: byte)
    requires HeadOf(b) == Short && b != []
    ensures HeadOf(b + [c]) == if c < 128 then Full(|b| + 1, Partial(b[1..]) + c * Pow128(|b| - 1))
              else if |b| == 4 then Bad else Short
    ensures c >= 128 ==> Partial((b + [c])[1..]) == Partial(b[1..]) + (c - 128) * Pow128(|b| - 1)
  {
    hide LengthOf, Partial, Pow128;
    TailSnoc(b, c);
    LengthSnoc(b[1..], c, 0);
    assert (b + [c])[1..] == b[1..] + [c];
  }

  lemma TailSnoc(b: seq<byte>, c: byte)
    requires b != []
    ensures (b + [c])[1..] == b[1..] + [c] && |b[1..]| == |b| - 1
  {
  }
}
