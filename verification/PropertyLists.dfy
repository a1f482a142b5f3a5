/** The growing array of properties, and the buffer they are written to. */
module PropertyLists {
  import opened Common
  import opened Packets
  import opened Codec
  import opened Properties

  /** A buffer and the pointer that moves along it. */
  class OutBuffer {
    const buf: array<byte>
    var pos: nat

    constructor (size: nat)
      ensures fresh(buf) && buf.Length == size && pos == 0
    {
      buf := new byte[size];
      pos := 0;
    }

    ghost predicate Room(n: nat)
      reads this
    {
      pos + n <= buf.Length
    }

    /** What lies behind the pointer. */
    ghost function Done(): seq<byte>
      requires pos <= buf.Length
      reads this, buf
    {
      buf[..pos]
    }

    method WriteChar(c: byte)
      requires Room(1)
      modifies this, buf
      ensures pos == old(pos) + 1 && Room(0) && Done() == old(Done()) + [c]
    {
      buf[pos] := c;
      pos := pos + 1;
    }

    method WriteInt(n: int)
      requires Room(2)
      modifies this, buf
      ensures pos == old(pos) + 2 && Room(0) && Done() == old(Done()) + Int2(n)
    {
      WriteChar(Char(CDiv(n, 256)));
      WriteChar(Char(CMod(n, 256)));
    }

    method WriteInt4(n: int)
      requires Room(4)
      modifies this, buf
      ensures pos == old(pos) + 4 && Room(0) && Done() == old(Done()) + Int4(n)
    {
      var anInt := n;
      WriteChar(Char(CDiv(anInt, 16777216)));
      anInt := CMod(anInt, 16777216);
      WriteChar(Char(CDiv(anInt, 65536)));
      anInt := CMod(anInt, 65536);
      WriteChar(Char(CDiv(anInt, 256)));
      WriteChar(Char(CMod(anInt, 256)));
    }

    /** MQTTPacket_encode */
    method WriteVbi(n: nat)
      requires Room(|Encode(n)|)
      modifies this, buf
      ensures pos == old(pos) + |Encode(n)| && Room(0) && Done() == old(Done()) + Encode(n)
    {
      hide Encode;
      var length := n;
      ghost var was := Done();
      ghost var out := [];
      while length >= 128
        invariant
          && Room(|Encode(length)|) && pos == old(pos) + |out| && Done() == was + out
          && Encode(n) == out + Encode(length)
        decreases length
      {
        ghost var before := out;
        out := out + [length % 128 + 128];
        EncodeStep(length);
        assert before + ([length % 128 + 128] + Encode(length / 128)) == out + Encode(length / 128);
        WriteChar(length % 128 + 128);
        length := length / 128;
      }
      EncodeStep(length);
      WriteChar(length);
    }

    method WriteBytes(d: seq<byte>)
      requires Room(|d|)
      modifies this, buf
      ensures pos == old(pos) + |d| && Room(0) && Done() == old(Done()) + d
    {
      forall i | 0 <= i < |d| { buf[pos + i] := d[i]; }
      pos := pos + |d|;
    }

    method WriteLenString(d: seq<byte>)
      requires Room(2 + |d|)
      modifies this, buf
      ensures pos == old(pos) + |LenString(d)| && Room(0) && Done() == old(Done()) + LenString(d)
    {
      ghost var was := Done();
      WriteInt(|d|);
      WriteBytes(d);
      assert was + Int2(|d|) + d == was + LenString(d);
    }

    /** MQTTProperty_write */
    method WriteProperty(p: Property)
      requires Proper(p) && Room(|Wire(p)|)
      modifies this, buf
      ensures pos == old(pos) + |Wire(p)| && Room(0) && Done() == old(Done()) + Wire(p)
    {
      hide Proper, Int2, Int4, Encode, LenString;
      ProperRange(p);
      WireSize(p);
      ghost var was := Done();
      WriteChar(p.id);
      match p.value {
        case Byte(b) => WriteChar(b);
        case Two(n) => WriteInt(n);
        case Four(n) => WriteInt4(Signed(n));
        case Vbi(n) => WriteVbi(n);
        case Data(d) => WriteLenString(d);
        case Pair(d, e) =>
          WriteLenString(d);
          WriteLenString(e);
          assert was + [p.id] + LenString(d) + LenString(e) == was + [p.id] + (LenString(d) + LenString(e));
      }
      assert was + [p.id] + Body(p.value) == was + Wire(p);
    }
  }

  lemma ProperRange(p: Property)
    requires Proper(p)
    ensures p.value.Vbi? ==> p.value.n >= 0
  {
  }

  lemma WireSize(p: Property)
    ensures |Wire(p)| == 1 + match p.value
                             case Byte(_) => 1 case Two(_) => 2 case Four(_) => 4
                             case Vbi(n) => if n >= 0 then |Encode(n)| else 0
                             case Data(d) => 2 + |d| case Pair(d, e) => 4 + |d| + |e|
    ensures forall d :: |LenString(d)| == 2 + |d|
  {
  }

  const INVALID_PROPERTY_ID := -2

  lemma {:induction false} LengthAppend(ps: seq<Property>, p: Property)
    ensures Length(ps + [p]) == Length(ps) + LenOf(p)
  {
    if ps == [] {
      assert ps + [p] == [p] && [p][1..] == [];
      assert Length([]) == 0;
    } else {
      assert (ps + [p])[1..] == ps[1..] + [p];
      LengthAppend(ps[1..], p);
    }
  }

  lemma {:induction false} FlatAppend(ps: seq<Property>, p: Property)
    ensures Flat(ps + [p]) == Flat(ps) + Wire(p)
  {
    if ps == [] {
      assert ps + [p] == [p] && [p][1..] == [];
      assert Flat([]) == [];
    } else {
      assert (ps + [p])[1..] == ps[1..] + [p];
      FlatAppend(ps[1..], p);
      assert Wire(ps[0]) + (Flat(ps[1..]) + Wire(p)) == (Wire(ps[0]) + Flat(ps[1..])) + Wire(p);
    }
  }

  lemma FlatTake(ps: seq<Property>, i: nat)
    requires i < |ps|
    ensures Flat(ps[..i + 1]) == Flat(ps[..i]) + Wire(ps[i])
  {
    assert ps[..i + 1] == ps[..i] + [ps[i]];
    FlatAppend(ps[..i], ps[i]);
  }

  lemma {:induction false} FlatPart(ps: seq<Property>, i: nat)
    requires i <= |ps|
    ensures |Flat(ps[..i])| <= |Flat(ps)|
    decreases |ps| - i
  {
    if i < |ps| {
      FlatTake(ps, i);
      FlatPart(ps, i + 1);
    } else {
      assert ps[..i] == ps;
    }
  }

  class PropertyList {
    var count: nat
    var maxCount: nat
    var length: int
    var elements: array?<Property>

    ghost predicate Valid()
      reads this
    {
      count <= maxCount && (if elements == null then count == maxCount == 0 else elements.Length == maxCount)
    }

    function Contents(): seq<Property>
      requires Valid()
      reads this, elements
    {
      if elements == null then [] else elements[..count]
    }

    /** The kept length is what the entries were counted as. */
    ghost predicate Counted()
      requires Valid()
      reads this, elements
    {
      length == Length(Contents()) && forall p | p in Contents() :: Proper(p)
    }

    constructor ()
      ensures Valid() && Contents() == [] && Counted() && elements == null
    {
      count, maxCount, length, elements := 0, 0, 0, null;
    }

    /** The array gets room for one more entry, ten at a time. */
    method Grow()
      requires Valid()
      modifies this
      ensures Valid() && count < maxCount && elements != null && count == old(count) && length == old(length)
      ensures elements[..count] == old(Contents()) && (fresh(elements) || elements == old(elements))
    {
      if elements == null {
        maxCount := 10;
        elements := new Property[10];
      } else if count == maxCount {
        maxCount := maxCount + 10;
        var bigger := new Property[maxCount];
        forall i | 0 <= i < count { bigger[i] := elements[i]; }
        elements := bigger;
      }
    }

    /** MQTTProperties_add */
    method Add(prop: Property) returns (rc: int)
      requires Valid() && Counted() && (TypeOf(prop.id).Some? ==> Proper(prop))
      modifies this, elements
      ensures Valid() && Counted()
      ensures TypeOf(prop.id) == None ==> rc == INVALID_PROPERTY_ID && Contents() == old(Contents())
      ensures TypeOf(prop.id).Some? ==> rc == 0 && Contents() == old(Contents()) + [prop]
      ensures elements == old(elements) || fresh(elements)
    {
      hide Proper, LenOf, NAMES_TO_TYPES, Search;
      if TypeOf(prop.id) == None { return INVALID_PROPERTY_ID; }
      ghost var was := Contents();
      Grow();
      elements[count] := prop;
      count := count + 1;
      LengthAppend(was, prop);
      assert Contents() == was + [prop];
      length := length + LenOf(prop);
      rc := 0;
    }

    /** MQTTProperties_len */
    function Len(): int
      reads this
    {
      length + VbiLen(length)
    }

    /**
     * MQTTProperties_write. Its own return value always counts one byte for the length and is left out;
     * the pointer moves by the bytes written.
     */
    method Write(out: OutBuffer)
      requires
        && Valid() && Counted() && length >= 0 && out.Room(|Written(Contents())|)
        && (elements == null || (out.buf as object) != (elements as object))
      modifies out, out.buf
      ensures out.pos == old(out.pos) + |Written(Contents())| && out.Room(0)
      ensures out.Done() == old(out.Done()) + Written(Contents())
    {
      hide Wire, Proper, Encode, Length;
      ghost var ps, was := Contents(), out.Done();
      out.WriteVbi(length);
      ghost var head := Encode(length);
      var i := 0;
      assert ps[..0] == [];
      while i < count
        invariant i <= count && Contents() == ps && |ps| == count && length == Length(ps)
                  && |Flat(ps[..i])| <= |Flat(ps)|
        invariant out.pos == old(out.pos) + |head| + |Flat(ps[..i])| && out.Room(|Flat(ps)| - |Flat(ps[..i])|)
        invariant out.pos <= out.buf.Length && out.Done() == was + (head + Flat(ps[..i]))
      {
        FlatTake(ps, i);
        FlatPart(ps, i + 1);
        ghost var done := out.Done();
        assert ps[i] in ps;
        out.WriteProperty(elements[i]);
        assert done + Wire(ps[i]) == was + (head + Flat(ps[..i + 1])) by {
          assert (was + (head + Flat(ps[..i]))) + Wire(ps[i]) == was + (head + (Flat(ps[..i]) + Wire(ps[i])));
        }
        i := i + 1;
      }
      assert ps[..i] == ps;
    }

    /**
     * The pointer moves by exactly MQTTProperties_len when every variable byte integer, and the length, fits four
     * bytes.
     */
    lemma LenIff()
      requires Valid() && Counted()
      ensures Len() <= |Written(Contents())|
      ensures Len() == |Written(Contents())| <==> length < VBI_LIMIT && forall p | p in Contents() :: p.value.Vbi? ==>
                p.value.n < VBI_LIMIT
    {
      LengthIff(Contents());
      VbiLenIff(length);
    }

    /** MQTTProperties_free: the list is as it was initialised. */
    method Free()
      modifies this
      ensures Valid() && Contents() == []
    {
      count, maxCount, length, elements := 0, 0, 0, null;
    }

    /**
     * MQTTProperties_read into an initialised list: 1 when the list is there, 0 when it is refused, and -1 for
     * bytes on which the code reads past the buffer. `used` is how far the pointer has moved.
     */
    method Read(m: seq<byte>, left: int) returns (rc: int, used: nat)
      requires Valid() && elements == null
      modifies this
      ensures Valid() && (rc == 1 || rc == 0 || rc == -1)
      ensures rc == 1 <==> Properties.Read(m, left).Got?
      ensures rc == 1 ==> Properties.Read(m, left) == Got(Contents(), used)
      ensures rc == 0 <==> Properties.Read(m, left) == Refused
      ensures rc != 1 ==> Contents() == []
    {
      hide ReadProperty, ReadVbi, ReadList;
      rc, used := 0, 0;
      if left > 0 {
        match ReadVbi(m, 0) {
          case Overrun => rc := -1;
          case Refused => rc := -1;
          case Got(v, n) =>
            length, used := v, n;
            if n > |m| { Free(); return -1, used; }
            rc, used := ReadEntries(m[n..], left - n, v);
            used := n + used;
        }
      }
      if rc != 1 { Free(); }
    }

    method ReadEntries(m: seq<byte>, left: int, v: int) returns (rc: int, used: nat)
      requires Valid() && elements == null && v >= 0
      modifies this
      ensures Valid() && (rc == 1 || rc == 0 || rc == -1)
      ensures rc == 1 ==> ReadList(m, left, v) == Got(Contents(), used)
      ensures rc == 0 ==> ReadList(m, left, v) == Refused
      ensures rc == -1 ==> ReadList(m, left, v) == Overrun
    {
      hide ReadProperty, ReadList;
      var remlength := v;
      used, rc := 0, 0;
      assert m[0..] == m;
      ghost var whole := ReadList(m, left, v);
      WithNone(ReadList(m, left, v));
      while remlength > 0
        invariant Valid() && used <= |m| && remlength >= 0 && (elements == null || fresh(elements))
        invariant whole == With(Contents(), used, ReadList(m[used..], left - used, remlength))
        decreases |m| - used
      {
        var rest := m[used..];
        ListUnfold(rest, left - used, remlength);
        match ReadProperty(rest, left - used) {
          case Refused => return 0, used;
          case Overrun => return -1, used;
          case Got(p, proplen) =>
            if proplen > |rest| { return -1, used; }
            ghost var was := Contents();
            WithMore(was, used, p, proplen,
                ReadList(rest[proplen..], left - used - proplen, (remlength - proplen) % 0x1_0000_0000));
            assert rest[proplen..] == m[used + proplen..];
            Grow();
            elements[count] := p;
            count := count + 1;
            assert Contents() == was + [p];
            remlength := (remlength - proplen) % 0x1_0000_0000;
            used := used + proplen;
        }
      }
      ListZero(m[used..], left - used);
      assert Contents() + [] == Contents();
      rc := 1;
    }
  }

  lemma ListZero(m: seq<byte>, left: int)
    ensures ReadList(m, left, 0) == Got([], 0)
  {
  }

  /** A result behind entries already read. */
  ghost function With(ps: seq<Property>, k: nat, t: Got<seq<Property>>): Got<seq<Property>> {
    match t
    case Got(qs, n) => Got(ps + qs, k + n)
    case Refused => Refused
    case Overrun => Overrun
  }

  lemma WithNone(t: Got<seq<Property>>)
    ensures With([], 0, t) == t
  {
    if t.Got? { assert [] + t.value == t.value; }
  }

  lemma WithMore(ps: seq<Property>, k: nat, p: Property, n: nat, t: Got<seq<Property>>)
    ensures With(ps, k, if t.Got? then Got([p] + t.value, n + t.pos) else if t.Refused? then Refused
              else Overrun) == With(ps + [p], k + n, t)
  {
    if t.Got? { assert ps + ([p] + t.value) == (ps + [p]) + t.value; }
  }

  lemma EncodeStep(n: nat)
    ensures Encode(n) == if n < 128 then [n] else [n % 128 + 128] + Encode(n / 128)
  {
  }
}
