/** MQTT 5 properties: their bytes, and what reading the bytes gives back (MQTTProperties.c). */
module Properties {
  import opened Common
  import opened Packets
  import opened Frames
  import opened Codec

  datatype Kind = BYTE | TWO_BYTE_INTEGER | FOUR_BYTE_INTEGER | VARIABLE_BYTE_INTEGER | BINARY_DATA
      | UTF_8_ENCODED_STRING | UTF_8_STRING_PAIR

  /** The member of the value union that the identifier's type selects. */
  datatype Value = Byte(b: byte) | Two(n: int) | Four(n: int) | Vbi(n: int) | Data(data: seq<byte>)
      | Pair(name: seq<byte>, data: seq<byte>)

  datatype Property = Property(id: byte, value: Value)

  /** namesToTypes */
  const NAMES_TO_TYPES: seq<(byte, Kind)> := [
    (1, BYTE), (2, FOUR_BYTE_INTEGER), (3, UTF_8_ENCODED_STRING), (8, UTF_8_ENCODED_STRING), (9, BINARY_DATA),
    (11, VARIABLE_BYTE_INTEGER), (17, FOUR_BYTE_INTEGER), (18, UTF_8_ENCODED_STRING), (19, TWO_BYTE_INTEGER),
    (21, UTF_8_ENCODED_STRING), (22, BINARY_DATA), (23, BYTE), (24, FOUR_BYTE_INTEGER), (25, BYTE),
    (26, UTF_8_ENCODED_STRING), (28, UTF_8_ENCODED_STRING), (31, UTF_8_ENCODED_STRING), (33, TWO_BYTE_INTEGER),
    (34, TWO_BYTE_INTEGER), (35, TWO_BYTE_INTEGER), (36, BYTE), (37, BYTE), (38, UTF_8_STRING_PAIR),
    (39, FOUR_BYTE_INTEGER), (40, BYTE), (41, BYTE), (42, BYTE)]

  function Search(table: seq<(byte, Kind)>, id: byte): Option<Kind> {
    if table == [] then None else if table[0].0 == id then Some(table[0].1) else Search(table[1..], id)
  }

  /** MQTTProperty_getType */
  function TypeOf(id: byte): Option<Kind> { Search(NAMES_TO_TYPES, id) }

  /** The value is of the identifier's type and in the range of the union's member. */
  predicate Proper(p: Property) {
    match TypeOf(p.id)
    case None => false
    case Some(BYTE) => p.value.Byte?
    case Some(TWO_BYTE_INTEGER) => p.value.Two? && 0 <= p.value.n < 0x1_0000
    case Some(FOUR_BYTE_INTEGER) => p.value.Four? && 0 <= p.value.n < 0x1_0000_0000
    case Some(VARIABLE_BYTE_INTEGER) => p.value.Vbi? && 0 <= p.value.n < 0x1_0000_0000
    case Some(UTF_8_STRING_PAIR) => p.value.Pair?
    case _ => p.value.Data?
  }

  /** What MQTTProperty_write writes behind the identifier. */
  function Body(v: Value): seq<byte> {
    match v
    case Byte(b) => [b]
    case Two(n) => Int2(n)
    case Four(n) => Int4(Signed(n))
    case Vbi(n) => if n >= 0 then Encode(n) else []
    case Data(d) => LenString(d)
    case Pair(d, e) => LenString(d) + LenString(e)
  }

  function Wire(p: Property): seq<byte> { [p.id] + Body(p.value) }

  function Flat(ps: seq<Property>): seq<byte> {
    if ps == [] then [] else Wire(ps[0]) + Flat(ps[1..])
  }

  /** What MQTTProperties_add counts for a property. */
  function LenOf(p: Property): nat {
    1 + match p.value
        case Byte(_) => 1
        case Two(_) => 2
        case Four(_) => 4
        case Vbi(n) => VbiLen(Signed(n))
        case Data(d) => 2 + |d|
        case Pair(d, e) => 4 + |d| + |e|
  }

  function Length(ps: seq<Property>): nat {
    if ps == [] then 0 else LenOf(ps[0]) + Length(ps[1..])
  }

  /** MQTTProperties_write: the length as the list keeps it, then the entries. */
  function Written(ps: seq<Property>): seq<byte> { Encode(Length(ps)) + Flat(ps) }

  // ----- reading -----

  /** MQTTProperty_read on the bytes m, of which `left` are before the end of the data. */
  function ReadProperty(m: seq<byte>, left: int): (r: Got<Property>)
    ensures r.Got? ==> r.pos > 1
  {
    if m == [] then Overrun
    else
      match TypeOf(m[0])
      case None => Refused
      case Some(BYTE) => (match ReadChar(m, 1) case Got(b, p) => Got(Property(m[0], Byte(b)), p) case _ => Overrun)
      case Some(TWO_BYTE_INTEGER) => (match ReadInt(m, 1) case Got(n, p) => Got(Property(m[0], Two(n)), p)
          case _ => Overrun)
      case Some(FOUR_BYTE_INTEGER) => (match ReadInt4(m, 1) case Got(n, p) => Got(Property(m[0], Four(n)), p)
          case _ => Overrun)
      case Some(VARIABLE_BYTE_INTEGER) => (match ReadVbi(m, 1) case Got(n, p) => Got(Property(m[0], Vbi(n)), p)
          case _ => Overrun)
      case Some(UTF_8_STRING_PAIR) =>
        (match ReadLenString(m, 1, if left < 0 then 0 else left)
         case Got(d, p) =>
           (match ReadLenString(m, p, if left < 0 then 0 else left)
            case Got(e, q) => Got(Property(m[0], Pair(d, e)), q)
            case Refused => Refused
            case Overrun => Overrun)
         case Refused => Refused
         case Overrun => Overrun)
      case _ =>
        (match ReadLenString(m, 1, if left < 0 then 0 else left)
         case Got(d, p) => Got(Property(m[0], Data(d)), p)
         case Refused => Refused
         case Overrun => Overrun)
  }

  /** The loop of MQTTProperties_read; `rem` is an unsigned int. */
  function ReadList(m: seq<byte>, left: int, rem: int): Got<seq<Property>>
    decreases |m|
  {
    if rem == 0 then Got([], 0)
    else
      match ReadProperty(m, left)
      case Refused => Refused
      case Overrun => Overrun
      case Got(p, n) =>
        if n > |m| then Overrun
        else
          match ReadList(m[n..], left - n, (rem - n) % 0x1_0000_0000)
          case Refused => Refused
          case Overrun => Overrun
          case Got(ps, k) => Got([p] + ps, n + k)
  }

  function Read(m: seq<byte>, left: int): Got<seq<Property>> {
    if left <= 0 then Refused
    else
      match ReadVbi(m, 0)
      case Got(v, n) =>
        if n > |m| then Overrun
        else (match ReadList(m[n..], left - n, v) case Got(ps, k) => Got(ps, n + k) case Refused => Refused
            case Overrun => Overrun)
      case _ => Overrun
  }

  // ----- what comes back -----

  /**
   * The values that survive: four-byte integers an int can hold, or multiples of 2^24; lengths that fit their encoding.
   */
  predicate Faithful(p: Property) {
    match p.value
    case Four(n) => n < 0x8000_0000 || n % 16777216 == 0
    case Vbi(n) => n < VBI_LIMIT
    case Data(d) => |d| < 65536
    case Pair(d, e) => |d| < 65536 && |e| < 65536
    case _ => true
  }

  lemma LenIff(p: Property)
    requires Proper(p)
    ensures LenOf(p) <= |Wire(p)|
    ensures LenOf(p) == |Wire(p)| <==> p.value.Vbi? ==> p.value.n < VBI_LIMIT
  {
    if p.value.Vbi? { VbiLenIff(p.value.n); }
  }

  /** The kept length is the length of the bytes exactly if every variable byte integer fits four bytes. */
  lemma {:induction false} LengthIff(ps: seq<Property>)
    requires forall p | p in ps :: Proper(p)
    ensures Length(ps) <= |Flat(ps)|
    ensures Length(ps) == |Flat(ps)| <==> forall p | p in ps :: p.value.Vbi? ==> p.value.n < VBI_LIMIT
  {
    if ps != [] {
      LenIff(ps[0]);
      LengthIff(ps[1..]);
      LengthCons(ps);
      HeadAndTail(ps);
      hide Length, Flat, Wire, LenOf, Proper;
    }
  }

  lemma HeadAndTail(ps: seq<Property>)
    requires ps != []
    ensures forall p :: p in ps <==> p == ps[0] || p in ps[1..]
  {
    assert ps == [ps[0]] + ps[1..];
  }

  lemma LengthCons(ps: seq<Property>)
    requires ps != []
    ensures Length(ps) == LenOf(ps[0]) + Length(ps[1..]) && |Flat(ps)| == |Wire(ps[0])| + |Flat(ps[1..])|
  {
  }

  lemma ReadFour(id: byte, n: int, more: seq<byte>)
    requires 0 <= n < 0x1_0000_0000
    ensures var m := [id] + Int4(Signed(n)) + more;
            ReadInt4(m, 1) == Got(Value4(Int4(Signed(n))), 5)
                && (Value4(Int4(Signed(n))) == n <==> Faithful(Property(id, Four(n))))
  {
    Int4Iff(n);
    var m := [id] + Int4(Signed(n)) + more;
    assert m[1..5] == Int4(Signed(n));
  }

  lemma ReadTwo(id: byte, n: int, more: seq<byte>)
    requires 0 <= n < 0x1_0000
    ensures ReadInt([id] + Int2(n) + more, 1) == Got(n, 3)
  {
    Int2Is(n);
    var m := [id] + Int2(n) + more;
    assert m[1] == Int2(n)[0] && m[2] == Int2(n)[1];
  }

  /** The least number that needs more than 4 - k bytes. */
  function TooLong(k: nat): (n: int)
    requires k <= 4
    ensures k < 4 ==> n >= 128
    decreases 4 - k
  {
    if k == 4 then 0 else if k == 3 then 128 else 128 * TooLong(k + 1)
  }

  /** An encoding of more than four bytes is bad data. */
  lemma {:induction false} EncodeLong(n: nat, k: nat, more: seq<byte>)
    requires k <= 4 && n >= TooLong(k)
    ensures LengthOf(Encode(n) + more, k) == Bad
    decreases 4 - k
  {
    if k < 4 {
      var b := Encode(n) + more;
      assert n >= 128;
      assert b[1..] == Encode(n / 128) + more;
      EncodeLong(n / 128, k + 1, more);
    }
  }

  lemma ReadVariable(id: byte, n: int, more: seq<byte>)
    requires 0 <= n
    ensures var m := [id] + Encode(n) + more;
            (n < VBI_LIMIT ==> ReadVbi(m, 1) == Got(n, 1 + |Encode(n)|))
            && (n >= VBI_LIMIT ==> (ReadVbi(m, 1).Got? ==> ReadVbi(m, 1).value != n))
  {
    var m := [id] + Encode(n) + more;
    assert m[1..] == Encode(n) + more;
    VbiLenIff(n);
    if n < VBI_LIMIT {
      DecodeEncode(n, 0, more);
    } else {
      assert TooLong(0) == 128 * TooLong(1) && TooLong(1) == 128 * TooLong(2) && TooLong(2) == 128 * TooLong(3);
      EncodeLong(n, 0, more);
      if 5 <= |m| { PartialBound(m[1..5]); }
    }
  }

  lemma PartialBound(b: seq<byte>)
    requires |b| == 4
    ensures Partial(b) < VBI_LIMIT
  {
    assert Partial(b) == b[0] - 128 + 128 * Partial(b[1..]);
    assert Partial(b[1..]) == b[1] - 128 + 128 * Partial(b[1..][1..]);
    assert Partial(b[1..][1..]) == b[2] - 128 + 128 * Partial(b[1..][1..][1..]);
    assert Partial(b[1..][1..][1..]) == b[3] - 128 + 128 * Partial(b[1..][1..][1..][1..]);
    assert b[1..][1..][1..][1..] == [];
  }

  lemma StringSlices(pre: seq<byte>, i: seq<byte>, d: seq<byte>, more: seq<byte>)
    requires |i| == 2
    ensures var m := pre + (i + d) + more;
            && m[|pre|] == i[0] && m[|pre| + 1] == i[1] && |m| == |pre| + 2 + |d| + |more|
                 && m[|pre| + 2..|pre| + 2 + |d|] == d
  {
    var m := pre + (i + d) + more;
    assert m == (pre + i) + d + more;
  }

  /** A string read behind other bytes. */
  lemma ReadString(pre: seq<byte>, d: seq<byte>, more: seq<byte>)
    ensures var m := pre + LenString(d) + more; var r := ReadLenString(m, |pre|, |m|);
            (|d| < 65536 ==> r == Got(d, |pre| + 2 + |d|)) && (|d| >= 65536 ==> (r.Got? ==> r.value != d))
  {
    Int2Is(|d|);
    hide Int2;
    StringSlices(pre, Int2(|d|), d, more);
    var m := pre + LenString(d) + more;
    ReadLenStringIs(m, |pre|, |m|);
    hide ReadLenString;
  }

  /** One property is read back, and no more than its bytes are used, exactly if its value survives. */
  lemma ReadWireIff(p: Property, more: seq<byte>)
    requires Proper(p)
    ensures var m := Wire(p) + more; var r := ReadProperty(m, |m|);
            (Faithful(p) ==> r == Got(p, |Wire(p)|)) && (!Faithful(p) ==> (r.Got? ==> r.value != p))
  {
    hide NAMES_TO_TYPES, ReadLenString, ReadVbi, ReadInt4, ReadInt, LenString, Int2, Int4, Encode, TypeOf;
    var m := Wire(p) + more;
    assert m[0] == p.id && m == [p.id] + Body(p.value) + more;
    match p.value
    case Byte(b) =>
    case Two(n) => ReadTwo(p.id, n, more); Int2Is(n);
    case Four(n) => ReadFour(p.id, n, more); Int4Iff(n);
    case Vbi(n) => ReadVariable(p.id, n, more);
    case Data(d) => ReadString([p.id], d, more); LenStringLength(d);
    case Pair(d, e) => ReadPair(p.id, d, e, more);
  }

  lemma LenStringLength(d: seq<byte>)
    ensures |LenString(d)| == 2 + |d|
  {
  }

  lemma ReadPair(id: byte, d: seq<byte>, e: seq<byte>, more: seq<byte>)
    ensures var m := [id] + (LenString(d) + LenString(e)) + more; var r := ReadLenString(m, 1, |m|);
            && |LenString(d)| == 2 + |d| && |LenString(e)| == 2 + |e|
            && (|d| < 65536 ==> r == Got(d, 3 + |d|)) && (|d| >= 65536 ==> (r.Got? ==> r.value != d))
            && (|d| < 65536 ==> var q := ReadLenString(m, 3 + |d|, |m|);
                                (|e| < 65536 ==> q == Got(e, 5 + |d| + |e|))
                                    && (|e| >= 65536 ==> (q.Got? ==> q.value != e)))
  {
    LenStringLength(d);
    LenStringLength(e);
    hide ReadLenString, LenString;
    var m := [id] + (LenString(d) + LenString(e)) + more;
    assert m == [id] + LenString(d) + (LenString(e) + more);
    ReadString([id], d, LenString(e) + more);
    assert m == ([id] + LenString(d)) + LenString(e) + more;
    ReadString([id] + LenString(d), e, more);
  }

  lemma ListEmpty(more: seq<byte>)
    ensures ReadList([] + more, |[] + more|, 0) == Got([], 0)
  {
  }

  /** A list is read back whole, and exactly its bytes are used, exactly if every value survives. */
  lemma {:induction false} ReadListIff(ps: seq<Property>, more: seq<byte>)
    requires (forall p | p in ps :: Proper(p)) && Length(ps) < VBI_LIMIT
    ensures var m := Flat(ps) + more;
            ReadList(m, |m|, Length(ps)) == Got(ps, |Flat(ps)|) <==> forall p | p in ps :: Faithful(p)
  {
    hide ReadProperty, ReadList, Wire, Proper, Faithful, LenOf;
    ListEmpty(more);
    if ps != [] {
      var p, rest := ps[0], ps[1..];
      AllFaithful(ps);
      var m := Flat(ps) + more;
      assert ps == [p] + rest && p in ps;
      assert m == Wire(p) + (Flat(rest) + more);
      var n := Flat(rest) + more;
      ReadWireIff(p, n);
      LenIff(p);
      FaithfulVbi(p);
      PositiveLen(p);
      ReadListIff(rest, more);
      if Faithful(p) {
        assert m[|Wire(p)|..] == n;
        ListGoesOn(p, rest, m, n, |Wire(p)|, Length(rest), |Flat(rest)|);
      } else {
        ListSpoilt(p, rest, m, Length(ps), |Flat(ps)|);
      }
    }
  }

  lemma AllFaithful(ps: seq<Property>)
    requires ps != []
    ensures (forall p | p in ps :: Faithful(p)) <==> Faithful(ps[0]) && forall p | p in ps[1..] :: Faithful(p)
  {
    hide Faithful;
    HeadAndTail(ps);
  }

  lemma ListUnfold(m: seq<byte>, left: int, rem: int)
    requires rem > 0
    ensures var r := ReadProperty(m, left);
            && (r.Refused? ==> ReadList(m, left, rem) == Refused) && (r.Overrun? ==> ReadList(m, left, rem) == Overrun)
            && (r.Got? && r.pos <= |m| ==>
                  var t := ReadList(m[r.pos..], left - r.pos, (rem - r.pos) % 0x1_0000_0000);
                  ReadList(m, left, rem) == (if t.Got? then Got([r.value] + t.value, r.pos + t.pos)
                      else if t.Refused? then Refused else Overrun))
            && (r.Got? && r.pos > |m| ==> ReadList(m, left, rem) == Overrun)
  {
    hide ReadProperty;
  }

  lemma ConsEqual<T>(p: T, ps: seq<T>, q: T, qs: seq<T>)
    ensures [p] + ps == [q] + qs <==> p == q && ps == qs
  {
    if [p] + ps == [q] + qs {
      assert p == ([p] + ps)[0] == ([q] + qs)[0] == q;
      assert ps == ([p] + ps)[1..] == ([q] + qs)[1..] == qs;
    }
  }

  /** A first entry that does not survive spoils the list. */
  lemma ListSpoilt(p: Property, rest: seq<Property>, m: seq<byte>, rem: int, k: nat)
    requires rem > 0 && (ReadProperty(m, |m|).Got? ==> ReadProperty(m, |m|).value != p)
    ensures ReadList(m, |m|, rem) != Got([p] + rest, k)
  {
    hide ReadProperty, ReadList;
    ListUnfold(m, |m|, rem);
    var r := ReadProperty(m, |m|);
    if r.Got? && r.pos <= |m| {
      var t := ReadList(m[r.pos..], |m| - r.pos, (rem - r.pos) % 0x1_0000_0000);
      if t.Got? { ConsEqual(r.value, t.value, p, rest); }
    }
  }

  /** Behind a first entry that does, the rest is read. */
  lemma ListGoesOn(p: Property, rest: seq<Property>, m: seq<byte>, n: seq<byte>, w: nat, rem: nat, k: nat)
    requires ReadProperty(m, |m|) == Got(p, w) && w > 0 && w <= |m| && m[w..] == n && rem < VBI_LIMIT
    ensures ReadList(m, |m|, w + rem) == Got([p] + rest, w + k) <==> ReadList(n, |n|, rem) == Got(rest, k)
  {
    hide ReadProperty, ReadList;
    ListUnfold(m, |m|, w + rem);
    var t := ReadList(n, |n|, rem);
    if t.Got? { ConsEqual(p, t.value, p, rest); }
  }

  lemma PositiveLen(p: Property)
    ensures LenOf(p) > 0
  {
  }

  lemma FaithfulVbi(p: Property)
    ensures Faithful(p) ==> (p.value.Vbi? ==> p.value.n < VBI_LIMIT)
  {
  }

  /**
   * For a list no longer than a packet can be, MQTTProperties_read gives back what MQTTProperties_write wrote,
   * and uses exactly those bytes, if and only if every value survives its encoding.
   */
  lemma RoundTripIff(ps: seq<Property>, more: seq<byte>)
    requires (forall p | p in ps :: Proper(p)) && Length(ps) < VBI_LIMIT
    ensures var m := Written(ps) + more;
            Read(m, |m|) == Got(ps, |Written(ps)|) <==> forall p | p in ps :: Faithful(p)
  {
    hide Flat, Length, Proper, Faithful, ReadList, Encode, LengthOf;
    var m, n, e := Written(ps) + more, Flat(ps) + more, Encode(Length(ps));
    assert m == e + n;
    VbiLenIff(Length(ps));
    DecodeEncode(Length(ps), 0, n);
    ReadListIff(ps, more);
    ReadBehind(e, n, Length(ps));
    assert |Written(ps)| == |e| + |Flat(ps)|;
  }

  /** Behind a length that is read whole comes the list. */
  lemma ReadBehind(e: seq<byte>, n: seq<byte>, v: int)
    requires e != [] && LengthOf(e + n, 0) == Full(|e|, v)
    ensures var m := e + n; var t := ReadList(n, |n|, v);
            Read(m, |m|) == match t case Got(ps, k) => Got(ps, |e| + k) case Refused => Refused case Overrun => Overrun
  {
    hide ReadList, LengthOf;
    var m := e + n;
    assert m[0..] == m && m[|e|..] == n;
  }

  lemma {:induction false} SearchAt(table: seq<(byte, Kind)>, i: nat)
    requires i < |table| && forall j | 0 <= j < i :: table[j].0 != table[i].0
    ensures Search(table, table[i].0) == Some(table[i].1)
  {
    if i > 0 { SearchAt(table[1..], i - 1); }
  }

  /** Every entry of the table is found. */
  lemma TableFound(i: nat)
    requires i < |NAMES_TO_TYPES|
    ensures TypeOf(NAMES_TO_TYPES[i].0) == Some(NAMES_TO_TYPES[i].1)
  {
    TableDistinct();
    SearchAt(NAMES_TO_TYPES, i);
  }

  lemma TableDistinct()
    ensures forall i, j | 0 <= i < j < |NAMES_TO_TYPES| :: NAMES_TO_TYPES[i].0 < NAMES_TO_TYPES[j].0
  {
  }

  /** The types of section 2.2.2.2 of MQTT 5, by identifier. */
  function SpecifiedType(id: byte): Option<Kind> {
    match id
    case 1 | 23 | 25 | 36 | 37 | 40 | 41 | 42 => Some(BYTE)
    case 19 | 33 | 34 | 35 => Some(TWO_BYTE_INTEGER)
    case 2 | 17 | 24 | 39 => Some(FOUR_BYTE_INTEGER)
    case 11 => Some(VARIABLE_BYTE_INTEGER)
    case 9 | 22 => Some(BINARY_DATA)
    case 3 | 8 | 18 | 21 | 26 | 28 | 31 => Some(UTF_8_ENCODED_STRING)
    case 38 => Some(UTF_8_STRING_PAIR)
    case _ => None
  }

  /** What a search finds is an entry of the table; it finds nothing only if there is none. */
  lemma {:induction false} SearchIs(table: seq<(byte, Kind)>, id: byte)
    ensures match Search(table, id)
            case Some(k) => (id, k) in table
            case None => forall e | e in table :: e.0 != id
  {
    if table != [] && table[0].0 != id { SearchIs(table[1..], id); }
  }

  lemma EntriesSpecified(e: (byte, Kind))
    requires e in NAMES_TO_TYPES
    ensures SpecifiedType(e.0) == Some(e.1)
  {
  }

  lemma SpecifiedEntries(id: byte)
    requires SpecifiedType(id).Some?
    ensures exists e :: e in NAMES_TO_TYPES && e.0 == id
  {
    var k := SpecifiedType(id).value;
    assert (id, k) in NAMES_TO_TYPES;
  }

  /** Every identifier has the type the standard gives it, and no other number is one. */
  lemma TypeIs(id: byte)
    ensures TypeOf(id) == SpecifiedType(id)
  {
    hide NAMES_TO_TYPES, Search, SpecifiedType;
    SearchIs(NAMES_TO_TYPES, id);
    match TypeOf(id)
    case Some(k) => EntriesSpecified((id, k));
    case None => if SpecifiedType(id).Some? { SpecifiedEntries(id); }
  }

  /** The session expiry interval that means "never" comes back as 255 seconds. */
  lemma NeverExpiresLost(more: seq<byte>)
    ensures var p := Property(17, Four(0xFFFF_FFFF));
              Proper(p) && ReadProperty(Wire(p) + more, 5) == Got(Property(17, Four(255)), 5)
  {
    hide NAMES_TO_TYPES, Search;
    Int4Minus(0, 0, 0, 1);
    SeventeenIsFour();
    var b := Int4(Signed(0xFFFF_FFFF));
    var m := [17] + b + more;
    assert Signed(0xFFFF_FFFF) == -1;
    assert b == [0, 0, 0, 255];
    assert m == Wire(Property(17, Four(0xFFFF_FFFF))) + more;
    hide Int4;
    assert m[1..5] == b && m[0] == 17;
    FourRead(m);
  }

  lemma FourRead(m: seq<byte>)
    requires |m| >= 5 && m[0] == 17 && m[1..5] == [0, 0, 0, 255] && TypeOf(17) == Some(FOUR_BYTE_INTEGER)
    ensures ReadProperty(m, 5) == Got(Property(17, Four(255)), 5)
  {
    hide TypeOf;
    assert m[1] == m[1..5][0] && m[2] == m[1..5][1] && m[3] == m[1..5][2] && m[4] == m[1..5][3];
  }

  lemma SeventeenIsFour()
    ensures TypeOf(17) == Some(FOUR_BYTE_INTEGER)
  {
    SearchAt(NAMES_TO_TYPES, 6);
  }
}
