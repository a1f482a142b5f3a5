/** UTF-8 validation (utf-8.c) against the encoding of RFC 3629, section 3. */
module Utf8 {
  import opened Packets

  // ----- the encoding -----

  predicate Scalar(c: int) { 0 <= c < 0xD800 || 0xE000 <= c < 0x11_0000 }

  function EncodeChar(c: int): (b: seq<byte>)
    requires Scalar(c)
    ensures 1 <= |b| <= 4
  {
    if c < 0x80 then [c]
    else if c < 0x800 then [0xC0 + c / 64, 0x80 + c % 64]
    else if c < 0x1_0000 then [0xE0 + c / 4096, 0x80 + c / 64 % 64, 0x80 + c % 64]
    else [0xF0 + c / 262144, 0x80 + c / 4096 % 64, 0x80 + c / 64 % 64, 0x80 + c % 64]
  }

  function Encode(cs: seq<int>): seq<byte>
    requires forall c | c in cs :: Scalar(c)
  {
    if cs == [] then [] else EncodeChar(cs[0]) + Encode(cs[1..])
  }

  // ----- the validator -----

  datatype Row = Row(len: nat, bytes: seq<(int, int)>)

  const VALID_RANGES: seq<Row> := [
    Row(1, [(0x00, 0x7F)]),
    Row(2, [(0xC2, 0xDF), (0x80, 0xBF)]),
    Row(3, [(0xE0, 0xE0), (0xA0, 0xBF), (0x80, 0xBF)]),
    Row(3, [(0xE1, 0xEC), (0x80, 0xBF), (0x80, 0xBF)]),
    Row(3, [(0xED, 0xED), (0x80, 0x9F), (0x80, 0xBF)]),
    Row(3, [(0xEE, 0xEF), (0x80, 0xBF), (0x80, 0xBF)]),
    Row(4, [(0xF0, 0xF0), (0x90, 0xBF), (0x80, 0xBF), (0x80, 0xBF)]),
    Row(4, [(0xF1, 0xF3), (0x80, 0xBF), (0x80, 0xBF), (0x80, 0xBF)]),
    Row(4, [(0xF4, 0xF4), (0x80, 0x8F), (0x80, 0xBF), (0x80, 0xBF)])]

  /** A byte as a char, which a compiler may make signed. */
  function AsChar(signed: bool, b: int): int { if signed && b >= 128 then b - 256 else b }

  predicate InRange(signed: bool, b: byte, range: (int, int)) {
    AsChar(signed, range.0) <= AsChar(signed, b) <= AsChar(signed, range.1)
  }

  predicate RowMatches(signed: bool, row: Row, data: seq<byte>) {
    |row.bytes| <= |data| && forall j | 0 <= j < |row.bytes| :: InRange(signed, data[j], row.bytes[j])
  }

  /** The length the first byte announces. */
  function CharLen(b: byte): nat {
    if b < 128 then 1 else if b >= 0xF0 then 4 else if b >= 0xE0 then 3 else 2
  }

  predicate SomeRow(signed: bool, rows: seq<Row>, n: nat, data: seq<byte>) {
    exists i :: 0 <= i < |rows| && rows[i].len == n && RowMatches(signed, rows[i], data)
  }

  /** The number of bytes of the valid character at the front, or 0. */
  function Good(signed: bool, data: seq<byte>): nat {
    if data == [] || CharLen(data[0]) > |data| then 0
    else if SomeRow(signed, VALID_RANGES, CharLen(data[0]), data) then CharLen(data[0]) else 0
  }

  /** UTF8_char_validate: the number of bytes to go on by, 0 for the null pointer. */
  method CharValidate(signed: bool, data: seq<byte>) returns (n: nat)
    requires data != []
    ensures n == Good(signed, data)
  {
    var charlen := CharLen(data[0]);
    n := 0;
    if charlen > |data| { return; }
    TableLengths();
    var good := false;
    for i := 0 to |VALID_RANGES|
      invariant !good && !SomeRow(signed, VALID_RANGES[..i], charlen, data)
    {
      var row := VALID_RANGES[i];
      if row.len == charlen {
        good := true;
        for j := 0 to charlen
          invariant good && forall k | 0 <= k < j :: InRange(signed, data[k], row.bytes[k])
        {
          if AsChar(signed, data[j]) < AsChar(signed, row.bytes[j].0)
              || AsChar(signed, data[j]) > AsChar(signed, row.bytes[j].1) {
            good := false;
            assert !InRange(signed, data[j], row.bytes[j]);
            break;
          }
        }
        if good {
          assert RowMatches(signed, VALID_RANGES[i], data);
          n := charlen;
          return;
        }
      }
      assert VALID_RANGES[..i + 1] == VALID_RANGES[..i] + [row];
    }
    assert VALID_RANGES[..|VALID_RANGES|] == VALID_RANGES;
  }

  lemma TableLengths()
    ensures forall i | 0 <= i < |VALID_RANGES| :: |VALID_RANGES[i].bytes| == VALID_RANGES[i].len
  {
  }

  function Valid(signed: bool, data: seq<byte>): bool
    decreases |data|
  {
    data == [] || (Good(signed, data) > 0 && Good(signed, data) <= |data| && Valid(signed, data[Good(signed, data)..]))
  }

  /** UTF8_validate */
  method Validate(signed: bool, data: seq<byte>) returns (rc: bool)
    ensures rc <==> exists cs: seq<int> :: (forall c | c in cs :: Scalar(c)) && Encode(cs) == data
  {
    hide Good, Valid, Encode, Scalar;
    ValidIff(signed, data);
    ValidStep(signed, []);
    if data == [] { return true; }
    var at: nat := 0;
    assert data[0..] == data;
    while at < |data|
      invariant at <= |data| && (Valid(signed, data) <==> Valid(signed, data[at..]))
    {
      var rest := data[at..];
      var n := CharValidate(signed, rest);
      ValidStep(signed, rest);
      if n == 0 { return false; }
      assert rest[n..] == data[at + n..];
      at := at + n;
    }
    assert data[at..] == [];
    rc := true;
  }

  /** One character at a time. */
  lemma ValidStep(signed: bool, data: seq<byte>)
    ensures Good(signed, data) <= |data|
    ensures Valid(signed, data) <==> data == [] || (Good(signed, data) > 0 && Valid(signed, data[Good(signed, data)..]))
  {
    GoodFits(signed, data);
    hide Good;
  }

  lemma GoodFits(signed: bool, data: seq<byte>)
    ensures Good(signed, data) <= |data|
  {
  }

  // ----- what is valid -----

  /** The scalar value of a character's bytes. */
  function DecodeChar(b: seq<byte>): int
    requires 1 <= |b| <= 4
  {
    if |b| == 1 then b[0]
    else if |b| == 2 then 64 * (b[0] as int - 0xC0) + (b[1] as int - 0x80)
    else if |b| == 3 then 4096 * (b[0] as int - 0xE0) + 64 * (b[1] as int - 0x80) + (b[2] as int - 0x80)
    else 262144 * (b[0] as int - 0xF0) + 4096 * (b[1] as int - 0x80) + 64 * (b[2] as int - 0x80) + (b[3] as int - 0x80)
  }

  /** The well-formed byte sequences, written out. */
  predicate Proper(b: seq<byte>) {
    if |b| == 1 then b[0] < 128
    else if |b| == 2 then 0xC2 <= b[0] <= 0xDF && Trail(b[1])
    else if |b| == 3 then
      Trail(b[1]) && Trail(b[2])
          && ((b[0] == 0xE0 && b[1] >= 0xA0) || 0xE1 <= b[0] <= 0xEC || (b[0] == 0xED && b[1] <= 0x9F)
          || 0xEE <= b[0] <= 0xEF)
    else if |b| == 4 then
      Trail(b[1]) && Trail(b[2]) && Trail(b[3])
          && ((b[0] == 0xF0 && b[1] >= 0x90) || 0xF1 <= b[0] <= 0xF3 || (b[0] == 0xF4 && b[1] <= 0x8F))
    else false
  }

  predicate Trail(b: byte) { 0x80 <= b <= 0xBF }

  /** Whether chars are signed makes no difference to the ranges of the table. */
  lemma SignFree(signed: bool, b: byte, range: (int, int))
    requires range == (0, 0x7F) || (128 <= range.0 <= 255 && 128 <= range.1 <= 255)
    ensures InRange(signed, b, range) <==> range.0 <= b <= range.1
  {
  }

  lemma RowOne(signed: bool, i: nat, data: seq<byte>)
    requires i < |VALID_RANGES| && VALID_RANGES[i].len <= |data|
    ensures RowMatches(signed, VALID_RANGES[i], data) <==>
            forall j | 0 <= j < VALID_RANGES[i].len ::
                j < |VALID_RANGES[i].bytes| && VALID_RANGES[i].bytes[j].0 <= data[j] <= VALID_RANGES[i].bytes[j].1
  {
    hide InRange;
    TableLengths();
    var row := VALID_RANGES[i];
    forall j | 0 <= j < row.len ensures InRange(signed, data[j], row.bytes[j]) <==>
        row.bytes[j].0 <= data[j] <= row.bytes[j].1 {
      TableBounds(i, j);
      SignFree(signed, data[j], row.bytes[j]);
    }
  }

  lemma TableBounds(i: nat, j: nat)
    requires i < |VALID_RANGES| && j < |VALID_RANGES[i].bytes|
    ensures var r := VALID_RANGES[i].bytes[j]; r == (0, 0x7F) || (128 <= r.0 <= 255 && 128 <= r.1 <= 255)
  {
  }

  /** What the rows of one length accept. */
  lemma RowsSay(signed: bool, n: nat, data: seq<byte>)
    requires 1 <= n <= 4 && n <= |data|
    ensures SomeRow(signed, VALID_RANGES, n, data) <==> Proper(data[..n])
  {
    hide RowMatches;
    var b := data[..n];
    if SomeRow(signed, VALID_RANGES, n, data) {
      var i :| 0 <= i < |VALID_RANGES| && VALID_RANGES[i].len == n && RowMatches(signed, VALID_RANGES[i], data);
      RowOne(signed, i, data);
      RowProper(i, data);
    }
    if Proper(b) {
      var i := ProperRow(data, n);
      RowOne(signed, i, data);
    }
  }

  lemma RowProper(i: nat, data: seq<byte>)
    requires i < |VALID_RANGES| && VALID_RANGES[i].len <= |data|
    requires forall j | 0 <= j < VALID_RANGES[i].len ::
              j < |VALID_RANGES[i].bytes| && VALID_RANGES[i].bytes[j].0 <= data[j] <= VALID_RANGES[i].bytes[j].1
    ensures Proper(data[..VALID_RANGES[i].len])
  {
    var n := VALID_RANGES[i].len;
    assert 0 < n;
    assert n > 1 ==> VALID_RANGES[i].bytes[1].0 <= data[1] <= VALID_RANGES[i].bytes[1].1;
    assert n > 2 ==> VALID_RANGES[i].bytes[2].0 <= data[2] <= VALID_RANGES[i].bytes[2].1;
    assert n > 3 ==> VALID_RANGES[i].bytes[3].0 <= data[3] <= VALID_RANGES[i].bytes[3].1;
  }

  lemma ProperRow(data: seq<byte>, n: nat) returns (i: nat)
    requires 1 <= n <= 4 && n <= |data| && Proper(data[..n])
    ensures i < |VALID_RANGES| && VALID_RANGES[i].len == n
    ensures forall j | 0 <= j < n ::
              j < |VALID_RANGES[i].bytes| && VALID_RANGES[i].bytes[j].0 <= data[j] <= VALID_RANGES[i].bytes[j].1
  {
    var b := data[..n];
    i := if n == 1 then 0 else if n == 2 then 1
         else if n == 3 then (if b[0] == 0xE0 then 2 else if b[0] <= 0xEC then 3 else if b[0] == 0xED then 4 else 5)
         else (if b[0] == 0xF0 then 6 else if b[0] <= 0xF3 then 7 else 8);
  }

  lemma GoodIff(signed: bool, data: seq<byte>)
    ensures Good(signed, data) > 0 <==> data != [] && CharLen(data[0]) <= |data| && Proper(data[..CharLen(data[0])])
    ensures Good(signed, data) > 0 ==> Good(signed, data) == CharLen(data[0])
  {
    hide VALID_RANGES, Proper;
    if data != [] && CharLen(data[0]) <= |data| { RowsSay(signed, CharLen(data[0]), data); }
  }

  // ----- characters and their bytes -----

  lemma EncodedProper(c: int)
    requires Scalar(c)
    ensures Proper(EncodeChar(c)) && CharLen(EncodeChar(c)[0]) == |EncodeChar(c)|
  {
    if 0x800 <= c < 0x1_0000 {
      assert c / 4096 <= 15;
      Digits3(c);
    } else if c >= 0x1_0000 {
      Digits4(c);
    }
  }

  lemma Digits3(c: int)
    requires 0x800 <= c < 0x1_0000
    ensures c / 64 % 64 == c / 64 - 64 * (c / 4096) && c / 4096 < 16
    ensures c / 4096 == 0 ==> c / 64 % 64 >= 32
    ensures c < 0xD800 && c / 4096 == 13 ==> c / 64 % 64 < 32
    ensures c >= 0xE000 ==> c / 4096 >= 14
  {
  }

  lemma Digits4(c: int)
    requires 0x1_0000 <= c < 0x11_0000
    ensures c / 4096 % 64 == c / 4096 - 64 * (c / 262144) && c / 262144 < 5
    ensures c / 262144 == 0 ==> c / 4096 % 64 >= 16
    ensures c / 262144 == 4 ==> c / 4096 % 64 < 16
  {
  }

  lemma Split64(q: int, r: int)
    requires 0 <= r < 64 && q >= 0
    ensures (64 * q + r) / 64 == q && (64 * q + r) % 64 == r
  {
  }

  /** Three groups of six bits come apart. */
  lemma Groups(a: int, x: int, y: int)
    requires a >= 0 && 0 <= x < 64 && 0 <= y < 64
    ensures var c := 4096 * a + 64 * x + y; c / 4096 == a && c / 64 % 64 == x && c % 64 == y && c / 64 == 64 * a + x
  {
    Split64(64 * a + x, y);
    Split64(a, x);
  }

  lemma Groups4(a: int, w: int, x: int, y: int)
    requires a >= 0 && 0 <= w < 64 && 0 <= x < 64 && 0 <= y < 64
    ensures var c := 262144 * a + 4096 * w + 64 * x + y;
            c / 262144 == a && c / 4096 % 64 == w && c / 64 % 64 == x && c % 64 == y
  {
    Groups(64 * a + w, x, y);
    Split64(a, w);
  }

  lemma DecodesTwo(b: seq<byte>)
    requires Proper(b) && |b| == 2
    ensures Scalar(DecodeChar(b)) && EncodeChar(DecodeChar(b)) == b
  {
    Split64(b[0] - 0xC0, b[1] - 0x80);
  }

  lemma DecodesThree(b: seq<byte>)
    requires Proper(b) && |b| == 3
    ensures Scalar(DecodeChar(b)) && EncodeChar(DecodeChar(b)) == b
  {
    Groups(b[0] - 0xE0, b[1] - 0x80, b[2] - 0x80);
  }

  lemma DecodesFour(b: seq<byte>)
    requires Proper(b) && |b| == 4
    ensures Scalar(DecodeChar(b)) && EncodeChar(DecodeChar(b)) == b
  {
    Groups4(b[0] - 0xF0, b[1] - 0x80, b[2] - 0x80, b[3] - 0x80);
  }

  lemma ProperDecodes(b: seq<byte>)
    requires Proper(b)
    ensures 1 <= |b| <= 4 && Scalar(DecodeChar(b)) && EncodeChar(DecodeChar(b)) == b
  {
    if |b| == 2 { DecodesTwo(b); } else if |b| == 3 { DecodesThree(b); } else if |b| == 4 { DecodesFour(b); }
  }

  lemma {:induction false} EncodedValid(signed: bool, cs: seq<int>)
    requires forall c | c in cs :: Scalar(c)
    ensures Valid(signed, Encode(cs))
  {
    hide Good, Proper, EncodeChar, Scalar;
    if cs != [] {
      var b, rest := EncodeChar(cs[0]), Encode(cs[1..]);
      EncodedProper(cs[0]);
      EncodedValid(signed, cs[1..]);
      GoodIff(signed, b + rest);
      assert (b + rest)[..|b|] == b && (b + rest)[|b|..] == rest && (b + rest)[0] == b[0];
    }
  }

  lemma {:induction false} ValidDecodes(signed: bool, data: seq<byte>) returns (cs: seq<int>)
    requires Valid(signed, data)
    ensures (forall c | c in cs :: Scalar(c)) && Encode(cs) == data
    decreases |data|
  {
    hide Good, Proper, EncodeChar, Scalar, DecodeChar;
    if data == [] {
      cs := [];
    } else {
      var n := Good(signed, data);
      GoodIff(signed, data);
      ProperDecodes(data[..n]);
      var rest := ValidDecodes(signed, data[n..]);
      var c := DecodeChar(data[..n]);
      cs := [c] + rest;
      assert cs[1..] == rest && data == data[..n] + data[n..];
    }
  }

  /** A byte string is accepted exactly if it encodes some sequence of Unicode scalar values. */
  lemma ValidIff(signed: bool, data: seq<byte>)
    ensures Valid(signed, data) <==> exists cs: seq<int> :: (forall c | c in cs :: Scalar(c)) && Encode(cs) == data
  {
    hide Good, Scalar, EncodeChar;
    if Valid(signed, data) { var cs := ValidDecodes(signed, data); }
    if exists cs: seq<int> :: (forall c | c in cs :: Scalar(c)) && Encode(cs) == data {
      var cs: seq<int> :| (forall c | c in cs :: Scalar(c)) && Encode(cs) == data;
      EncodedValid(signed, cs);
    }
  }
}
