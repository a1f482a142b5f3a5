// The persistent store of a client: keys and their lengths, the store operations each
// handler performs, and the list of outbound messages rebuilt from the store on restart.

module Persistence {
  import opened Packets

  // ----- keys -----

  datatype Kind = SENT | PUBREL_SENT | RECEIVED

  datatype Key = Key(v5: bool, kind: Kind, id: int)

  /** MESSAGE_FILENAME_LENGTH + 1: the buffer a key and its terminating NUL must fit in. */
  const KEYSIZE := 9
  const MAX_MSG_ID := 65535

  function Stem(v5: bool, kind: Kind): string {
    match kind
    case SENT => if v5 then "s5-" else "s-"
    case PUBREL_SENT => if v5 then "sc5-" else "sc-"
    case RECEIVED => if v5 then "r5-" else "r-"
  }

  function Digit(d: int): char
    requires 0 <= d < 10
  {
    "0123456789"[d]
  }

  /** "%d" for a non-negative number. */
  function Decimal(n: nat): (s: string)
    ensures s != []
  {
    if n < 10 then [Digit(n)] else Decimal(n / 10) + [Digit(n % 10)]
  }

  function KeyString(k: Key): string {
    Stem(k.v5, k.kind) + Decimal(if k.id >= 0 then k.id else 0)
  }

  /** snprintf reports that the key was not truncated. */
  predicate Fits(k: Key) { |KeyString(k)| < KEYSIZE }

  predicate MsgId(id: int) { 1 <= id <= MAX_MSG_ID }

  lemma DecimalLength(n: nat)
    requires n <= MAX_MSG_ID
    ensures |Decimal(n)| == if n < 10 then 1 else if n < 100 then 2 else if n < 1000 then 3 else if n < 10000 then 4
              else 5
  {
    var a := n / 10;
    var b := a / 10;
    var c := b / 10;
    var d := c / 10;
    assert n >= 10 ==> |Decimal(n)| == |Decimal(a)| + 1;
    assert a >= 10 ==> |Decimal(a)| == |Decimal(b)| + 1;
    assert b >= 10 ==> |Decimal(b)| == |Decimal(c)| + 1;
    assert c >= 10 ==> |Decimal(c)| == |Decimal(d)| + 1;
  }

  /** Of all keys of message ids, exactly the V5 PUBREL keys of five-digit ids do not fit. */
  lemma FitsExactly(k: Key)
    requires MsgId(k.id)
    ensures Fits(k) <==> !(k.v5 && k.kind == PUBREL_SENT && k.id >= 10000)
  {
    DecimalLength(k.id);
  }

  lemma {:induction false} DecimalInjective(m: nat, n: nat)
    requires Decimal(m) == Decimal(n)
    ensures m == n
  {
    var s, t := Decimal(m), Decimal(n);
    assert s[|s| - 1] == Digit(m % 10) && t[|t| - 1] == Digit(n % 10);
    assert m % 10 == n % 10;
    if m >= 10 && n >= 10 {
      assert Decimal(m / 10) == s[..|s| - 1] == t[..|t| - 1] == Decimal(n / 10);
      DecimalInjective(m / 10, n / 10);
    }
  }

  lemma {:induction false} DecimalStartsWithDigit(n: nat)
    ensures '0' <= Decimal(n)[0] <= '9'
  {
    if n >= 10 { DecimalStartsWithDigit(n / 10); }
  }

  /** The number a string of digits spells. */
  function Number(s: string): int {
    if s == "" then 0 else 10 * Number(s[..|s| - 1]) + (s[|s| - 1] as int - '0' as int)
  }

  predicate Digits(s: string) { s != "" && (forall c | c in s :: '0' <= c <= '9') && (|s| > 1 ==> s[0] != '0') }

  lemma {:induction false} DecimalSpells(n: nat)
    ensures Digits(Decimal(n)) && Number(Decimal(n)) == n && (n > 0 ==> Decimal(n)[0] != '0')
  {
    if n >= 10 { DecimalSpells(n / 10); }
  }

  /** A key is the letters of its kind, a 5 for MQTT 5, a hyphen, and the id in decimal. */
  lemma KeyIs(k: Key) returns (t: string)
    requires k.id >= 0
    ensures KeyString(k) == (match k.kind case SENT => "s" case PUBREL_SENT => "sc" case RECEIVED => "r")
      + (if k.v5 then "5-" else "-") + t
    ensures Digits(t) && Number(t) == k.id
  {
    DecimalSpells(k.id);
    t := Decimal(k.id);
  }

  /** strncmp against a stem, as the restore loop does to classify a key. */
  predicate HasStem(key: string, stem: string) { |stem| <= |key| && key[..|stem|] == stem }

  lemma StemDecides(k: Key, v5: bool, kind: Kind)
    requires k.id >= 0
    ensures HasStem(KeyString(k), Stem(v5, kind)) <==> (k.v5 == v5 && k.kind == kind)
  {
    DecimalStartsWithDigit(k.id);
    var s, t, key := Stem(v5, kind), Stem(k.v5, k.kind), KeyString(k);
    assert key[|t|] == Decimal(k.id)[0];
    assert key[0] == t[0] && key[1] == t[1] && (|t| > 2 ==> key[2] == t[2]) && (|t| > 3 ==> key[3] == t[3]);
    if HasStem(key, s) {
      var p := key[..|s|];
      assert p[0] == s[0] && p[1] == s[1] && (|s| > 2 ==> p[2] == s[2]) && (|s| > 3 ==> p[3] == s[3]);
    } else if s == t {
      assert key[..|s|] == s;
    }
  }

  /** Two messages or two kinds of record never share a key, so the store may be a map keyed by `Key`. */
  lemma KeysDistinct(a: Key, b: Key)
    requires a.id >= 0 && b.id >= 0 && KeyString(a) == KeyString(b)
    ensures a == b
  {
    var s, t := Stem(a.v5, a.kind), Stem(b.v5, b.kind);
    StemDecides(b, a.v5, a.kind);
    assert HasStem(KeyString(a), s) by { assert KeyString(a)[..|s|] == s; }
    hide Stem, Decimal;
    assert KeyString(a)[|s|..] == Decimal(a.id) && KeyString(b)[|s|..] == Decimal(b.id);
    DecimalInjective(a.id, b.id);
  }

  // ----- the store -----

  datatype Record = RecPublish(id: int, dup: bool, msg: Message) | RecPubrel(id: int)

  type Store = map<Key, Record>

  /** What a handler does outside its own memory, one indivisible action at a time. */
  datatype Op = Put(key: Key, rec: Record) | Remove(key: Key) | Send(packet: Packet)

  function ApplyOp(store: Store, op: Op): Store {
    match op
    case Put(k, r) => store[k := r]
    case Remove(k) => store - {k}
    case Send(_) => store
  }

  function ApplyOps(store: Store, ops: seq<Op>): Store {
    if ops == [] then store else ApplyOp(ApplyOps(store, ops[..|ops| - 1]), ops[|ops| - 1])
  }

  /** putPacket gives up without touching the store when the key is too long. */
  function PutOps(k: Key, r: Record): seq<Op> {
    if Fits(k) then [Put(k, r)] else []
  }

  /**
   * MQTTPersistence_remove for a sent message. All four keys are tried for either version, in this
   * order, and the first that does not fit ends the call.
   */
  function RemoveSentOps(id: int): seq<Op> {
    if !Fits(Key(true, SENT, id)) then []
    else if !Fits(Key(true, PUBREL_SENT, id)) then [Remove(Key(true, SENT, id))]
    else if !Fits(Key(false, SENT, id)) then [Remove(Key(true, SENT, id)), Remove(Key(true, PUBREL_SENT, id))]
    else if !Fits(Key(false, PUBREL_SENT, id)) then
      [Remove(Key(true, SENT, id)), Remove(Key(true, PUBREL_SENT, id)), Remove(Key(false, SENT, id))]
    else
      [Remove(Key(true, SENT, id)), Remove(Key(true, PUBREL_SENT, id)),
       Remove(Key(false, SENT, id)), Remove(Key(false, PUBREL_SENT, id))]
  }

  /** MQTTPersistence_remove for a received message. */
  function RemoveReceivedOps(id: int): seq<Op> {
    if !Fits(Key(true, RECEIVED, id)) then []
    else if !Fits(Key(false, RECEIVED, id)) then [Remove(Key(true, RECEIVED, id))]
    else [Remove(Key(true, RECEIVED, id)), Remove(Key(false, RECEIVED, id))]
  }

  // ----- the outbound list -----

  /** An entry of outboundMsgs. `next` is meaningful for QoS 2 only. */
  datatype OutMsg = OutMsg(id: int, msg: Message, next: Phase)

  predicate HasId(list: seq<OutMsg>, id: int) { exists i :: 0 <= i < |list| && list[i].id == id }

  ghost predicate DistinctIds(list: seq<OutMsg>) {
    forall i, j | 0 <= i < j < |list| :: list[i].id != list[j].id
  }

  ghost predicate SortedById(list: seq<OutMsg>) {
    forall i, j | 0 <= i < j < |list| :: list[i].id < list[j].id
  }

  // ----- rebuilding the list -----

  /** Before the first element with a greater id, or at the end. */
  function InsertInOrder(list: seq<OutMsg>, m: OutMsg): seq<OutMsg> {
    if list == [] then [m]
    else if m.id < list[0].id then [m] + list
    else [list[0]] + InsertInOrder(list[1..], m)
  }

  /** The message restored from a SENT key. */
  function RestoredMsg(v5: bool, store: Store, r: Record): OutMsg
    requires r.RecPublish?
  {
    OutMsg(r.id, r.msg, if Key(v5, PUBREL_SENT, r.id) in store then PUBCOMP else PUBREC)
  }

  /** Records are what putPacket writes: under their own key, one protocol version per store, keys that fit. */
  ghost predicate WellFormedStore(v5: bool, store: Store) {
    forall k | k in store ::
      && k.v5 == v5 && MsgId(k.id) && Fits(k) && store[k].id == k.id
      && (k.kind == PUBREL_SENT <==> store[k].RecPubrel?)
      && (k.kind == SENT ==> store[k].msg.qos == 1 || store[k].msg.qos == 2)
  }

  /** Every SENT record also has room for its PUBREL key; otherwise the restore loop stops with an error. */
  ghost predicate Restorable(store: Store) {
    forall k | k in store && k.kind == SENT :: Fits(Key(k.v5, PUBREL_SENT, k.id))
  }

  /** A PUBREL record without its PUBLISH. */
  predicate Orphan(store: Store, k: Key) {
    k in store && k.kind == PUBREL_SENT && Key(k.v5, SENT, k.id) !in store
  }

  ghost predicate Enumerates(keys: seq<Key>, store: Store) {
    && (forall k :: k in keys <==> k in store)
    && (forall i, j | 0 <= i < j < |keys| :: keys[i] != keys[j])
  }

  /** The outbound list before wrapMsgID, when the keys come in the given order. */
  function RestoreSorted(v5: bool, store: Store, keys: seq<Key>): seq<OutMsg> {
    if keys == [] then []
    else
      var k := keys[|keys| - 1];
      var list := RestoreSorted(v5, store, keys[..|keys| - 1]);
      if k in store && k.kind == SENT && store[k].RecPublish? then InsertInOrder(list, RestoredMsg(v5, store, store[k]))
      else list
  }

  function PurgeOps(store: Store, keys: seq<Key>): seq<Op> {
    if keys == [] then []
    else
      var k := keys[|keys| - 1];
      PurgeOps(store, keys[..|keys| - 1]) + if Orphan(store, k) then [Remove(k)] else []
  }

  /** The gap in front of element i, counting cyclically through 1..65535. */
  function Gap(list: seq<OutMsg>, i: nat): int
    requires i < |list|
  {
    if i == 0 then MAX_MSG_ID - list[|list| - 1].id + list[0].id else list[i].id - list[i - 1].id
  }

  /** The first element with the widest gap among the first n. */
  function WidestGap(list: seq<OutMsg>, n: nat): (r: nat)
    requires 1 <= n <= |list|
    ensures r < n
    ensures forall j | 0 <= j < r :: Gap(list, j) < Gap(list, r)
    ensures forall j | r < j < n :: Gap(list, j) <= Gap(list, r)
  {
    if n == 1 then 0
    else
      var r := WidestGap(list, n - 1);
      if Gap(list, n - 1) > Gap(list, r) then n - 1 else r
  }

  /** wrapMsgID: the list starts again at the element behind the widest gap. */
  function Wrapped(list: seq<OutMsg>): seq<OutMsg> {
    if list == [] then []
    else
      var r := WidestGap(list, |list|);
      list[r..] + list[..r]
  }

  function Restored(v5: bool, store: Store, keys: seq<Key>): seq<OutMsg> {
    Wrapped(RestoreSorted(v5, store, keys))
  }
}
