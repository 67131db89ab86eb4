/**
  The order-preserving key encoding and its exact-equality variant.

  Both encoders treat every type alike except decimals, so one function covers them:
  `code` gives a decimal's bytes. `SortCode` (the `f64` projection) makes it `encode_key`,
  `ExactCode` (the canonical bytes) makes it `encode_exact_key`.
 */
module Keys {
  import opened Bytes
  import opened Values

  const NULL_TAG: Byte := 0x00
  const BOOL_TAG: Byte := 0x01
  const INT_TAG: Byte := 0x02
  const FLOAT_TAG: Byte := 0x03
  const DECIMAL_TAG: Byte := 0x04
  const STRING_TAG: Byte := 0x05
  const BYTES_TAG: Byte := 0x06
  const UUID_TAG: Byte := 0x07
  const TIMESTAMP_TAG: Byte := 0x08
  const ARRAY_TAG: Byte := 0x09
  const DOCUMENT_TAG: Byte := 0x0a
  /** Shares its byte with NULL_TAG. */
  const END: Byte := 0x00

  type DecimalCode = Decimal -> seq<Byte>
  type DecimalOrder = (Decimal, Decimal) -> Ordering

  function KeyTag(v: Value): Byte {
    match v
    case Null => NULL_TAG
    case Bool(_) => BOOL_TAG
    case Int(_) => INT_TAG
    case Float(_) => FLOAT_TAG
    case Dec(_) => DECIMAL_TAG
    case Str(_) => STRING_TAG
    case Bytes(_) => BYTES_TAG
    case Uuid(_) => UUID_TAG
    case Timestamp(_) => TIMESTAMP_TAG
    case Array(_) => ARRAY_TAG
    case Doc(_) => DOCUMENT_TAG
  }

  // ---- the encoders ----

  /** XOR with the sign bit of a 64-bit word. */
  function FlipSign(u: U64): U64 {
    if u < SIGN then u + SIGN else u - SIGN
  }

  function I64Bytes(i: I64): (s: seq<Byte>)
    ensures |s| == 8
  {
    Be(FlipSign(AsU64(i)), 8)
  }

  /** Positives set the sign bit, negatives invert every bit. */
  function F64Word(bits: U64): U64 {
    if bits < SIGN then bits + SIGN else U64_LIMIT - 1 - bits
  }

  function F64Bytes(bits: U64): (s: seq<Byte>)
    ensures |s| == 8
  {
    Be(F64Word(bits), 8)
  }

  function EscapedByte(b: Byte): seq<Byte> {
    if b == 0 then [0x00, 0xFF] else [b]
  }

  /** A zero byte becomes a pair, and two zero bytes end the string. */
  function Escaped(s: seq<Byte>): seq<Byte> {
    if s == [] then [0x00, 0x00] else EscapedByte(s[0]) + Escaped(s[1..])
  }

  /** The bytes after the tag. */
  function ScalarBody(code: DecimalCode, v: Value): seq<Byte>
    requires v.IsScalar()
  {
    match v
    case Null => []
    case Bool(b) => [if b then 1 else 0]
    case Int(i) => I64Bytes(i)
    case Timestamp(t) => I64Bytes(t)
    case Float(bits) => F64Bytes(bits)
    case Dec(d) => code(d)
    case Str(s) => Escaped(s)
    case Bytes(raw) => Escaped(raw)
    case Uuid(u) => u
  }

  function Key(code: DecimalCode, v: Value): (k: seq<Byte>)
    ensures k != [] && k[0] == KeyTag(v)
    decreases v
  {
    match v
    case Array(items) => [ARRAY_TAG] + (ItemKeys(code, items) + [END])
    case Doc(fields) => [DOCUMENT_TAG] + (FieldKeys(code, fields) + [END])
    case _ => [KeyTag(v)] + ScalarBody(code, v)
  }

  function ItemKeys(code: DecimalCode, items: seq<Value>): seq<Byte>
    decreases items
  {
    if items == [] then [] else Key(code, items[0]) + ItemKeys(code, items[1..])
  }

  function FieldKeys(code: DecimalCode, fields: seq<Field>): seq<Byte>
    decreases fields
  {
    if fields == [] then []
    else Escaped(fields[0].name) + (Key(code, fields[0].value) + FieldKeys(code, fields[1..]))
  }

  // ---- the logical order ----

  /** The IEEE 754 totalOrder (section 5.10 of IEEE 754-2008) as an integer: sign and magnitude, -0 below +0. */
  function FloatRank(bits: U64): int {
    if bits < SIGN then bits else -1 - (bits - SIGN)
  }

  /** The order of the types: null, bool, int, float, decimal, string, bytes, uuid, timestamp, array, document. */
  function TypeRank(v: Value): (r: nat)
    ensures r == KeyTag(v)
  {
    match v
    case Null => 0
    case Bool(_) => 1
    case Int(_) => 2
    case Float(_) => 3
    case Dec(_) => 4
    case Str(_) => 5
    case Bytes(_) => 6
    case Uuid(_) => 7
    case Timestamp(_) => 8
    case Array(_) => 9
    case Doc(_) => 10
  }

  /** Types by rank, then scalars by value, arrays and documents componentwise, the shorter first. */
  function Order(dcmp: DecimalOrder, v: Value, w: Value): Ordering
    decreases v
  {
    if TypeRank(v) != TypeRank(w) then CmpInt(TypeRank(v), TypeRank(w))
    else match v
      case Null => Equal
      case Bool(b) => if b == w.b then Equal else if w.b then Less else Greater
      case Int(i) => CmpInt(i, w.i)
      case Timestamp(t) => CmpInt(t, w.t)
      case Float(bits) => CmpInt(FloatRank(bits), FloatRank(w.bits))
      case Dec(d) => dcmp(d, w.d)
      case Str(s) => Cmp(s, w.s)
      case Bytes(raw) => Cmp(raw, w.raw)
      case Uuid(u) => Cmp(u, w.u)
      case Array(items) => OrderItems(dcmp, items, w.items)
      case Doc(fields) => OrderFields(dcmp, fields, w.fields)
  }

  function OrderItems(dcmp: DecimalOrder, a: seq<Value>, b: seq<Value>): Ordering
    decreases a
  {
    if a == [] then (if b == [] then Equal else Less)
    else if b == [] then Greater
    else Order(dcmp, a[0], b[0]).Then(OrderItems(dcmp, a[1..], b[1..]))
  }

  function OrderFields(dcmp: DecimalOrder, a: seq<Field>, b: seq<Field>): Ordering
    decreases a
  {
    if a == [] then (if b == [] then Equal else Less)
    else if b == [] then Greater
    else Cmp(a[0].name, b[0].name)
         .Then(Order(dcmp, a[0].value, b[0].value))
         .Then(OrderFields(dcmp, a[1..], b[1..]))
  }

  /** No NULL element inside an array, no document key that is empty or starts with U+0000. */
  predicate Clean(v: Value) {
    match v
    case Array(items) => CleanItems(items)
    case Doc(fields) => CleanFields(fields)
    case Uuid(u) => |u| == 16
    case _ => true
  }

  predicate CleanItems(items: seq<Value>) {
    forall i :: 0 <= i < |items| ==> !items[i].Null? && Clean(items[i])
  }

  predicate CleanFields(fields: seq<Field>) {
    forall i :: 0 <= i < |fields| ==> fields[i].name != [] && fields[i].name[0] != 0 && Clean(fields[i].value)
  }

  // ---- order preservation ----

  /** A key starts with its type's rank, so any value of a lower type sorts below, whatever follows either key. */
  lemma TypeOrder(code: DecimalCode, v: Value, w: Value, x: seq<Byte>, y: seq<Byte>)
    ensures Key(code, v)[0] == TypeRank(v)
    ensures TypeRank(v) < TypeRank(w) ==> Cmp(Key(code, v) + x, Key(code, w) + y) == Less
  {
    var a, b := Key(code, v), Key(code, w);
    hide Key;
    assert a == [a[0]] + a[1..] && b == [b[0]] + b[1..];
    assert a + x == [a[0]] + (a[1..] + x) && b + y == [b[0]] + (b[1..] + y);
    CmpCons(a[0], a[1..] + x, b[0], b[1..] + y);
  }

  lemma I64Order(i: I64, j: I64)
    ensures Cmp(I64Bytes(i), I64Bytes(j)) == CmpInt(i, j)
  {
    Pow256Values();
    BeOrder(FlipSign(AsU64(i)), FlipSign(AsU64(j)), 8);
  }

  lemma F64Order(a: U64, b: U64)
    ensures Cmp(F64Bytes(a), F64Bytes(b)) == CmpInt(FloatRank(a), FloatRank(b))
  {
    Pow256Values();
    BeOrder(F64Word(a), F64Word(b), 8);
  }

  /** Escaping preserves the order of byte strings and is prefix-free. */
  lemma {:induction false} EscapedOrder(a: seq<Byte>, b: seq<Byte>, x: seq<Byte>, y: seq<Byte>)
    ensures Cmp(Escaped(a) + x, Escaped(b) + y) == Cmp(a, b).Then(Cmp(x, y))
  {
    if a != [] { EscapedSplit(a, x); }
    if b != [] { EscapedSplit(b, y); }
    if a == [] && b == [] {
      CmpFixed([0x00, 0x00], [0x00, 0x00], x, y);
    } else if a == [] {
      TerminatorFirst(x, b[0], Escaped(b[1..]) + y);
    } else if b == [] {
      TerminatorFirst(y, a[0], Escaped(a[1..]) + x);
    } else {
      EscapedOrder(a[1..], b[1..], x, y);
      EscapedByteOrder(a[0], b[0], Escaped(a[1..]) + x, Escaped(b[1..]) + y);
    }
  }

  lemma EscapedSplit(a: seq<Byte>, x: seq<Byte>)
    requires a != []
    ensures Escaped(a) + x == EscapedByte(a[0]) + (Escaped(a[1..]) + x)
  {
    Assoc(EscapedByte(a[0]), Escaped(a[1..]), x);
  }

  lemma EscapedByteOrder(p: Byte, q: Byte, s: seq<Byte>, t: seq<Byte>)
    ensures Cmp(EscapedByte(p) + s, EscapedByte(q) + t) == CmpInt(p, q).Then(Cmp(s, t))
  {
    if p == 0 && q == 0 {
      CmpFixed([0x00, 0xFF], [0x00, 0xFF], s, t);
    } else {
      CmpCons(p, (if p == 0 then [0xFF] else []) + s, q, (if q == 0 then [0xFF] else []) + t);
      EscapedByteSplit(p, s);
      EscapedByteSplit(q, t);
      if p == q { assert [] + s == s && [] + t == t; }
    }
  }

  lemma EscapedByteSplit(p: Byte, s: seq<Byte>)
    ensures EscapedByte(p) + s == [p] + ((if p == 0 then [0xFF] else []) + s)
  {}

  /** The terminator is below every escaped byte. */
  lemma TerminatorFirst(x: seq<Byte>, q: Byte, t: seq<Byte>)
    ensures Cmp([0x00, 0x00] + x, EscapedByte(q) + t) == Less
    ensures Cmp(EscapedByte(q) + t, [0x00, 0x00] + x) == Greater
  {
    var rest := (if q == 0 then [0xFF] else []) + t;
    EscapedByteSplit(q, t);
    assert [0x00, 0x00] + x == [0x00] + ([0x00] + x);
    CmpCons(0, [0x00] + x, q, rest);
    if q == 0 {
      CmpCons(0, x, 0xFF, t);
    }
    CmpReverse([0x00, 0x00] + x, EscapedByte(q) + t);
  }

  /** `code` is a prefix-free code that sorts decimals by `dcmp`. */
  ghost predicate Sorts(code: DecimalCode, dcmp: DecimalOrder) {
    forall d, e, x, y :: Cmp(code(d) + x, code(e) + y) == dcmp(d, e).Then(Cmp(x, y))
  }

  lemma ScalarOrder(code: DecimalCode, dcmp: DecimalOrder, v: Value, w: Value, x: seq<Byte>, y: seq<Byte>)
    requires Sorts(code, dcmp) && v.IsScalar() && Clean(v) && Clean(w) && KeyTag(v) == KeyTag(w)
    ensures Cmp(ScalarBody(code, v) + x, ScalarBody(code, w) + y) == Order(dcmp, v, w).Then(Cmp(x, y))
  {
    var a, b := ScalarBody(code, v), ScalarBody(code, w);
    match v {
      case Null => assert a + x == x && b + y == y;
      case Bool(p) => CmpCons(a[0], x, b[0], y);
      case Int(i) => I64Order(i, w.i); CmpFixed(a, b, x, y);
      case Timestamp(t) => I64Order(t, w.t); CmpFixed(a, b, x, y);
      case Float(bits) => F64Order(bits, w.bits); CmpFixed(a, b, x, y);
      case Dec(d) =>
      case Str(s) => EscapedOrder(s, w.s, x, y);
      case Bytes(raw) => EscapedOrder(raw, w.raw, x, y);
      case Uuid(u) => CmpFixed(u, w.u, x, y);
    }
  }

  /**
    Keys order as the values do whatever follows them: the code is order-preserving and prefix-free.
   */
  lemma {:induction false} KeyOrder(
    code: DecimalCode, dcmp: DecimalOrder, v: Value, w: Value, x: seq<Byte>, y: seq<Byte>)
    requires Sorts(code, dcmp) && Clean(v) && Clean(w)
    ensures Cmp(Key(code, v) + x, Key(code, w) + y) == Order(dcmp, v, w).Then(Cmp(x, y))
    decreases v
  {
    var s, t := KeyTail(code, v, x), KeyTail(code, w, y);
    KeySplit(code, v, x);
    KeySplit(code, w, y);
    CmpCons(KeyTag(v), s, KeyTag(w), t);
    if KeyTag(v) == KeyTag(w) {
      match v {
        case Array(items) => ItemsOrder(code, dcmp, items, w.items, x, y);
        case Doc(fields) => FieldsOrder(code, dcmp, fields, w.fields, x, y);
        case _ => ScalarOrder(code, dcmp, v, w, x, y);
      }
    }
  }

  /** What follows the tag of a key that `x` follows. */
  function KeyTail(code: DecimalCode, v: Value, x: seq<Byte>): seq<Byte> {
    match v
    case Array(items) => ItemKeys(code, items) + ([END] + x)
    case Doc(fields) => FieldKeys(code, fields) + ([END] + x)
    case _ => ScalarBody(code, v) + x
  }

  lemma KeySplit(code: DecimalCode, v: Value, x: seq<Byte>)
    ensures Key(code, v) + x == [KeyTag(v)] + KeyTail(code, v, x)
  {}

  lemma ItemKeysSplit(code: DecimalCode, a: seq<Value>, x: seq<Byte>)
    requires a != []
    ensures ItemKeys(code, a) + x == Key(code, a[0]) + (ItemKeys(code, a[1..]) + x)
    ensures (ItemKeys(code, a) + x)[0] == KeyTag(a[0])
  {}

  lemma {:induction false} ItemsOrder(
    code: DecimalCode, dcmp: DecimalOrder, a: seq<Value>, b: seq<Value>, x: seq<Byte>, y: seq<Byte>)
    requires Sorts(code, dcmp) && CleanItems(a) && CleanItems(b)
    ensures Cmp(ItemKeys(code, a) + ([END] + x), ItemKeys(code, b) + ([END] + y))
         == OrderItems(dcmp, a, b).Then(Cmp(x, y))
    decreases a
  {
    if a != [] { ItemKeysSplit(code, a, [END] + x); }
    if b != [] { ItemKeysSplit(code, b, [END] + y); }
    if a != [] && b != [] {
      ItemsOrder(code, dcmp, a[1..], b[1..], x, y);
      KeyOrder(code, dcmp, a[0], b[0], ItemKeys(code, a[1..]) + ([END] + x), ItemKeys(code, b[1..]) + ([END] + y));
    } else if a == [] && b == [] {
      assert ItemKeys(code, a) + ([END] + x) == [END] + x && ItemKeys(code, b) + ([END] + y) == [END] + y;
      CmpCons(END, x, END, y);
    }
  }

  lemma FieldKeysSplit(code: DecimalCode, a: seq<Field>, x: seq<Byte>)
    requires a != []
    ensures FieldKeys(code, a) + x
         == Escaped(a[0].name) + (Key(code, a[0].value) + (FieldKeys(code, a[1..]) + x))
    ensures a[0].name != [] && a[0].name[0] != 0 ==> (FieldKeys(code, a) + x)[0] == a[0].name[0]
  {
    var n, k, r := Escaped(a[0].name), Key(code, a[0].value), FieldKeys(code, a[1..]);
    Assoc(n, k + r, x);
    Assoc(k, r, x);
  }

  lemma {:induction false} FieldsOrder(
    code: DecimalCode, dcmp: DecimalOrder, a: seq<Field>, b: seq<Field>, x: seq<Byte>, y: seq<Byte>)
    requires Sorts(code, dcmp) && CleanFields(a) && CleanFields(b)
    ensures Cmp(FieldKeys(code, a) + ([END] + x), FieldKeys(code, b) + ([END] + y))
         == OrderFields(dcmp, a, b).Then(Cmp(x, y))
    decreases a
  {
    hide Key, Escaped, Order, Clean;
    if a != [] { FieldKeysSplit(code, a, [END] + x); }
    if b != [] { FieldKeysSplit(code, b, [END] + y); }
    if a != [] && b != [] {
      FieldsOrder(code, dcmp, a[1..], b[1..], x, y);
      var s, t := FieldKeys(code, a[1..]) + ([END] + x), FieldKeys(code, b[1..]) + ([END] + y);
      KeyOrder(code, dcmp, a[0].value, b[0].value, s, t);
      EscapedOrder(a[0].name, b[0].name, Key(code, a[0].value) + s, Key(code, b[0].value) + t);
    } else if a == [] && b == [] {
      assert FieldKeys(code, a) + ([END] + x) == [END] + x && FieldKeys(code, b) + ([END] + y) == [END] + y;
      CmpCons(END, x, END, y);
    }
  }
}
