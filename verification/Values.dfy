/** The dynamically typed value model: scalars, arrays and key-sorted documents. */
module Values {
  import opened Bytes

  const I64_MAX: int := 0x7fff_ffff_ffff_ffff
  const U64_LIMIT: int := 0x1_0000_0000_0000_0000
  const U32_LIMIT: int := 0x1_0000_0000
  const I128_MAX: int := 0x7fff_ffff_ffff_ffff_ffff_ffff_ffff_ffff

  type I64 = x: int | -I64_MAX - 1 <= x <= I64_MAX
  type U64 = x: int | 0 <= x < U64_LIMIT
  type U32 = x: int | 0 <= x < U32_LIMIT
  type I128 = x: int | -I128_MAX - 1 <= x <= I128_MAX

  // ---- two's complement ----

  const SIGN: int := 0x8000_0000_0000_0000

  function AsU64(i: I64): U64 {
    if i < 0 then i + U64_LIMIT else i
  }

  function AsI64(u: U64): I64 {
    if u < SIGN then u else u - U64_LIMIT
  }

  function AsU128(x: I128): (u: nat)
    ensures u < 2 * (I128_MAX + 1)
  {
    if x < 0 then x + 2 * (I128_MAX + 1) else x
  }

  function AsI128(u: nat): I128
    requires u < 2 * (I128_MAX + 1)
  {
    if u <= I128_MAX then u else u - 2 * (I128_MAX + 1)
  }

  /** `mantissa * 10^-scale`. */
  datatype Decimal = Decimal(mantissa: I128, scale: U32)

  datatype Field = Field(name: seq<Byte>, value: Value)

  /** A double is its 64-bit pattern, a string its UTF-8 bytes. */
  datatype Value =
    | Null
    | Bool(b: bool)
    | Int(i: I64)
    | Float(bits: U64)
    | Dec(d: Decimal)
    | Str(s: seq<Byte>)
    | Bytes(raw: seq<Byte>)
    | Uuid(u: seq<Byte>)
    | Timestamp(t: I64)
    | Array(items: seq<Value>)
    | Doc(fields: seq<Field>)
  {
    predicate IsScalar() {
      !Array? && !Doc?
    }
  }

  // ---- UTF-8 ----

  predicate Continuation(b: Byte) {
    0x80 <= b < 0xC0
  }

  /** Length of the well-formed code point `s` starts with (table 3-7 of the Unicode standard); 0 if none. */
  function CodePoint(s: seq<Byte>): (n: nat)
    requires s != []
    ensures n <= 4 && n <= |s|
  {
    if s[0] < 0x80 then 1
    else if |s| >= 2 && 0xC2 <= s[0] < 0xE0 && Continuation(s[1]) then 2
    else if |s| >= 3 && 0xE0 <= s[0] < 0xF0 && Continuation(s[1]) && Continuation(s[2])
      && (s[0] == 0xE0 ==> s[1] >= 0xA0) && (s[0] == 0xED ==> s[1] < 0xA0) then 3
    else if |s| >= 4 && 0xF0 <= s[0] < 0xF5 && Continuation(s[1]) && Continuation(s[2]) && Continuation(s[3])
      && (s[0] == 0xF0 ==> s[1] >= 0x90) && (s[0] == 0xF4 ==> s[1] < 0x90) then 4
    else 0
  }

  predicate Utf8(s: seq<Byte>) {
    s == [] || (CodePoint(s) > 0 && Utf8(s[CodePoint(s)..]))
  }

  // ---- documents: strictly sorted by name ----

  predicate Before(a: seq<Byte>, b: seq<Byte>) {
    Cmp(a, b) == Less
  }

  predicate Sorted(fs: seq<Field>) {
    forall i, j :: 0 <= i < j < |fs| ==> Before(fs[i].name, fs[j].name)
  }

  /** Insert or replace, keeping names in order. */
  function Insert(fs: seq<Field>, name: seq<Byte>, value: Value): (r: seq<Field>)
  {
    if fs == [] then [Field(name, value)]
    else match Cmp(name, fs[0].name)
      case Less => [Field(name, value)] + fs
      case Equal => [Field(name, value)] + fs[1..]
      case Greater => [fs[0]] + Insert(fs[1..], name, value)
  }

  function Lookup(fs: seq<Field>, name: seq<Byte>): Option<Value> {
    if fs == [] then None
    else if fs[0].name == name then Some(fs[0].value)
    else Lookup(fs[1..], name)
  }

  lemma {:induction false} InsertNames(fs: seq<Field>, name: seq<Byte>, value: Value)
    ensures forall f :: f in Insert(fs, name, value) ==> f == Field(name, value) || f in fs
  {
    if fs != [] && Cmp(name, fs[0].name) == Greater {
      InsertNames(fs[1..], name, value);
    }
  }

  lemma {:induction false} InsertSorted(fs: seq<Field>, name: seq<Byte>, value: Value)
    requires Sorted(fs)
    ensures Sorted(Insert(fs, name, value))
  {
    if fs != [] {
      var rest := fs[1..];
      CmpEqual(name, fs[0].name);
      match Cmp(name, fs[0].name) {
        case Less =>
          forall j | 0 < j < |fs| ensures Before(name, fs[j].name) {
            CmpTransitive(name, fs[0].name, fs[j].name);
          }
        case Equal =>
        case Greater =>
          InsertSorted(rest, name, value);
          CmpReverse(name, fs[0].name);
          var r := Insert(rest, name, value);
          InsertNames(rest, name, value);
          forall j | 0 <= j < |r| ensures Before(fs[0].name, r[j].name) {
            assert r[j] in r;
            if r[j] in rest {
              var k :| 0 <= k < |rest| && rest[k] == r[j];
              assert rest[k] == fs[k + 1];
            }
          }
      }
    }
  }

  /** The map laws of an ordered insert: the last write of a name wins, other names keep their value. */
  lemma {:induction false} InsertLookup(fs: seq<Field>, name: seq<Byte>, value: Value, other: seq<Byte>)
    requires Sorted(fs)
    ensures Lookup(Insert(fs, name, value), other) == if other == name then Some(value) else Lookup(fs, other)
  {
    if fs != [] {
      CmpEqual(name, fs[0].name);
      match Cmp(name, fs[0].name) {
        case Less =>
          assert ([Field(name, value)] + fs)[1..] == fs;
        case Equal =>
          assert ([Field(name, value)] + fs[1..])[1..] == fs[1..];
        case Greater =>
          InsertLookup(fs[1..], name, value, other);
          assert ([fs[0]] + Insert(fs[1..], name, value))[1..] == Insert(fs[1..], name, value);
      }
    }
  }

  /** Appending past the last name is plain concatenation (how a canonical document is rebuilt). */
  lemma {:induction false} InsertLast(fs: seq<Field>, name: seq<Byte>, value: Value)
    requires forall i :: 0 <= i < |fs| ==> Before(fs[i].name, name)
    ensures Insert(fs, name, value) == fs + [Field(name, value)]
  {
    if fs != [] {
      CmpReverse(fs[0].name, name);
      InsertLast(fs[1..], name, value);
    }
  }

  /** What Rust's types guarantee of a value: UTF-8 strings, 16-byte UUIDs, documents sorted with distinct names. */
  predicate WellFormed(v: Value)
  {
    match v
    case Str(s) => Utf8(s)
    case Uuid(u) => |u| == 16
    case Array(items) => forall i :: 0 <= i < |items| ==> WellFormed(items[i])
    case Doc(fields) =>
      Sorted(fields) && forall i :: 0 <= i < |fields| ==> Utf8(fields[i].name) && WellFormed(fields[i].value)
    case _ => true
  }
}
