/** The lossless value codec: its byte layout, the parse and the skip-parse, as functions of the bytes left. */
module Codec {
  import opened Bytes
  import opened Values

  const NULL_TAG: Byte := 0
  const BOOL_TAG: Byte := 1
  const INT_TAG: Byte := 2
  const FLOAT_TAG: Byte := 3
  const DECIMAL_TAG: Byte := 4
  const STRING_TAG: Byte := 5
  const BYTES_TAG: Byte := 6
  const UUID_TAG: Byte := 7
  const TIMESTAMP_TAG: Byte := 8
  const ARRAY_TAG: Byte := 9
  const DOCUMENT_TAG: Byte := 10

  // ---- encoding ----

  /** A `u32` length, then the bytes. */
  function Prefixed(raw: seq<Byte>): seq<Byte> {
    Le(|raw|, 4) + raw
  }

  function Encode(v: Value): seq<Byte>
    decreases v
  {
    match v
    case Null => [NULL_TAG]
    case Bool(b) => [BOOL_TAG] + [if b then 1 else 0]
    case Int(i) => [INT_TAG] + Le(AsU64(i), 8)
    case Float(bits) => [FLOAT_TAG] + Le(bits, 8)
    case Dec(d) => [DECIMAL_TAG] + (Le(AsU128(d.mantissa), 16) + Le(d.scale, 4))
    case Str(s) => [STRING_TAG] + Prefixed(s)
    case Bytes(raw) => [BYTES_TAG] + Prefixed(raw)
    case Uuid(u) => [UUID_TAG] + u
    case Timestamp(t) => [TIMESTAMP_TAG] + Le(AsU64(t), 8)
    case Array(items) => [ARRAY_TAG] + (Le(|items|, 4) + EncodeItems(items))
    case Doc(fields) => [DOCUMENT_TAG] + (Le(|fields|, 4) + EncodeFields(fields))
  }

  function EncodeItems(items: seq<Value>): seq<Byte>
    decreases items
  {
    if items == [] then [] else Encode(items[0]) + EncodeItems(items[1..])
  }

  function EncodeFields(fields: seq<Field>): seq<Byte>
    decreases fields
  {
    if fields == [] then []
    else Prefixed(fields[0].name) + (Encode(fields[0].value) + EncodeFields(fields[1..]))
  }

  /** Every length and count fits its `u32`. */
  predicate Fits(v: Value) {
    match v
    case Str(s) => |s| < U32_LIMIT
    case Bytes(raw) => |raw| < U32_LIMIT
    case Array(items) => |items| < U32_LIMIT && forall i :: 0 <= i < |items| ==> Fits(items[i])
    case Doc(fields) =>
      |fields| < U32_LIMIT && forall i :: 0 <= i < |fields| ==> |fields[i].name| < U32_LIMIT && Fits(fields[i].value)
    case _ => true
  }

  // ---- reading ----

  /** A read off the front of the bytes left. */
  datatype Parsed<+T> = Err | Ok(value: T, rest: seq<Byte>) {
    predicate IsFailure() {
      Err?
    }

    function PropagateFailure<U>(): Parsed<U>
      requires Err?
    {
      Err
    }

    function Extract(): (T, seq<Byte>)
      requires Ok?
    {
      (value, rest)
    }
  }

  /** Elements read before `p`'s. */
  function Prepend<T>(done: seq<T>, p: Parsed<seq<T>>): Parsed<seq<T>> {
    match p
    case Ok(more, x) => Ok(done + more, x)
    case Err => Err
  }

  function Take(s: seq<Byte>, n: nat): (r: Parsed<seq<Byte>>)
    ensures r.Ok? <==> n <= |s|
    ensures r.Ok? ==> |r.value| == n && r.value + r.rest == s
  {
    if n <= |s| then Ok(s[..n], s[n..]) else Err
  }

  function ReadU8(s: seq<Byte>): Parsed<Byte> {
    if s == [] then Err else Ok(s[0], s[1..])
  }

  function ReadU32(s: seq<Byte>): (p: Parsed<U32>)
    ensures p.Ok? ==> 4 + |p.rest| == |s|
  {
    var (b, r) :- Take(s, 4);
    Pow256Values();
    Ok(FromLe(b), r)
  }

  function ReadU64(s: seq<Byte>): Parsed<U64> {
    var (b, r) :- Take(s, 8);
    Pow256Values();
    Ok(FromLe(b), r)
  }

  function ReadPrefixed(s: seq<Byte>): (p: Parsed<seq<Byte>>)
    ensures p.Ok? ==> 4 + |p.value| + |p.rest| == |s|
  {
    var (n, r) :- ReadU32(s);
    Take(r, n)
  }

  function ReadStr(s: seq<Byte>): (p: Parsed<seq<Byte>>)
    ensures p.Ok? ==> 4 + |p.value| + |p.rest| == |s| && Utf8(p.value)
  {
    var (raw, r) :- ReadPrefixed(s);
    if Utf8(raw) then Ok(raw, r) else Err
  }

  function ReadDecimal(s: seq<Byte>): Parsed<Decimal> {
    var (m, r) :- Take(s, 16);
    var (scale, r2) :- ReadU32(r);
    Pow256Values();
    Ok(Decimal(AsI128(FromLe(m)), scale), r2)
  }

  /** The body of a scalar with tag `t`. */
  function ParseScalar(t: Byte, s: seq<Byte>): (p: Parsed<Value>)
    ensures p.Ok? ==> |p.rest| <= |s|
    ensures p.Ok? ==> p.value.IsScalar()
  {
    if t == NULL_TAG then Ok(Null, s)
    else if t == BOOL_TAG then
      var (b, r) :- ReadU8(s);
      Ok(Bool(b != 0), r)
    else if t == INT_TAG then
      var (u, r) :- ReadU64(s);
      Ok(Int(AsI64(u)), r)
    else if t == FLOAT_TAG then
      var (u, r) :- ReadU64(s);
      Ok(Float(u), r)
    else if t == DECIMAL_TAG then
      var (d, r) :- ReadDecimal(s);
      Ok(Dec(d), r)
    else if t == STRING_TAG then
      var (raw, r) :- ReadStr(s);
      Ok(Str(raw), r)
    else if t == BYTES_TAG then
      var (raw, r) :- ReadPrefixed(s);
      Ok(Bytes(raw), r)
    else if t == UUID_TAG then
      var (u, r) :- Take(s, 16);
      Ok(Uuid(u), r)
    else if t == TIMESTAMP_TAG then
      var (u, r) :- ReadU64(s);
      Ok(Timestamp(AsI64(u)), r)
    else Err
  }

  /** One value off the front, with no guard on element counts. */
  function Parse(s: seq<Byte>): (p: Parsed<Value>)
    ensures p.Ok? ==> |p.rest| < |s|
    decreases |s|, 0, 0
  {
    var (t, r) :- ReadU8(s);
    if t == ARRAY_TAG then
      var (n, r2) :- ReadU32(r);
      var (items, r3) :- ParseItems(r2, n);
      Ok(Array(items), r3)
    else if t == DOCUMENT_TAG then
      var (n, r2) :- ReadU32(r);
      var (fields, r3) :- ParseFields(r2, n, []);
      Ok(Doc(fields), r3)
    else ParseScalar(t, r)
  }

  function ParseItems(s: seq<Byte>, n: nat): (p: Parsed<seq<Value>>)
    ensures p.Ok? ==> |p.rest| <= |s|
    decreases |s|, 1, n
  {
    if n == 0 then Ok([], s)
    else
      var (v, r) :- Parse(s);
      var (vs, r2) :- ParseItems(r, n - 1);
      Ok([v] + vs, r2)
  }

  /** `n` fields inserted into `fields`; a repeated name keeps its last value. */
  function ParseFields(s: seq<Byte>, n: nat, fields: seq<Field>): (p: Parsed<seq<Field>>)
    ensures p.Ok? ==> |p.rest| <= |s|
    decreases |s|, 1, n
  {
    if n == 0 then Ok(fields, s)
    else
      var (name, r) :- ReadStr(s);
      var (v, r2) :- Parse(r);
      ParseFields(r2, n - 1, Insert(fields, name, v))
  }

  /** One unfolding of the field loop. */
  lemma FieldsStep(s: seq<Byte>, n: nat, fields: seq<Field>)
    requires n > 0
    ensures ParseFields(s, n, fields).Ok? ==> ReadStr(s).Ok? && Parse(ReadStr(s).rest).Ok?
    ensures ReadStr(s).Ok? && Parse(ReadStr(s).rest).Ok? ==>
              var p := Parse(ReadStr(s).rest);
              ParseFields(s, n, fields) == ParseFields(p.rest, n - 1, Insert(fields, ReadStr(s).value, p.value))
  {}

  /** `Value::decode`: one value and nothing after it. */
  function Decode(s: seq<Byte>): Option<Value> {
    match Parse(s)
    case Ok(v, r) => if r == [] then Some(v) else None
    case Err => None
  }

  // ---- skipping ----

  function SkipScalar(t: Byte, s: seq<Byte>): (p: Parsed<()>)
    ensures p.Ok? ==> |p.rest| <= |s|
  {
    if t == NULL_TAG then Ok((), s)
    else if t == BOOL_TAG then
      var (_, r) :- Take(s, 1);
      Ok((), r)
    else if t == INT_TAG || t == FLOAT_TAG || t == TIMESTAMP_TAG then
      var (_, r) :- Take(s, 8);
      Ok((), r)
    else if t == DECIMAL_TAG then
      var (_, r) :- Take(s, 16);
      var (_, r2) :- Take(r, 4);
      Ok((), r2)
    else if t == STRING_TAG || t == BYTES_TAG then
      var (_, r) :- ReadPrefixed(s);
      Ok((), r)
    else if t == UUID_TAG then
      var (_, r) :- Take(s, 16);
      Ok((), r)
    else Err
  }

  /** Walks past one value without building it (and without looking at its UTF-8). */
  function Skip(s: seq<Byte>): (p: Parsed<()>)
    ensures p.Ok? ==> |p.rest| < |s|
    decreases |s|, 0, 0
  {
    var (t, r) :- ReadU8(s);
    if t == ARRAY_TAG then
      var (n, r2) :- ReadU32(r);
      SkipItems(r2, n)
    else if t == DOCUMENT_TAG then
      var (n, r2) :- ReadU32(r);
      SkipFields(r2, n)
    else SkipScalar(t, r)
  }

  function SkipItems(s: seq<Byte>, n: nat): (p: Parsed<()>)
    ensures p.Ok? ==> |p.rest| <= |s|
    decreases |s|, 1, n
  {
    if n == 0 then Ok((), s)
    else
      var (_, r) :- Skip(s);
      SkipItems(r, n - 1)
  }

  function SkipFields(s: seq<Byte>, n: nat): (p: Parsed<()>)
    ensures p.Ok? ==> |p.rest| <= |s|
    decreases |s|, 1, n
  {
    if n == 0 then Ok((), s)
    else
      var (_, r) :- ReadPrefixed(s);
      var (_, r2) :- Skip(r);
      SkipFields(r2, n - 1)
  }

  // ---- cursor agreement ----

  lemma SkipScalarAgrees(t: Byte, s: seq<Byte>)
    requires ParseScalar(t, s).Ok?
    ensures SkipScalar(t, s) == Ok((), ParseScalar(t, s).rest)
  {}

  /** Wherever the decoder stops, the skip stops too. */
  lemma {:induction false} SkipAgrees(s: seq<Byte>)
    requires Parse(s).Ok?
    ensures Skip(s) == Ok((), Parse(s).rest)
    decreases |s|, 0, 0
  {
    hide ParseScalar, SkipScalar;
    var t, r := s[0], s[1..];
    if t == ARRAY_TAG {
      SkipItemsAgrees(ReadU32(r).rest, ReadU32(r).value);
    } else if t == DOCUMENT_TAG {
      SkipFieldsAgrees(ReadU32(r).rest, ReadU32(r).value, []);
    } else {
      SkipScalarAgrees(t, r);
    }
  }

  lemma {:induction false} SkipItemsAgrees(s: seq<Byte>, n: nat)
    requires ParseItems(s, n).Ok?
    ensures SkipItems(s, n) == Ok((), ParseItems(s, n).rest)
    decreases |s|, 1, n
  {
    hide Parse, Skip;
    if n > 0 {
      SkipAgrees(s);
      SkipItemsAgrees(Parse(s).rest, n - 1);
    }
  }

  lemma {:induction false} SkipFieldsAgrees(s: seq<Byte>, n: nat, fields: seq<Field>)
    requires ParseFields(s, n, fields).Ok?
    ensures SkipFields(s, n) == Ok((), ParseFields(s, n, fields).rest)
    decreases |s|, 1, n
  {
    hide Parse, Skip, Utf8, ReadPrefixed;
    if n > 0 {
      var r := ReadStr(s).rest;
      SkipAgrees(r);
      SkipFieldsAgrees(Parse(r).rest, n - 1, Insert(fields, ReadStr(s).value, Parse(r).value));
    }
  }

  /** Why the array count guard is safe: a count past the bytes left fails without it too. */
  lemma {:induction false} ItemsNeedBytes(s: seq<Byte>, n: nat)
    requires ParseItems(s, n).Ok?
    ensures n <= |s|
    decreases n
  {
    hide Parse;
    if n > 0 { ItemsNeedBytes(Parse(s).rest, n - 1); }
  }

  /** Why the document guard is safe: a field takes a 4-byte length and a value tag. */
  lemma {:induction false} FieldsNeedBytes(s: seq<Byte>, n: nat, fields: seq<Field>)
    requires ParseFields(s, n, fields).Ok?
    ensures n <= |s| / 5
    decreases n
  {
    hide Parse, Utf8;
    if n > 0 {
      var r := ReadStr(s).rest;
      FieldsNeedBytes(Parse(r).rest, n - 1, Insert(fields, ReadStr(s).value, Parse(r).value));
    }
  }

  // ---- round trip ----

  lemma ReadU8Of(b: Byte, x: seq<Byte>)
    ensures ReadU8([b] + x) == Ok(b, x)
  {
    assert ([b] + x)[1..] == x;
  }

  lemma TakeOf(b: seq<Byte>, x: seq<Byte>)
    ensures Take(b + x, |b|) == Ok(b, x)
  {
    assert (b + x)[..|b|] == b && (b + x)[|b|..] == x;
  }

  lemma ReadU32Of(n: U32, x: seq<Byte>)
    ensures ReadU32(Le(n, 4) + x) == Ok(n, x)
  {
    TakeOf(Le(n, 4), x);
    Pow256Values();
    LeRoundTrip(n, 4);
  }

  lemma ReadU64Of(n: U64, x: seq<Byte>)
    ensures ReadU64(Le(n, 8) + x) == Ok(n, x)
  {
    TakeOf(Le(n, 8), x);
    Pow256Values();
    LeRoundTrip(n, 8);
  }

  lemma ReadPrefixedOf(raw: seq<Byte>, x: seq<Byte>)
    requires |raw| < U32_LIMIT
    ensures ReadPrefixed(Prefixed(raw) + x) == Ok(raw, x)
  {
    Assoc(Le(|raw|, 4), raw, x);
    ReadU32Of(|raw|, raw + x);
    TakeOf(raw, x);
  }

  lemma ReadDecimalOf(d: Decimal, x: seq<Byte>)
    ensures ReadDecimal((Le(AsU128(d.mantissa), 16) + Le(d.scale, 4)) + x) == Ok(d, x)
  {
    var m := Le(AsU128(d.mantissa), 16);
    Assoc(m, Le(d.scale, 4), x);
    TakeOf(m, Le(d.scale, 4) + x);
    ReadU32Of(d.scale, x);
    Pow256Values();
    LeRoundTrip(AsU128(d.mantissa), 16);
  }

  lemma ScalarBody(v: Value, x: seq<Byte>)
    requires v.IsScalar() && WellFormed(v) && Fits(v)
    ensures ParseScalar(Encode(v)[0], Encode(v)[1..] + x) == Ok(v, x)
  {
    hide Utf8, ReadU64, ReadU32, ReadDecimal, ReadPrefixed, Prefixed, Le, Take, Parse;
    var body := Encode(v)[1..];
    match v {
      case Null => assert body + x == x;
      case Bool(b) => ReadU8Of(body[0], x);
      case Int(i) =>
        assert body == Le(AsU64(i), 8);
        ReadU64Of(AsU64(i), x);
      case Float(bits) =>
        assert body == Le(bits, 8);
        ReadU64Of(bits, x);
      case Dec(d) =>
        assert body == Le(AsU128(d.mantissa), 16) + Le(d.scale, 4);
        ReadDecimalOf(d, x);
      case Str(s) =>
        assert body == Prefixed(s);
        ReadPrefixedOf(s, x);
      case Bytes(raw) =>
        assert body == Prefixed(raw);
        ReadPrefixedOf(raw, x);
      case Uuid(u) =>
        assert body == u;
        TakeOf(u, x);
      case Timestamp(t) =>
        assert body == Le(AsU64(t), 8);
        ReadU64Of(AsU64(t), x);
    }
  }

  lemma ScalarRoundTrip(v: Value, x: seq<Byte>)
    requires v.IsScalar() && WellFormed(v) && Fits(v)
    ensures Parse(Encode(v) + x) == Ok(v, x)
  {
    ScalarBody(v, x);
    hide ParseScalar, Fits, WellFormed, Le, Prefixed;
    var e := Encode(v);
    assert e == [e[0]] + e[1..];
    Assoc([e[0]], e[1..], x);
    ReadU8Of(e[0], e[1..] + x);
  }

  lemma CountedSplit(t: Byte, n: U32, body: seq<Byte>, x: seq<Byte>)
    ensures ReadU8(([t] + (Le(n, 4) + body)) + x) == Ok(t, Le(n, 4) + (body + x))
    ensures ReadU32(Le(n, 4) + (body + x)) == Ok(n, body + x)
  {
    Assoc([t], Le(n, 4) + body, x);
    Assoc(Le(n, 4), body, x);
    ReadU8Of(t, Le(n, 4) + (body + x));
    ReadU32Of(n, body + x);
  }

  /** Every value whose lengths fit decodes to itself, whatever follows it. */
  lemma {:induction false} RoundTrip(v: Value, x: seq<Byte>)
    requires WellFormed(v) && Fits(v)
    ensures Parse(Encode(v) + x) == Ok(v, x)
    decreases v
  {
    hide ParseScalar, Utf8, Le, ReadU32, ReadU8, ParseItems, ParseFields, EncodeItems, EncodeFields;
    match v {
      case Array(items) =>
        CountedSplit(ARRAY_TAG, |items|, EncodeItems(items), x);
        ItemsRoundTrip(items, x);
      case Doc(fields) =>
        CountedSplit(DOCUMENT_TAG, |fields|, EncodeFields(fields), x);
        FieldsRoundTrip([], fields, x);
        assert [] + fields == fields;
      case _ => ScalarRoundTrip(v, x);
    }
  }

  lemma {:induction false} ItemsRoundTrip(items: seq<Value>, x: seq<Byte>)
    requires forall i :: 0 <= i < |items| ==> WellFormed(items[i]) && Fits(items[i])
    ensures ParseItems(EncodeItems(items) + x, |items|) == Ok(items, x)
    decreases items
  {
    hide Parse, Encode, WellFormed, Fits;
    if items == [] {
      assert [] + x == x;
    } else {
      Assoc(Encode(items[0]), EncodeItems(items[1..]), x);
      RoundTrip(items[0], EncodeItems(items[1..]) + x);
      ItemsRoundTrip(items[1..], x);
      assert items == [items[0]] + items[1..];
    }
  }

  lemma {:induction false} FieldsRoundTrip(done: seq<Field>, fields: seq<Field>, x: seq<Byte>)
    requires Sorted(done + fields)
    requires forall i :: 0 <= i < |fields| ==>
               && Utf8(fields[i].name) && |fields[i].name| < U32_LIMIT
               && WellFormed(fields[i].value) && Fits(fields[i].value)
    ensures ParseFields(EncodeFields(fields) + x, |fields|, done) == Ok(done + fields, x)
    decreases fields
  {
    hide Parse, Encode, WellFormed, Fits, Utf8, ReadPrefixed, Prefixed;
    if fields == [] {
      assert [] + x == x && done + fields == done;
    } else {
      var f := fields[0];
      var rest := EncodeFields(fields[1..]);
      Assoc(Prefixed(f.name), Encode(f.value) + rest, x);
      Assoc(Encode(f.value), rest, x);
      ReadPrefixedOf(f.name, Encode(f.value) + (rest + x));
      RoundTrip(f.value, rest + x);
      assert forall i :: 0 <= i < |done| ==> (done + fields)[i] == done[i];
      assert (done + fields)[|done|] == f;
      InsertLast(done, f.name, f.value);
      assert done + fields == (done + [f]) + fields[1..] && Field(f.name, f.value) == f;
      FieldsRoundTrip(done + [f], fields[1..], x);
    }
  }

  /** `decode(encode(v)) == v`. */
  lemma DecodeEncode(v: Value)
    requires WellFormed(v) && Fits(v)
    ensures Decode(Encode(v)) == Some(v)
  {
    RoundTrip(v, []);
    assert Encode(v) + [] == Encode(v);
  }

  // ---- what decoding yields ----

  lemma {:induction false} ParseWellFormed(s: seq<Byte>)
    requires Parse(s).Ok?
    ensures WellFormed(Parse(s).value)
    decreases |s|, 0, 0
  {
    hide Utf8, ParseScalar, ParseItems, ParseFields, FieldWellFormed;
    var t, r := s[0], s[1..];
    if t == ARRAY_TAG {
      ItemsWellFormed(ReadU32(r).rest, ReadU32(r).value);
    } else if t == DOCUMENT_TAG {
      FieldsWellFormed(ReadU32(r).rest, ReadU32(r).value, []);
      DocWellFormed(Parse(s).value.fields);
    } else {
      ScalarWellFormed(t, r);
    }
  }

  lemma ScalarWellFormed(t: Byte, s: seq<Byte>)
    requires ParseScalar(t, s).Ok?
    ensures WellFormed(ParseScalar(t, s).value)
  {
    hide Utf8;
  }

  lemma DocWellFormed(fields: seq<Field>)
    requires Sorted(fields) && forall f :: f in fields ==> FieldWellFormed(f)
    ensures WellFormed(Doc(fields))
  {
    hide Utf8;
    forall i | 0 <= i < |fields| ensures Utf8(fields[i].name) && WellFormed(fields[i].value) {
      assert FieldWellFormed(fields[i]);
    }
  }

  lemma {:induction false} ItemsWellFormed(s: seq<Byte>, n: nat)
    requires ParseItems(s, n).Ok?
    ensures forall v :: v in ParseItems(s, n).value ==> WellFormed(v)
    decreases |s|, 1, n
  {
    hide Parse, WellFormed;
    if n > 0 {
      ParseWellFormed(s);
      ItemsWellFormed(Parse(s).rest, n - 1);
    }
  }

  predicate FieldWellFormed(f: Field) {
    Utf8(f.name) && WellFormed(f.value)
  }

  lemma {:induction false} FieldsWellFormed(s: seq<Byte>, n: nat, fields: seq<Field>)
    requires ParseFields(s, n, fields).Ok?
    requires Sorted(fields) && forall f :: f in fields ==> FieldWellFormed(f)
    ensures Sorted(ParseFields(s, n, fields).value)
    ensures forall f :: f in ParseFields(s, n, fields).value ==> FieldWellFormed(f)
    decreases |s|, 1, n
  {
    hide Parse, WellFormed, Utf8, Insert;
    if n > 0 {
      var r := ReadStr(s).rest;
      ParseWellFormed(r);
      InsertSorted(fields, ReadStr(s).value, Parse(r).value);
      InsertNames(fields, ReadStr(s).value, Parse(r).value);
      FieldsWellFormed(Parse(r).rest, n - 1, Insert(fields, ReadStr(s).value, Parse(r).value));
    }
  }
}
