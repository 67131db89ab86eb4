/** The codec as the driver runs it: a buffer encoders append to, a cursor decoders advance. */
module CodecCursor {
  import opened Bytes
  import opened Values
  import opened Codec

  // ---- writing ----

  lemma {:induction false} EncodeItemsNext(items: seq<Value>, i: nat)
    requires i < |items|
    ensures EncodeItems(items[..i + 1]) == EncodeItems(items[..i]) + Encode(items[i])
    decreases i
  {
    hide Encode;
    var f := items[..i + 1];
    if i == 0 {
      assert f[1..] == [] && items[..0] == [];
    } else {
      EncodeItemsNext(items[1..], i - 1);
      assert f[1..] == items[1..][..i] && items[..i][1..] == items[1..][..i - 1];
      Assoc(Encode(items[0]), EncodeItems(items[1..][..i - 1]), Encode(items[i]));
    }
  }

  lemma {:induction false} EncodeFieldsNext(fields: seq<Field>, i: nat)
    requires i < |fields|
    ensures EncodeFields(fields[..i + 1])
         == EncodeFields(fields[..i]) + Prefixed(fields[i].name) + Encode(fields[i].value)
    decreases i
  {
    hide Encode, Prefixed;
    var f := fields[..i + 1];
    var n, k := Prefixed(f[0].name), Encode(f[0].value);
    if i == 0 {
      assert f[1..] == [] && fields[..0] == [];
    } else {
      var last, value := Prefixed(fields[i].name), Encode(fields[i].value);
      var r := EncodeFields(fields[1..][..i - 1]);
      EncodeFieldsNext(fields[1..], i - 1);
      assert f[1..] == fields[1..][..i] && fields[..i][1..] == fields[1..][..i - 1];
      assert n + (k + (r + last + value)) == (n + (k + r)) + last + value;
    }
  }

  method WriteBytes(raw: seq<Byte>, out: Buffer)
    modifies out
    ensures out.bytes == old(out.bytes) + Prefixed(raw)
  {
    out.Extend(Le(|raw|, 4));
    out.Extend(raw);
    Assoc(old(out.bytes), Le(|raw|, 4), raw);
  }

  method EncodeScalar(v: Value, out: Buffer)
    requires v.IsScalar()
    modifies out
    ensures out.bytes == old(out.bytes) + Encode(v)
  {
    hide Le, Prefixed;
    ghost var before := out.bytes;
    match v {
      case Null => out.Push(NULL_TAG);
      case Bool(b) =>
        out.Push(BOOL_TAG);
        out.Push(if b then 1 else 0);
        Assoc(before, [BOOL_TAG], [if b then 1 else 0]);
      case Int(i) =>
        out.Push(INT_TAG);
        out.Extend(Le(AsU64(i), 8));
        Assoc(before, [INT_TAG], Le(AsU64(i), 8));
      case Float(bits) =>
        out.Push(FLOAT_TAG);
        out.Extend(Le(bits, 8));
        Assoc(before, [FLOAT_TAG], Le(bits, 8));
      case Dec(d) => EncodeDecimal(d, out);
      case Str(s) =>
        out.Push(STRING_TAG);
        WriteBytes(s, out);
        Assoc(before, [STRING_TAG], Prefixed(s));
      case Bytes(raw) =>
        out.Push(BYTES_TAG);
        WriteBytes(raw, out);
        Assoc(before, [BYTES_TAG], Prefixed(raw));
      case Uuid(u) =>
        out.Push(UUID_TAG);
        out.Extend(u);
        Assoc(before, [UUID_TAG], u);
      case Timestamp(t) =>
        out.Push(TIMESTAMP_TAG);
        out.Extend(Le(AsU64(t), 8));
        Assoc(before, [TIMESTAMP_TAG], Le(AsU64(t), 8));
    }
  }

  method EncodeDecimal(d: Decimal, out: Buffer)
    modifies out
    ensures out.bytes == old(out.bytes) + Encode(Dec(d))
  {
    hide Le;
    out.Push(DECIMAL_TAG);
    out.Extend(Le(AsU128(d.mantissa), 16));
    out.Extend(Le(d.scale, 4));
  }

  /** `encode_value`: appends the lossless encoding. */
  method EncodeValue(v: Value, out: Buffer)
    modifies out
    ensures out.bytes == old(out.bytes) + Encode(v)
    decreases v, 0
  {
    hide Le, EncodeItems, EncodeFields;
    ghost var before := out.bytes;
    match v {
      case Array(items) =>
        out.Push(ARRAY_TAG);
        out.Extend(Le(|items|, 4));
        WriteItems(items, out);
        Assoc(before + [ARRAY_TAG], Le(|items|, 4), EncodeItems(items));
        Assoc(before, [ARRAY_TAG], Le(|items|, 4) + EncodeItems(items));
      case Doc(fields) =>
        out.Push(DOCUMENT_TAG);
        out.Extend(Le(|fields|, 4));
        WriteFields(fields, out);
        Assoc(before + [DOCUMENT_TAG], Le(|fields|, 4), EncodeFields(fields));
        Assoc(before, [DOCUMENT_TAG], Le(|fields|, 4) + EncodeFields(fields));
      case _ => EncodeScalar(v, out);
    }
  }

  method WriteItems(items: seq<Value>, out: Buffer)
    modifies out
    ensures out.bytes == old(out.bytes) + EncodeItems(items)
    decreases items, 1
  {
    assert EncodeItems(items[..0]) == [];
    hide EncodeItems, Encode;
    for i := 0 to |items|
      invariant out.bytes == old(out.bytes) + EncodeItems(items[..i])
    {
      EncodeValue(items[i], out);
      EncodeItemsNext(items, i);
      Assoc(old(out.bytes), EncodeItems(items[..i]), Encode(items[i]));
    }
    assert items[..|items|] == items;
  }

  method WriteFields(fields: seq<Field>, out: Buffer)
    modifies out
    ensures out.bytes == old(out.bytes) + EncodeFields(fields)
    decreases fields, 1
  {
    assert EncodeFields(fields[..0]) == [];
    hide EncodeFields, Encode, Prefixed;
    for i := 0 to |fields|
      invariant out.bytes == old(out.bytes) + EncodeFields(fields[..i])
    {
      WriteBytes(fields[i].name, out);
      EncodeValue(fields[i].value, out);
      EncodeFieldsNext(fields, i);
      ghost var done := EncodeFields(fields[..i]);
      Assoc(old(out.bytes), done, Prefixed(fields[i].name));
      Assoc(old(out.bytes), done + Prefixed(fields[i].name), Encode(fields[i].value));
    }
    assert fields[..|fields|] == fields;
  }

  // ---- reading ----

  /** A cursor call returned `r` and left `rest` unread, as the parse `p` says. */
  ghost predicate Reads<T>(p: Parsed<T>, r: Option<T>, rest: seq<Byte>) {
    match p
    case Ok(v, x) => r == Some(v) && rest == x
    case Err => r == None
  }

  class Cursor {
    const bytes: seq<Byte>
    var pos: nat

    ghost predicate Valid()
      reads this
    {
      pos <= |bytes|
    }

    ghost function Rest(): seq<Byte>
      requires Valid()
      reads this
    {
      bytes[pos..]
    }

    constructor (b: seq<Byte>)
      ensures Valid() && bytes == b && pos == 0 && Rest() == b
    {
      bytes := b;
      pos := 0;
    }

    /** `take` and `take_borrowed`. */
    method TakeBytes(n: nat) returns (r: Option<seq<Byte>>)
      requires Valid()
      modifies this
      ensures Valid() && old(pos) <= pos
      ensures Reads(Take(old(Rest()), n), r, Rest())
    {
      if pos + n > |bytes| { return None; }
      r := Some(bytes[pos..pos + n]);
      pos := pos + n;
      assert old(Rest())[..n] == r.value && old(Rest())[n..] == Rest();
    }

    method NextU8() returns (r: Option<Byte>)
      requires Valid()
      modifies this
      ensures Valid() && old(pos) <= pos
      ensures Reads(ReadU8(old(Rest())), r, Rest())
      ensures r.Some? ==> pos == old(pos) + 1
    {
      var b := TakeBytes(1);
      match b {
        case None => return None;
        case Some(raw) => return Some(raw[0]);
      }
    }

    method NextU32() returns (r: Option<U32>)
      requires Valid()
      modifies this
      ensures Valid() && old(pos) <= pos
      ensures Reads(ReadU32(old(Rest())), r, Rest())
    {
      hide FromLe;
      var b := TakeBytes(4);
      Pow256Values();
      match b {
        case None => return None;
        case Some(raw) => return Some(FromLe(raw));
      }
    }

    method NextU64() returns (r: Option<U64>)
      requires Valid()
      modifies this
      ensures Valid() && old(pos) <= pos
      ensures Reads(ReadU64(old(Rest())), r, Rest())
    {
      hide FromLe;
      var b := TakeBytes(8);
      Pow256Values();
      match b {
        case None => return None;
        case Some(raw) => return Some(FromLe(raw));
      }
    }

    method NextPrefixed() returns (r: Option<seq<Byte>>)
      requires Valid()
      modifies this
      ensures Valid() && old(pos) <= pos
      ensures Reads(ReadPrefixed(old(Rest())), r, Rest())
    {
      hide ReadU32, Take;
      var n := NextU32();
      if n.None? { return None; }
      r := TakeBytes(n.value);
    }

    method NextStr() returns (r: Option<seq<Byte>>)
      requires Valid()
      modifies this
      ensures Valid() && old(pos) <= pos
      ensures Reads(ReadStr(old(Rest())), r, Rest())
    {
      hide ReadPrefixed, Utf8;
      r := NextPrefixed();
      if r.Some? && !Utf8(r.value) { r := None; }
    }

    method NextDecimal() returns (r: Option<Decimal>)
      requires Valid()
      modifies this
      ensures Valid() && old(pos) <= pos
      ensures Reads(ReadDecimal(old(Rest())), r, Rest())
    {
      hide ReadU32, FromLe;
      var m := TakeBytes(16);
      if m.None? { return None; }
      var scale := NextU32();
      if scale.None? { return None; }
      Pow256Values();
      return Some(Decimal(AsI128(FromLe(m.value)), scale.value));
    }

    method DecodeScalar(t: Byte) returns (r: Option<Value>)
      requires Valid()
      modifies this
      ensures Valid() && old(pos) <= pos
      ensures Reads(ParseScalar(t, old(Rest())), r, Rest())
    {
      hide ReadU64, ReadDecimal, ReadStr, ReadPrefixed, ReadU8, Take;
      if t == NULL_TAG {
        return Some(Null);
      } else if t == BOOL_TAG {
        var b := NextU8();
        return if b.None? then None else Some(Bool(b.value != 0));
      } else if t == INT_TAG {
        var u := NextU64();
        return if u.None? then None else Some(Int(AsI64(u.value)));
      } else if t == FLOAT_TAG {
        var u := NextU64();
        return if u.None? then None else Some(Float(u.value));
      } else if t == DECIMAL_TAG {
        var d := NextDecimal();
        return if d.None? then None else Some(Dec(d.value));
      } else if t == STRING_TAG {
        var raw := NextStr();
        return if raw.None? then None else Some(Str(raw.value));
      } else if t == BYTES_TAG {
        var raw := NextPrefixed();
        return if raw.None? then None else Some(Bytes(raw.value));
      } else if t == UUID_TAG {
        var u := TakeBytes(16);
        return if u.None? then None else Some(Uuid(u.value));
      } else if t == TIMESTAMP_TAG {
        var u := NextU64();
        return if u.None? then None else Some(Timestamp(AsI64(u.value)));
      }
      return None;
    }

    /** `decode_value`, count guards included: exactly the guard-free parse. */
    method DecodeValue() returns (r: Option<Value>)
      requires Valid()
      modifies this
      ensures Valid() && old(pos) <= pos
      ensures Reads(Parse(old(Rest())), r, Rest())
      ensures r.Some? ==> old(pos) < pos
      decreases |bytes| - pos, 0
    {
      hide ReadU32, ParseScalar, ParseItems, ParseFields;
      var t := NextU8();
      if t.None? { return None; }
      if t.value == ARRAY_TAG {
        var n := NextU32();
        if n.None? { return None; }
        var items := DecodeItems(n.value);
        return if items.None? then None else Some(Array(items.value));
      } else if t.value == DOCUMENT_TAG {
        var n := NextU32();
        if n.None? { return None; }
        var fields := DecodeFields(n.value);
        return if fields.None? then None else Some(Doc(fields.value));
      }
      r := DecodeScalar(t.value);
    }

    method DecodeItems(n: nat) returns (r: Option<seq<Value>>)
      requires Valid()
      modifies this
      ensures Valid() && old(pos) <= pos
      ensures Reads(ParseItems(old(Rest()), n), r, Rest())
      decreases |bytes| - pos, 1
    {
      hide Parse;
      if n > |bytes| - pos {
        if ParseItems(Rest(), n).Ok? { ItemsNeedBytes(Rest(), n); }
        return None;
      }
      var items: seq<Value> := [];
      if ParseItems(Rest(), n).Ok? { assert items + ParseItems(Rest(), n).value == ParseItems(Rest(), n).value; }
      for i := 0 to n
        invariant Valid() && old(pos) <= pos
        invariant ParseItems(old(Rest()), n) == Prepend(items, ParseItems(Rest(), n - i))
      {
        ghost var s := Rest();
        var v := DecodeValue();
        if v.None? { return None; }
        if ParseItems(s, n - i).Ok? {
          Assoc(items, [v.value], ParseItems(Rest(), n - i - 1).value);
        }
        items := items + [v.value];
      }
      assert items + [] == items;
      return Some(items);
    }

    method DecodeFields(n: nat) returns (r: Option<seq<Field>>)
      requires Valid()
      modifies this
      ensures Valid() && old(pos) <= pos
      ensures Reads(ParseFields(old(Rest()), n, []), r, Rest())
      decreases |bytes| - pos, 1
    {
      hide Parse, ReadStr, Insert;
      if n > (|bytes| - pos) / 5 {
        if ParseFields(Rest(), n, []).Ok? { FieldsNeedBytes(Rest(), n, []); }
        return None;
      }
      var fields: seq<Field> := [];
      for i := 0 to n
        invariant Valid() && old(pos) <= pos
        invariant ParseFields(old(Rest()), n, []) == ParseFields(Rest(), n - i, fields)
      {
        var name := NextStr();
        if name.None? { return None; }
        var v := DecodeValue();
        if v.None? { return None; }
        fields := Insert(fields, name.value, v.value);
      }
      return Some(fields);
    }

    method SkipScalarValue(t: Byte) returns (r: Option<()>)
      requires Valid()
      modifies this
      ensures Valid() && old(pos) <= pos
      ensures Reads(SkipScalar(t, old(Rest())), r, Rest())
    {
      hide Take, ReadPrefixed;
      var taken: Option<seq<Byte>>;
      if t == NULL_TAG {
        return Some(());
      } else if t == BOOL_TAG {
        taken := TakeBytes(1);
      } else if t == INT_TAG || t == FLOAT_TAG || t == TIMESTAMP_TAG {
        taken := TakeBytes(8);
      } else if t == DECIMAL_TAG {
        taken := TakeBytes(16);
        if taken.None? { return None; }
        taken := TakeBytes(4);
      } else if t == STRING_TAG || t == BYTES_TAG {
        taken := NextPrefixed();
      } else if t == UUID_TAG {
        taken := TakeBytes(16);
      } else {
        return None;
      }
      return if taken.None? then None else Some(());
    }

    /** `skip_value`. */
    method SkipValue() returns (r: Option<()>)
      requires Valid()
      modifies this
      ensures Valid() && old(pos) <= pos
      ensures Reads(Skip(old(Rest())), r, Rest())
      ensures r.Some? ==> old(pos) < pos && Skip(old(Rest())) == Ok((), Rest())
      decreases |bytes| - pos, 0
    {
      hide ReadU32, SkipScalar, SkipItems, SkipFields;
      var t := NextU8();
      if t.None? { return None; }
      if t.value == ARRAY_TAG {
        var n := NextU32();
        if n.None? { return None; }
        r := SkipManyItems(n.value);
      } else if t.value == DOCUMENT_TAG {
        var n := NextU32();
        if n.None? { return None; }
        r := SkipManyFields(n.value);
      } else {
        r := SkipScalarValue(t.value);
      }
      if r.Some? { assert Skip(old(Rest())).value == (); }
    }

    method SkipManyItems(n: nat) returns (r: Option<()>)
      requires Valid()
      modifies this
      ensures Valid() && old(pos) <= pos
      ensures Reads(SkipItems(old(Rest()), n), r, Rest())
      decreases |bytes| - pos, 1
    {
      hide Skip;
      for i := 0 to n
        invariant Valid() && old(pos) <= pos
        invariant SkipItems(old(Rest()), n) == SkipItems(Rest(), n - i)
      {
        var one := SkipValue();
        if one.None? { return None; }
      }
      return Some(());
    }

    method SkipManyFields(n: nat) returns (r: Option<()>)
      requires Valid()
      modifies this
      ensures Valid() && old(pos) <= pos
      ensures Reads(SkipFields(old(Rest()), n), r, Rest())
      decreases |bytes| - pos, 1
    {
      hide Skip, ReadPrefixed;
      for i := 0 to n
        invariant Valid() && old(pos) <= pos
        invariant SkipFields(old(Rest()), n) == SkipFields(Rest(), n - i)
      {
        var name := NextPrefixed();
        if name.None? { return None; }
        var one := SkipValue();
        if one.None? { return None; }
      }
      return Some(());
    }
  }

  /** `Value::decode`. */
  method DecodeAll(bytes: seq<Byte>) returns (r: Option<Value>)
    ensures r == Decode(bytes)
  {
    hide Parse;
    var cur := new Cursor(bytes);
    var v := cur.DecodeValue();
    if v.None? || cur.pos != |bytes| { return None; }
    return v;
  }
}
