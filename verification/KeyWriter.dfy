/** The key encoders as they append to a buffer, and the placement prefix walk over their output. */
module KeyWriter {
  import opened Bytes
  import opened Values
  import opened Decimals
  import opened Keys
  import opened KeyTheorems

  method EncodeBytes(raw: seq<Byte>, out: Buffer)
    modifies out
    ensures out.bytes == old(out.bytes) + Escaped(raw)
  {
    for i := 0 to |raw|
      invariant out.bytes + Escaped(raw[i..]) == old(out.bytes) + Escaped(raw)
    {
      ghost var before := out.bytes;
      PushEscaped(raw[i], out);
      assert raw[i..][1..] == raw[i + 1..];
      Assoc(before, EscapedByte(raw[i]), Escaped(raw[i + 1..]));
    }
    out.Push(0x00);
    out.Push(0x00);
  }

  method PushEscaped(b: Byte, out: Buffer)
    modifies out
    ensures out.bytes == old(out.bytes) + EscapedByte(b)
  {
    if b == 0 {
      out.Push(0x00);
      out.Push(0xFF);
    } else {
      out.Push(b);
    }
  }

  lemma ItemKeysNext(code: DecimalCode, items: seq<Value>, i: nat)
    requires i < |items|
    ensures ItemKeys(code, items[..i + 1]) == ItemKeys(code, items[..i]) + Key(code, items[i])
  {
    assert items[..i + 1] == items[..i] + [items[i]];
    ItemKeysConcat(code, items[..i], [items[i]]);
    OneItem(code, items[i]);
  }

  lemma {:induction false} FieldKeysNext(code: DecimalCode, fields: seq<Field>, i: nat)
    requires i < |fields|
    ensures FieldKeys(code, fields[..i + 1])
         == FieldKeys(code, fields[..i]) + Escaped(fields[i].name) + Key(code, fields[i].value)
    decreases i
  {
    hide Key, Escaped;
    var f := fields[..i + 1];
    var n, k := Escaped(f[0].name), Key(code, f[0].value);
    if i == 0 {
      assert f[1..] == [] && fields[..0] == [];
    } else {
      var last, value := Escaped(fields[i].name), Key(code, fields[i].value);
      var r := FieldKeys(code, fields[1..][..i - 1]);
      FieldKeysNext(code, fields[1..], i - 1);
      assert f[1..] == fields[1..][..i] && fields[..i][1..] == fields[1..][..i - 1];
      assert n + (k + (r + last + value)) == (n + (k + r)) + last + value;
    }
  }

  method EncodeBody(proj: Projection, v: Value, out: Buffer)
    requires v.IsScalar()
    modifies out
    ensures out.bytes == old(out.bytes) + ScalarBody(SortCode(proj), v)
  {
    match v {
      case Null =>
      case Bool(b) => out.Push(if b then 1 else 0);
      case Int(i) => out.Extend(I64Bytes(i));
      case Timestamp(t) => out.Extend(I64Bytes(t));
      case Float(bits) => out.Extend(F64Bytes(bits));
      case Dec(d) => out.Extend(F64Bytes(proj(d)));
      case Str(s) => EncodeBytes(s, out);
      case Bytes(raw) => EncodeBytes(raw, out);
      case Uuid(u) => out.Extend(u);
    }
  }

  method EncodeScalar(proj: Projection, v: Value, out: Buffer)
    requires v.IsScalar()
    modifies out
    ensures out.bytes == old(out.bytes) + EncodeKey(proj, v)
  {
    out.Push(KeyTag(v));
    EncodeBody(proj, v, out);
  }

  /** `encode_into`: appends the order-preserving key. */
  method EncodeInto(proj: Projection, v: Value, out: Buffer)
    modifies out
    ensures out.bytes == old(out.bytes) + EncodeKey(proj, v)
    decreases v, 0
  {
    hide Escaped, ScalarBody, ItemKeys, FieldKeys, ExactBytes;
    match v {
      case Array(items) =>
        out.Push(ARRAY_TAG);
        EncodeItems(proj, items, out);
        out.Push(END);
      case Doc(fields) =>
        out.Push(DOCUMENT_TAG);
        EncodeFields(proj, fields, out);
        out.Push(END);
      case _ => EncodeScalar(proj, v, out);
    }
  }

  method EncodeItems(proj: Projection, items: seq<Value>, out: Buffer)
    modifies out
    ensures out.bytes == old(out.bytes) + ItemKeys(SortCode(proj), items)
    decreases items, 1
  {
    for i := 0 to |items|
      invariant out.bytes == old(out.bytes) + ItemKeys(SortCode(proj), items[..i])
    {
      EncodeInto(proj, items[i], out);
      ItemKeysNext(SortCode(proj), items, i);
    }
    assert items[..|items|] == items;
  }

  method EncodeFields(proj: Projection, fields: seq<Field>, out: Buffer)
    modifies out
    ensures out.bytes == old(out.bytes) + FieldKeys(SortCode(proj), fields)
    decreases fields, 1
  {
    assert FieldKeys(SortCode(proj), fields[..0]) == [];
    hide FieldKeys, Key, Escaped;
    for i := 0 to |fields|
      invariant out.bytes == old(out.bytes) + FieldKeys(SortCode(proj), fields[..i])
    {
      EncodeBytes(fields[i].name, out);
      EncodeInto(proj, fields[i].value, out);
      FieldKeysNext(SortCode(proj), fields, i);
      ghost var done := FieldKeys(SortCode(proj), fields[..i]);
      Assoc(old(out.bytes), done, Escaped(fields[i].name));
      Assoc(old(out.bytes), done + Escaped(fields[i].name), Key(SortCode(proj), fields[i].value));
    }
    assert fields[..|fields|] == fields;
  }

  /** `encode_exact_into`: decimals at any depth by their canonical bytes. */
  method EncodeExactInto(proj: Projection, v: Value, out: Buffer)
    modifies out
    ensures out.bytes == old(out.bytes) + EncodeExactKey(v)
    decreases v, 0
  {
    hide Escaped, ScalarBody, ItemKeys, FieldKeys, ExactBytes;
    match v {
      case Dec(d) =>
        ExactDecimalKey(d);
        out.Push(DECIMAL_TAG);
        EncodeBytes(ExactBytes(d), out);
      case Array(items) =>
        out.Push(ARRAY_TAG);
        EncodeExactItems(proj, items, out);
        out.Push(END);
      case Doc(fields) =>
        out.Push(DOCUMENT_TAG);
        EncodeExactFields(proj, fields, out);
        out.Push(END);
      case _ =>
        ScalarKeysAgree(proj, v);
        EncodeScalar(proj, v, out);
    }
  }

  lemma ExactDecimalKey(d: Decimal)
    ensures EncodeExactKey(Dec(d)) == [DECIMAL_TAG] + Escaped(ExactBytes(d))
  {}

  lemma ScalarKeysAgree(proj: Projection, v: Value)
    requires v.IsScalar() && !v.Dec?
    ensures EncodeKey(proj, v) == EncodeExactKey(v)
  {
    KeyWithoutDecimals(SortCode(proj), ExactCode, v);
  }

  method EncodeExactItems(proj: Projection, items: seq<Value>, out: Buffer)
    modifies out
    ensures out.bytes == old(out.bytes) + ItemKeys(ExactCode, items)
    decreases items, 1
  {
    for i := 0 to |items|
      invariant out.bytes == old(out.bytes) + ItemKeys(ExactCode, items[..i])
    {
      EncodeExactInto(proj, items[i], out);
      ItemKeysNext(ExactCode, items, i);
    }
    assert items[..|items|] == items;
  }

  method EncodeExactFields(proj: Projection, fields: seq<Field>, out: Buffer)
    modifies out
    ensures out.bytes == old(out.bytes) + FieldKeys(ExactCode, fields)
    decreases fields, 1
  {
    assert FieldKeys(ExactCode, fields[..0]) == [];
    hide FieldKeys, Key, Escaped;
    for i := 0 to |fields|
      invariant out.bytes == old(out.bytes) + FieldKeys(ExactCode, fields[..i])
    {
      EncodeBytes(fields[i].name, out);
      EncodeExactInto(proj, fields[i].value, out);
      FieldKeysNext(ExactCode, fields, i);
      ghost var done := FieldKeys(ExactCode, fields[..i]);
      Assoc(old(out.bytes), done, Escaped(fields[i].name));
      Assoc(old(out.bytes), done + Escaped(fields[i].name), Key(ExactCode, fields[i].value));
    }
    assert fields[..|fields|] == fields;
  }

  /** `encode_array_key_into`: the key of the array of `items` without building it. */
  method EncodeArrayKeyInto(proj: Projection, items: seq<Value>, out: Buffer)
    modifies out
    ensures out.bytes == old(out.bytes) + EncodeKey(proj, Array(items))
  {
    var code := SortCode(proj);
    out.Push(ARRAY_TAG);
    for i := 0 to |items|
      invariant out.bytes == old(out.bytes) + [ARRAY_TAG] + ItemKeys(code, items[..i])
    {
      EncodeInto(proj, items[i], out);
      ItemKeysNext(code, items, i);
    }
    assert items[..|items|] == items;
    out.Push(END);
  }

  // ---- placement prefix ----

  function Plus(n: nat, r: Option<nat>): Option<nat> {
    match r
    case None => None
    case Some(m) => Some(n + m)
  }

  /** Length of the escaped string `b` starts with. */
  function EscapedLength(b: seq<Byte>): Option<nat> {
    if b == [] then None
    else if b[0] != 0 then Plus(1, EscapedLength(b[1..]))
    else if |b| < 2 then None
    else if b[1] == 0xFF then Plus(2, EscapedLength(b[2..]))
    else if b[1] == 0 then Some(2)
    else None
  }

  method SkipEscapedBytes(b: seq<Byte>) returns (r: Option<nat>)
    ensures r == EscapedLength(b)
  {
    var i := 0;
    while i < |b|
      invariant 0 <= i <= |b|
      invariant EscapedLength(b) == Plus(i, EscapedLength(b[i..]))
    {
      assert b[i..][1..] == b[i + 1..];
      if b[i] != 0 {
        i := i + 1;
        continue;
      }
      if i + 1 >= |b| { return None; }
      assert b[i..][2..] == b[i + 2..];
      if b[i + 1] == 0xFF {
        i := i + 2;
      } else if b[i + 1] == 0 {
        return Some(i + 2);
      } else {
        return None;
      }
    }
    return None;
  }

  /** Bytes of the scalar component `b` starts with, tag included; `None` where the walk gives up. */
  function ComponentLength(b: seq<Byte>): Option<nat> {
    if b == [] then None
    else
      var skip := ComponentBody(b);
      match skip
      case None => None
      case Some(k) => if 1 + k > |b| then None else Some(1 + k)
  }

  function ComponentBody(b: seq<Byte>): Option<nat>
    requires b != []
  {
    if b[0] == BOOL_TAG then Some(1)
    else if b[0] == INT_TAG || b[0] == TIMESTAMP_TAG || b[0] == FLOAT_TAG || b[0] == DECIMAL_TAG then Some(8)
    else if b[0] == UUID_TAG then Some(16)
    else if b[0] == STRING_TAG || b[0] == BYTES_TAG then EscapedLength(b[1..])
    else None
  }

  function ComponentsLength(b: seq<Byte>, n: nat): Option<nat>
    decreases n
  {
    if n == 0 then Some(0)
    else match ComponentLength(b)
      case None => None
      case Some(k) => Plus(k, ComponentsLength(b[k..], n - 1))
  }

  function PrefixOf(key: seq<Byte>, n: nat): Option<seq<Byte>> {
    if n == 0 || key == [] || key[0] != ARRAY_TAG then None
    else match ComponentsLength(key[1..], n)
      case None => None
      case Some(k) => if 1 + k <= |key| then Some(key[..1 + k]) else None
  }

  lemma {:induction false} ComponentsLengthBound(b: seq<Byte>, n: nat)
    ensures ComponentsLength(b, n).Some? ==> ComponentsLength(b, n).value <= |b|
    decreases n
  {
    if n > 0 && ComponentLength(b).Some? {
      ComponentsLengthBound(b[ComponentLength(b).value..], n - 1);
    }
  }

  method SkipComponent(b: seq<Byte>) returns (r: Option<nat>)
    ensures r == ComponentLength(b)
    ensures r.Some? ==> r.value <= |b|
  {
    if |b| == 0 { return None; }
    var t := b[0];
    var skip: nat;
    if t == BOOL_TAG {
      skip := 1;
    } else if t == INT_TAG || t == TIMESTAMP_TAG || t == FLOAT_TAG || t == DECIMAL_TAG {
      skip := 8;
    } else if t == UUID_TAG {
      skip := 16;
    } else if t == STRING_TAG || t == BYTES_TAG {
      var len := SkipEscapedBytes(b[1..]);
      if len.None? { return None; }
      skip := len.value;
    } else {
      return None;
    }
    return if 1 + skip > |b| then None else Some(1 + skip);
  }

  method EncodedArrayPrefix(key: seq<Byte>, n: nat) returns (r: Option<seq<Byte>>)
    ensures r == PrefixOf(key, n)
  {
    hide ComponentLength;
    if n == 0 || |key| == 0 || key[0] != ARRAY_TAG { return None; }
    var pos := 1;
    for i := 0 to n
      invariant 1 <= pos <= |key|
      invariant ComponentsLength(key[1..], n) == Plus(pos - 1, ComponentsLength(key[pos..], n - i))
    {
      var len := SkipComponent(key[pos..]);
      if len.None? { return None; }
      assert key[pos..][len.value..] == key[pos + len.value..];
      pos := pos + len.value;
    }
    return Some(key[..pos]);
  }

  lemma {:induction false} EscapedLengthOf(s: seq<Byte>, x: seq<Byte>)
    ensures EscapedLength(Escaped(s) + x) == Some(|Escaped(s)|)
  {
    if s != [] {
      EscapedSplit(s, x);
      EscapedLengthOf(s[1..], x);
      var rest := Escaped(s[1..]) + x;
      if s[0] == 0 {
        assert ([0x00, 0xFF] + rest)[2..] == rest;
      } else {
        assert ([s[0]] + rest)[1..] == rest;
      }
    }
  }

  predicate PlacementComponent(v: Value) {
    v.IsScalar() && !v.Null?
  }

  lemma FixedBodyLength(proj: Projection, v: Value)
    requires WellFormed(v) && PlacementComponent(v) && !v.Str? && !v.Bytes?
    ensures |ScalarBody(SortCode(proj), v)| == if v.Bool? then 1 else if v.Uuid? then 16 else 8
  {
    match v {
      case Dec(d) => assert SortCode(proj)(d) == F64Bytes(proj(d));
      case _ =>
    }
  }

  lemma ComponentBodyOf(proj: Projection, v: Value, x: seq<Byte>)
    requires WellFormed(v) && PlacementComponent(v)
    ensures var body := ScalarBody(SortCode(proj), v);
            ComponentBody([KeyTag(v)] + (body + x)) == Some(|body|)
  {
    var body := ScalarBody(SortCode(proj), v);
    TagSlice(KeyTag(v), body, x);
    hide EscapedLength, Escaped;
    match v {
      case Str(s) => EscapedLengthOf(s, x);
      case Bytes(raw) => EscapedLengthOf(raw, x);
      case _ => FixedBodyLength(proj, v);
    }
  }

  lemma ComponentLengthOf(proj: Projection, v: Value, x: seq<Byte>)
    requires WellFormed(v)
    ensures ComponentLength(EncodeKey(proj, v) + x)
         == if PlacementComponent(v) then Some(|EncodeKey(proj, v)|) else None
  {
    KeySplit(SortCode(proj), v, x);
    hide EscapedLength, Escaped;
    if PlacementComponent(v) {
      hide ComponentBody;
      ComponentBodyOf(proj, v, x);
    }
  }

  /** The first `n` components exist and can be skipped. */
  predicate Placed(items: seq<Value>, n: nat) {
    n <= |items| && forall i :: 0 <= i < n ==> PlacementComponent(items[i])
  }

  lemma PlacedStep(items: seq<Value>, n: nat)
    requires n > 0 && items != []
    ensures Placed(items, n) <==> PlacementComponent(items[0]) && Placed(items[1..], n - 1)
  {
    assert forall i :: 0 < i < |items| ==> items[i] == items[1..][i - 1];
    assert forall i :: 0 <= i < |items| - 1 ==> items[1..][i] == items[i + 1];
  }

  lemma EndStops()
    ensures ComponentLength([END]) == None
  {}

  lemma {:induction false} ComponentsLengthOf(proj: Projection, items: seq<Value>, n: nat)
    requires WellFormed(Array(items))
    ensures ComponentsLength(ItemKeys(SortCode(proj), items) + [END], n)
         == if Placed(items, n) then Some(|ItemKeys(SortCode(proj), items[..n])|) else None
    decreases n
  {
    hide ComponentLength, Key;
    var code := SortCode(proj);
    if n == 0 {
      assert items[..0] == [];
    } else if items == [] {
      assert ItemKeys(code, items) + [END] == [END];
      EndStops();
    } else {
      var rest := ItemKeys(code, items[1..]) + [END];
      ItemKeysSplit(code, items, [END]);
      ComponentLengthOf(proj, items[0], rest);
      PlacedStep(items, n);
      if PlacementComponent(items[0]) {
        ComponentsLengthOf(proj, items[1..], n - 1);
        assert (Key(code, items[0]) + rest)[|Key(code, items[0])|..] == rest;
        if n <= |items| {
          assert items[..n][1..] == items[1..][..n - 1];
        }
      }
    }
  }

  /** On the key of any array: present exactly for `n` leading non-null scalars, and then their encodings. */
  lemma PlacementPrefix(proj: Projection, items: seq<Value>, n: nat)
    requires WellFormed(Array(items))
    ensures PrefixOf(EncodeKey(proj, Array(items)), n)
         == if n > 0 && Placed(items, n) then Some([ARRAY_TAG] + ItemKeys(SortCode(proj), items[..n])) else None
  {
    hide ComponentsLength, ItemKeys, WellFormed;
    var code := SortCode(proj);
    var key := EncodeKey(proj, Array(items));
    assert key == [ARRAY_TAG] + (ItemKeys(code, items) + [END]);
    hide Key;
    assert key[1..] == ItemKeys(code, items) + [END];
    ComponentsLengthOf(proj, items, n);
    if n > 0 && Placed(items, n) {
      var p, q := ItemKeys(code, items[..n]), ItemKeys(code, items[n..]);
      assert items == items[..n] + items[n..];
      ItemKeysConcat(code, items[..n], items[n..]);
      Assoc(p, q, [END]);
      Assoc([ARRAY_TAG], p, q + [END]);
      assert key[..1 + |p|] == [ARRAY_TAG] + p;
    }
  }

  /** Componentwise equal keys. */
  predicate SameKeys(proj: Projection, a: seq<Value>, b: seq<Value>) {
    |a| == |b| && forall i :: 0 <= i < |a| ==> EncodeKey(proj, a[i]) == EncodeKey(proj, b[i])
  }

  lemma SameKeysStep(proj: Projection, a: seq<Value>, b: seq<Value>)
    requires a != [] && b != []
    ensures SameKeys(proj, a, b)
       <==> EncodeKey(proj, a[0]) == EncodeKey(proj, b[0]) && SameKeys(proj, a[1..], b[1..])
  {
    hide EncodeKey;
    assert forall i :: 0 < i < |a| ==> a[i] == a[1..][i - 1];
    assert forall i :: 0 < i < |b| ==> b[i] == b[1..][i - 1];
    assert forall i :: 0 <= i < |a| - 1 ==> a[1..][i] == a[i + 1];
  }

  /** Equal component keys give equal prefixes, different ones different prefixes. */
  lemma {:induction false} PrefixInjective(proj: Projection, a: seq<Value>, b: seq<Value>)
    requires |a| == |b| && Placed(a, |a|) && Placed(b, |b|)
    requires WellFormed(Array(a)) && WellFormed(Array(b))
    ensures ItemKeys(SortCode(proj), a) == ItemKeys(SortCode(proj), b) <==> SameKeys(proj, a, b)
    decreases |a|
  {
    hide Key, SortCode, Order;
    if a != [] {
      var code := SortCode(proj);
      PlacedStep(a, |a|);
      PlacedStep(b, |b|);
      PrefixInjective(proj, a[1..], b[1..]);
      SortCodeSorts(proj);
      KeyPrefixFree(code, SortOrder(proj), a[0], b[0], ItemKeys(code, a[1..]), ItemKeys(code, b[1..]));
      SameKeysStep(proj, a, b);
    }
  }
}
