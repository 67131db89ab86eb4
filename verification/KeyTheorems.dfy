/** What the two key encodings promise their callers. */
module KeyTheorems {
  import opened Bytes
  import opened Values
  import opened Decimals
  import opened Keys

  /** Lossy projection of a decimal to the bits of a double; every theorem holds for any projection. */
  type Projection = Decimal -> U64

  function SortCode(proj: Projection): DecimalCode {
    d => F64Bytes(proj(d))
  }

  function SortOrder(proj: Projection): DecimalOrder {
    (d, e) => CmpInt(FloatRank(proj(d)), FloatRank(proj(e)))
  }

  const ExactCode: DecimalCode := d => Escaped(ExactBytes(d))

  const ExactOrder: DecimalOrder := (d, e) => Cmp(ExactBytes(d), ExactBytes(e))

  lemma SortCodeSorts(proj: Projection)
    ensures Sorts(SortCode(proj), SortOrder(proj))
  {
    forall d, e, x, y
      ensures Cmp(SortCode(proj)(d) + x, SortCode(proj)(e) + y) == SortOrder(proj)(d, e).Then(Cmp(x, y))
    {
      F64Order(proj(d), proj(e));
      CmpFixed(F64Bytes(proj(d)), F64Bytes(proj(e)), x, y);
    }
  }

  lemma ExactCodeSorts()
    ensures Sorts(ExactCode, ExactOrder)
  {
    forall d, e, x, y ensures Cmp(ExactCode(d) + x, ExactCode(e) + y) == ExactOrder(d, e).Then(Cmp(x, y)) {
      EscapedOrder(ExactBytes(d), ExactBytes(e), x, y);
    }
  }

  function EncodeKey(proj: Projection, v: Value): seq<Byte> {
    Key(SortCode(proj), v)
  }

  function EncodeExactKey(v: Value): seq<Byte> {
    Key(ExactCode, v)
  }

  /** Byte order of keys is the logical order of values, for any suffixes. */
  lemma EncodeKeyOrder(proj: Projection, v: Value, w: Value, x: seq<Byte>, y: seq<Byte>)
    requires Clean(v) && Clean(w)
    ensures Cmp(EncodeKey(proj, v) + x, EncodeKey(proj, w) + y) == Order(SortOrder(proj), v, w).Then(Cmp(x, y))
    ensures Cmp(EncodeKey(proj, v), EncodeKey(proj, w)) == Order(SortOrder(proj), v, w)
  {
    SortCodeSorts(proj);
    KeyOrder(SortCode(proj), SortOrder(proj), v, w, x, y);
    KeyOrder(SortCode(proj), SortOrder(proj), v, w, [], []);
    assert EncodeKey(proj, v) + [] == EncodeKey(proj, v) && EncodeKey(proj, w) + [] == EncodeKey(proj, w);
  }

  /** A concatenation of keys splits one way only. */
  lemma KeyPrefixFree(code: DecimalCode, dcmp: DecimalOrder, v: Value, w: Value, x: seq<Byte>, y: seq<Byte>)
    requires Sorts(code, dcmp) && Clean(v) && Clean(w)
    ensures Key(code, v) + x == Key(code, w) + y <==> Order(dcmp, v, w) == Equal && x == y
    ensures Key(code, v) == Key(code, w) <==> Order(dcmp, v, w) == Equal
  {
    KeyOrder(code, dcmp, v, w, x, y);
    CmpEqual(Key(code, v) + x, Key(code, w) + y);
    CmpEqual(x, y);
    KeyOrder(code, dcmp, v, w, [], []);
    assert Key(code, v) + [] == Key(code, v) && Key(code, w) + [] == Key(code, w);
    CmpEqual(Key(code, v), Key(code, w));
  }

  // ---- top-level arrays may hold NULLs ----

  /** Components of a composite key: each NULL or clean. */
  predicate Components(items: seq<Value>) {
    forall i :: 0 <= i < |items| ==> Clean(items[i])
  }

  lemma {:induction false} ComponentsOrder(code: DecimalCode, dcmp: DecimalOrder, a: seq<Value>, b: seq<Value>)
    requires Sorts(code, dcmp) && Components(a) && Components(b)
    ensures Cmp(ItemKeys(code, a) + [END], ItemKeys(code, b) + [END]) == OrderItems(dcmp, a, b)
    decreases |a|
  {
    if a != [] { ItemKeysSplit(code, a, [END]); }
    if b != [] { ItemKeysSplit(code, b, [END]); }
    if a != [] && b != [] {
      ComponentsOrder(code, dcmp, a[1..], b[1..]);
      KeyOrder(code, dcmp, a[0], b[0], ItemKeys(code, a[1..]) + [END], ItemKeys(code, b[1..]) + [END]);
    } else if a != [] {
      assert ItemKeys(code, b) + [END] == [END];
      EndFirst(ItemKeys(code, a) + [END]);
    } else if b != [] {
      assert ItemKeys(code, a) + [END] == [END];
      EndFirst(ItemKeys(code, b) + [END]);
    }
  }

  /** The lone terminator is below anything longer. */
  lemma EndFirst(s: seq<Byte>)
    requires |s| >= 2
    ensures Cmp([END], s) == Less && Cmp(s, [END]) == Greater
  {
    assert s == [s[0]] + s[1..];
    CmpCons(END, [], s[0], s[1..]);
    CmpReverse([END], s);
  }

  /** The composite key order, NULL components included. */
  lemma ArrayKeyOrder(proj: Projection, a: seq<Value>, b: seq<Value>)
    requires Components(a) && Components(b)
    ensures Cmp(EncodeKey(proj, Array(a)), EncodeKey(proj, Array(b))) == OrderItems(SortOrder(proj), a, b)
    ensures EncodeKey(proj, Array(a)) == EncodeKey(proj, Array(b)) <==> OrderItems(SortOrder(proj), a, b) == Equal
  {
    var code := SortCode(proj);
    SortCodeSorts(proj);
    ComponentsOrder(code, SortOrder(proj), a, b);
    CmpCons(ARRAY_TAG, ItemKeys(code, a) + [END], ARRAY_TAG, ItemKeys(code, b) + [END]);
    CmpEqual(EncodeKey(proj, Array(a)), EncodeKey(proj, Array(b)));
  }

  lemma {:induction false} ItemKeysConcat(code: DecimalCode, a: seq<Value>, b: seq<Value>)
    ensures ItemKeys(code, a + b) == ItemKeys(code, a) + ItemKeys(code, b)
    decreases |a|
  {
    hide Key;
    if a == [] {
      assert a + b == b && [] + ItemKeys(code, b) == ItemKeys(code, b);
    } else {
      ItemKeysConcat(code, a[1..], b);
      assert (a + b)[0] == a[0] && (a + b)[1..] == a[1..] + b;
      Assoc(Key(code, a[0]), ItemKeys(code, a[1..]), ItemKeys(code, b));
    }
  }

  /**
    Why `Clean` bars a NULL in a nested array: it is read as that array's end, so every such value shares
    its key with a longer one whose inner array stops there.
   */
  lemma NestedNullCollides(
    code: DecimalCode, before: seq<Value>, inner: seq<Value>, rest: seq<Value>, after: seq<Value>)
    ensures Key(code, Array(before + [Array(inner + [Null] + rest)] + after))
         == Key(code, Array(before + [Array(inner)] + rest + [Null] + after))
    ensures |before + [Array(inner + [Null] + rest)] + after| < |before + [Array(inner)] + rest + [Null] + after|
  {
    var a, b := before + [Array(inner + [Null] + rest)] + after, before + [Array(inner)] + rest + [Null] + after;
    SameItemKeys(code, a, b) by {
      NestedNullItems(code, before, inner, rest, after);
    }
  }

  lemma TwoItems(code: DecimalCode, before: seq<Value>, v: Value, w: Value, after: seq<Value>)
    ensures ItemKeys(code, before + [v, w] + after)
         == ItemKeys(code, before) + (Key(code, v) + Key(code, w)) + ItemKeys(code, after)
  {
    hide Key, ItemKeys;
    ItemKeysAround(code, before, v, [w] + after);
    ItemKeysConcat(code, [w], after);
    OneItem(code, w);
    assert before + [v] + ([w] + after) == before + [v, w] + after;
    Assoc(ItemKeys(code, before) + Key(code, v), Key(code, w), ItemKeys(code, after));
    Assoc(ItemKeys(code, before), Key(code, v), Key(code, w));
  }

  /** The same one level down a document: the NULL ends the array, the array's end the document. */
  lemma NullUnderDocumentCollides(
    code: DecimalCode, before: seq<Value>, fields: seq<Field>, name: seq<Byte>, inner: seq<Value>, after: seq<Value>)
    ensures Key(code, Array(before + [Doc(fields + [Field(name, Array(inner + [Null]))])] + after))
         == Key(code, Array(before + [Doc(fields + [Field(name, Array(inner))]), Null] + after))
  {
    var whole, stopped := Doc(fields + [Field(name, Array(inner + [Null]))]), Doc(fields + [Field(name, Array(inner))]);
    LastFieldNull(code, fields, name, inner);
    assert Key(code, Null) == [END];
    SameItemKeys(code, before + [whole] + after, before + [stopped, Null] + after) by {
      hide Key, ItemKeys;
      ItemKeysAround(code, before, whole, after);
      TwoItems(code, before, stopped, Null, after);
    }
  }

  lemma LastFieldNull(code: DecimalCode, fields: seq<Field>, name: seq<Byte>, inner: seq<Value>)
    ensures Key(code, Doc(fields + [Field(name, Array(inner + [Null]))]))
         == Key(code, Doc(fields + [Field(name, Array(inner))])) + [END]
  {
    NullEndsArray(code, inner, []);
    assert inner + [Null] + [] == inner + [Null];
    var k := Key(code, Array(inner));
    assert Key(code, Array(inner + [Null])) == k + [END] by { assert k + [] + [END] == k + [END]; }
    LastField(code, fields, Field(name, Array(inner + [Null])));
    LastField(code, fields, Field(name, Array(inner)));
    hide Escaped, ItemKeys, FieldKeys;
    var f, n := FieldKeys(code, fields), Escaped(name);
    assert [DOCUMENT_TAG] + (f + (n + (k + [END])) + [END]) == [DOCUMENT_TAG] + (f + (n + k) + [END]) + [END];
  }

  lemma {:induction false} LastField(code: DecimalCode, fields: seq<Field>, f: Field)
    ensures FieldKeys(code, fields + [f]) == FieldKeys(code, fields) + (Escaped(f.name) + Key(code, f.value))
    decreases |fields|
  {
    hide Key, Escaped;
    if fields == [] {
      assert [] + [f] == [f] && [f][1..] == [];
      assert Key(code, f.value) + [] == Key(code, f.value);
    } else {
      LastField(code, fields[1..], f);
      var n, k, r := Escaped(fields[0].name), Key(code, fields[0].value), FieldKeys(code, fields[1..]);
      assert (fields + [f])[0] == fields[0] && (fields + [f])[1..] == fields[1..] + [f];
      Assoc(k, r, Escaped(f.name) + Key(code, f.value));
      Assoc(n, k + r, Escaped(f.name) + Key(code, f.value));
    }
  }

  /** Why `Clean` bars an empty document name: its terminator reads as the document's end and a NULL after it. */
  lemma EmptyNameCollides(code: DecimalCode, before: seq<Value>, v: Value, after: seq<Value>)
    ensures Key(code, Array(before + [Doc([Field([], v)])] + after))
         == Key(code, Array(before + [Doc([]), Null, v, Null] + after))
  {
    var whole, k := Doc([Field([], v)]), Key(code, v);
    assert [Field([], v)][1..] == [];
    assert FieldKeys(code, [Field([], v)]) == [0x00, 0x00] + (k + []);
    assert Key(code, whole) == [DOCUMENT_TAG, 0x00] + [END] + k + [END];
    assert Key(code, Doc([])) == [DOCUMENT_TAG, 0x00] && Key(code, Null) == [END];
    SameItemKeys(code, before + [whole] + after, before + [Doc([]), Null, v, Null] + after) by {
      hide Key, ItemKeys, FieldKeys;
      ItemKeysAround(code, before, whole, after);
      FourItems(code, before, Doc([]), v, after);
    }
  }

  lemma FourItems(code: DecimalCode, before: seq<Value>, u: Value, v: Value, after: seq<Value>)
    requires Key(code, Null) == [END]
    ensures ItemKeys(code, before + [u, Null, v, Null] + after)
         == ItemKeys(code, before) + (Key(code, u) + [END] + Key(code, v) + [END]) + ItemKeys(code, after)
  {
    hide Key, ItemKeys;
    TwoItems(code, before + [u, Null], v, Null, after);
    TwoItems(code, before, u, Null, []);
    assert before + [u, Null] + [] == before + [u, Null];
    assert before + [u, Null] + [v, Null] + after == before + [u, Null, v, Null] + after;
    var b, x, y := ItemKeys(code, before), Key(code, u) + [END], Key(code, v) + [END];
    assert ItemKeys(code, before + [u, Null]) == b + x by { NoItems(code); assert b + x + [] == b + x; }
    Assoc(b, x, y);
    Assoc(Key(code, u) + [END], Key(code, v), [END]);
  }

  lemma NoItems(code: DecimalCode)
    ensures ItemKeys(code, []) == []
  {}

  /** Why `Clean` bars a name that begins with U+0000: the empty document's key is a prefix of the key. */
  lemma ZeroNameExtends(code: DecimalCode, name: seq<Byte>, v: Value, rest: seq<Field>)
    requires name != [] && name[0] == 0
    ensures exists x :: x != [] && Key(code, Doc([Field(name, v)] + rest)) == Key(code, Doc([])) + x
  {
    var fields := [Field(name, v)] + rest;
    var e := Escaped(name[1..]);
    assert Escaped(name) == [0x00, 0xFF] + e;
    hide Escaped, Key;
    var tail := Key(code, v) + FieldKeys(code, fields[1..]);
    assert FieldKeys(code, fields) == Escaped(name) + tail;
    DocKey(code, fields);
    DocKey(code, []);
    hide FieldKeys;
    ZeroNameBytes(e, tail);
    var x := [0xFF] + e + tail + [END];
    assert x != [] && Key(code, Doc(fields)) == Key(code, Doc([])) + x;
  }

  lemma DocKey(code: DecimalCode, fields: seq<Field>)
    ensures Key(code, Doc(fields)) == [DOCUMENT_TAG] + (FieldKeys(code, fields) + [END])
    ensures fields == [] ==> Key(code, Doc(fields)) == [DOCUMENT_TAG, 0x00]
  {
    if fields == [] { assert [] + [END] == [END]; }
  }

  lemma ZeroNameBytes(e: seq<Byte>, tail: seq<Byte>)
    ensures [DOCUMENT_TAG] + (([0x00, 0xFF] + e) + tail + [END]) == [DOCUMENT_TAG, 0x00] + ([0xFF] + e + tail + [END])
  {}

  // ---- without documents the condition is exact ----

  predicate NoDocs(v: Value) {
    match v
    case Array(items) => forall i :: 0 <= i < |items| ==> NoDocs(items[i])
    case Doc(_) => false
    case _ => true
  }

  /** An array that is not clean, up to its first offending element. */
  lemma FirstUnclean(items: seq<Value>) returns (i: nat)
    requires !CleanItems(items)
    ensures i < |items| && (items[i].Null? || !Clean(items[i]))
  {
    i :| 0 <= i < |items| && (items[i].Null? || !Clean(items[i]));
  }

  lemma ItemsSplit(code: DecimalCode, items: seq<Value>, i: nat)
    requires i < |items|
    ensures Key(code, Array(items))
         == [ARRAY_TAG] + (ItemKeys(code, items[..i]) + Key(code, items[i]) + ItemKeys(code, items[i + 1..]) + [END])
  {
    ItemKeysAround(code, items[..i], items[i], items[i + 1..]);
    assert items[..i] + [items[i]] + items[i + 1..] == items;
    hide ItemKeys;
  }

  lemma NullStops(code: DecimalCode, items: seq<Value>, i: nat)
    requires i < |items| && items[i].Null?
    ensures Key(code, Array(items)) == Key(code, Array(items[..i])) + (ItemKeys(code, items[i + 1..]) + [END])
  {
    ItemsSplit(code, items, i);
    var a, b := ItemKeys(code, items[..i]), ItemKeys(code, items[i + 1..]);
    assert Key(code, Array(items[..i])) == [ARRAY_TAG] + (a + [END]) && Key(code, Null) == [END];
    hide Key, ItemKeys;
    Assoc(a + [END], b, [END]);
    Assoc([ARRAY_TAG], a + [END], b + [END]);
  }

  lemma InnerStops(code: DecimalCode, items: seq<Value>, i: nat, u: Value, s: seq<Value>)
    requires i < |items| && Key(code, items[i]) == Key(code, u) + (ItemKeys(code, s) + [END])
    ensures Key(code, Array(items))
         == Key(code, Array(items[..i] + [u] + s)) + (ItemKeys(code, items[i + 1..]) + [END])
  {
    ItemsSplit(code, items, i);
    ItemKeysAround(code, items[..i], u, s);
    var a, b := ItemKeys(code, items[..i]), ItemKeys(code, items[i + 1..]);
    var k, r := Key(code, u), ItemKeys(code, s);
    assert Key(code, Array(items[..i] + [u] + s)) == [ARRAY_TAG] + (a + k + r + [END]);
    hide Key, ItemKeys;
    Assoc(a, k, r + [END]);
    Assoc(a + k, r, [END]);
    Assoc(a + k + r + [END], b, [END]);
    Assoc([ARRAY_TAG], a + k + r + [END], b + [END]);
  }

  /** A value that is not clean goes on, as more elements and an end, after the key of another value. */
  lemma {:induction false} UncleanExtends(code: DecimalCode, v: Value) returns (w: Value, more: seq<Value>)
    requires WellFormed(v) && NoDocs(v) && !Clean(v)
    ensures WellFormed(w) && NoDocs(w) && WellFormed(Array(more)) && NoDocs(Array(more))
    ensures Key(code, v) == Key(code, w) + (ItemKeys(code, more) + [END])
    decreases v
  {
    hide Key, ItemKeys, Utf8;
    var items := v.items;
    var i := FirstUnclean(items);
    more := items[i + 1..];
    if items[i].Null? {
      w := Array(items[..i]);
      NullStops(code, items, i);
    } else {
      var u, s := UncleanExtends(code, items[i]);
      w := Array(items[..i] + [u] + s);
      InnerStops(code, items, i, u, s);
    }
  }

  /** Stripping such tails ends at a clean value whose key is a prefix. */
  lemma {:induction false} CleanPrefix(code: DecimalCode, v: Value) returns (w: Value, x: seq<Byte>)
    requires WellFormed(v) && NoDocs(v)
    ensures Clean(w) && Key(code, v) == Key(code, w) + x && (x == [] ==> w == v)
    decreases |Key(code, v)|
  {
    if Clean(v) {
      w, x := v, [];
    } else {
      var u, more := UncleanExtends(code, v);
      hide Key, ItemKeys, Clean, NoDocs;
      var tail := ItemKeys(code, more) + [END];
      assert |Key(code, v)| == |Key(code, u)| + |tail|;
      var y;
      w, y := CleanPrefix(code, u);
      x := y + tail;
      Assoc(Key(code, w), y, tail);
    }
  }

  /** Without documents a value is clean exactly when no other value's key is a proper prefix of its key. */
  lemma CleanExactly(code: DecimalCode, dcmp: DecimalOrder, v: Value)
    requires Sorts(code, dcmp) && WellFormed(v) && NoDocs(v)
    ensures Clean(v) <==>
              forall w, x :: WellFormed(w) && NoDocs(w) && Key(code, v) == Key(code, w) + x ==> x == []
  {
    hide Key, Clean, NoDocs;
    if Clean(v) {
      forall w, x | WellFormed(w) && NoDocs(w) && Key(code, v) == Key(code, w) + x ensures x == [] {
        var u, y := CleanPrefix(code, w);
        Assoc(Key(code, u), y, x);
        KeyPrefixFree(code, dcmp, v, u, [], y + x);
        assert Key(code, v) + [] == Key(code, v);
      }
    } else {
      var w, more := UncleanExtends(code, v);
      assert Key(code, v) == Key(code, w) + (ItemKeys(code, more) + [END]);
    }
  }

  lemma SameItemKeys(code: DecimalCode, a: seq<Value>, b: seq<Value>)
    requires ItemKeys(code, a) == ItemKeys(code, b)
    ensures Key(code, Array(a)) == Key(code, Array(b))
  {}

  lemma NestedNullItems(
    code: DecimalCode, before: seq<Value>, inner: seq<Value>, rest: seq<Value>, after: seq<Value>)
    ensures ItemKeys(code, before + [Array(inner + [Null] + rest)] + after)
         == ItemKeys(code, before + [Array(inner)] + rest + [Null] + after)
  {
    var whole, stopped := Array(inner + [Null] + rest), Array(inner);
    var b, r, a := ItemKeys(code, before), ItemKeys(code, rest), ItemKeys(code, after);
    assert Key(code, Null) == [END];
    hide Key, ItemKeys;
    ItemKeysAround(code, before, whole, after);
    NullEndsArray(code, inner, rest);
    ItemKeysAround(code, before, stopped, rest);
    ItemKeysAround(code, before + [stopped] + rest, Null, after);
    Regroup(b, Key(code, stopped), r, [END], a);
  }

  lemma Regroup(b: seq<Byte>, k: seq<Byte>, r: seq<Byte>, e: seq<Byte>, a: seq<Byte>)
    ensures b + (k + r + e) + a == (b + k + r) + e + a
  {
    Assoc(b, k + r, e);
    Assoc(b, k, r);
  }

  lemma NullEndsArray(code: DecimalCode, inner: seq<Value>, rest: seq<Value>)
    ensures Key(code, Array(inner + [Null] + rest)) == Key(code, Array(inner)) + ItemKeys(code, rest) + [END]
  {
    ItemKeysAround(code, inner, Null, rest);
  }

  lemma ItemKeysAround(code: DecimalCode, before: seq<Value>, v: Value, after: seq<Value>)
    ensures ItemKeys(code, before + [v] + after) == ItemKeys(code, before) + Key(code, v) + ItemKeys(code, after)
  {
    ItemKeysConcat(code, before + [v], after);
    ItemKeysConcat(code, before, [v]);
    OneItem(code, v);
  }

  lemma OneItem(code: DecimalCode, v: Value)
    ensures ItemKeys(code, [v]) == Key(code, v)
  {
    assert [v][1..] == [];
    assert ItemKeys(code, [v]) == Key(code, v) + ItemKeys(code, []);
  }

  // ---- exact equality keys ----

  /** Equal up to decimal normalisation at every depth; floats by bits. */
  predicate SameValue(v: Value, w: Value)
    decreases v, 0
  {
    match (v, w)
    case (Dec(d), Dec(e)) => MathCmp(d, e) == Equal
    case (Array(a), Array(b)) => SameItems(a, b)
    case (Doc(a), Doc(b)) => SameFields(a, b)
    case _ => v == w
  }

  predicate SameItems(a: seq<Value>, b: seq<Value>)
    decreases a, 1
  {
    |a| == |b| && forall i :: 0 <= i < |a| ==> SameValue(a[i], b[i])
  }

  predicate SameFields(a: seq<Field>, b: seq<Field>)
    decreases a, 1
  {
    |a| == |b| && forall i :: 0 <= i < |a| ==> a[i].name == b[i].name && SameValue(a[i].value, b[i].value)
  }

  lemma SameItemsStep(a: seq<Value>, b: seq<Value>)
    requires a != [] && b != []
    ensures SameItems(a, b) <==> SameValue(a[0], b[0]) && SameItems(a[1..], b[1..])
  {
    assert forall i :: 0 < i < |a| ==> a[i] == a[1..][i - 1];
    assert forall i :: 0 < i < |b| ==> b[i] == b[1..][i - 1];
    assert forall i :: 0 <= i < |a| - 1 ==> a[1..][i] == a[i + 1];
  }

  lemma SameFieldsStep(a: seq<Field>, b: seq<Field>)
    requires a != [] && b != []
    ensures SameFields(a, b)
       <==> a[0].name == b[0].name && SameValue(a[0].value, b[0].value) && SameFields(a[1..], b[1..])
  {
    assert forall i :: 0 < i < |a| ==> a[i] == a[1..][i - 1];
    assert forall i :: 0 < i < |b| ==> b[i] == b[1..][i - 1];
    assert forall i :: 0 <= i < |a| - 1 ==> a[1..][i] == a[i + 1];
  }

  lemma {:induction false} ExactOrderEqual(v: Value, w: Value)
    ensures Order(ExactOrder, v, w) == Equal <==> SameValue(v, w)
    decreases v
  {
    if KeyTag(v) == KeyTag(w) {
      match v {
        case Dec(d) =>
          CmpEqual(ExactBytes(d), ExactBytes(w.d));
          ExactBytesCanonical(d, w.d);
        case Str(s) => CmpEqual(s, w.s);
        case Bytes(raw) => CmpEqual(raw, w.raw);
        case Uuid(u) => CmpEqual(u, w.u);
        case Array(items) => ExactItemsEqual(items, w.items);
        case Doc(fields) => ExactFieldsEqual(fields, w.fields);
        case _ =>
      }
    }
  }

  lemma {:induction false} ExactItemsEqual(a: seq<Value>, b: seq<Value>)
    ensures OrderItems(ExactOrder, a, b) == Equal <==> SameItems(a, b)
    decreases a
  {
    hide SameValue, Order;
    if a != [] && b != [] {
      ExactOrderEqual(a[0], b[0]);
      ExactItemsEqual(a[1..], b[1..]);
      SameItemsStep(a, b);
    }
  }

  lemma {:induction false} ExactFieldsEqual(a: seq<Field>, b: seq<Field>)
    ensures OrderFields(ExactOrder, a, b) == Equal <==> SameFields(a, b)
    decreases a
  {
    hide SameValue, Order;
    if a != [] && b != [] {
      CmpEqual(a[0].name, b[0].name);
      ExactOrderEqual(a[0].value, b[0].value);
      ExactFieldsEqual(a[1..], b[1..]);
      SameFieldsStep(a, b);
    }
  }

  /** Two values give one exact key, whatever follows, exactly when they are equal. */
  lemma ExactKeyEquality(v: Value, w: Value, x: seq<Byte>, y: seq<Byte>)
    requires Clean(v) && Clean(w)
    ensures EncodeExactKey(v) == EncodeExactKey(w) <==> SameValue(v, w)
    ensures EncodeExactKey(v) + x == EncodeExactKey(w) + y <==> SameValue(v, w) && x == y
  {
    ExactCodeSorts();
    KeyPrefixFree(ExactCode, ExactOrder, v, w, x, y);
    ExactOrderEqual(v, w);
  }

  predicate ContainsDecimal(v: Value) {
    match v
    case Dec(_) => true
    case Array(items) => exists i :: 0 <= i < |items| && ContainsDecimal(items[i])
    case Doc(fields) => exists i :: 0 <= i < |fields| && ContainsDecimal(fields[i].value)
    case _ => false
  }

  /** The two encodings differ only where a decimal occurs. */
  lemma {:induction false} KeyWithoutDecimals(c1: DecimalCode, c2: DecimalCode, v: Value)
    requires !ContainsDecimal(v)
    ensures Key(c1, v) == Key(c2, v)
    decreases v
  {
    match v {
      case Array(items) => ItemKeysWithoutDecimals(c1, c2, items);
      case Doc(fields) => FieldKeysWithoutDecimals(c1, c2, fields);
      case _ =>
    }
  }

  lemma {:induction false} ItemKeysWithoutDecimals(c1: DecimalCode, c2: DecimalCode, items: seq<Value>)
    requires forall i :: 0 <= i < |items| ==> !ContainsDecimal(items[i])
    ensures ItemKeys(c1, items) == ItemKeys(c2, items)
    decreases items
  {
    if items != [] {
      KeyWithoutDecimals(c1, c2, items[0]);
      ItemKeysWithoutDecimals(c1, c2, items[1..]);
    }
  }

  lemma {:induction false} FieldKeysWithoutDecimals(c1: DecimalCode, c2: DecimalCode, fields: seq<Field>)
    requires forall i :: 0 <= i < |fields| ==> !ContainsDecimal(fields[i].value)
    ensures FieldKeys(c1, fields) == FieldKeys(c2, fields)
    decreases fields
  {
    if fields != [] {
      KeyWithoutDecimals(c1, c2, fields[0].value);
      FieldKeysWithoutDecimals(c1, c2, fields[1..]);
    }
  }

  // ---- reading a numeric component back ----

  /** The value of the 64-bit word after a numeric tag. */
  function NumericOf(t: Byte, raw: U64): Option<Value> {
    if t == INT_TAG then Some(Int(AsI64(FlipSign(raw))))
    else if t == TIMESTAMP_TAG then Some(Timestamp(AsI64(FlipSign(raw))))
    else if t == FLOAT_TAG || t == DECIMAL_TAG then
      Some(Float(if raw >= SIGN then FlipSign(raw) else U64_LIMIT - 1 - raw))
    else None
  }

  function DecodeNumericKey(component: seq<Byte>): Option<Value> {
    if |component| < 9 then None
    else
      Pow256Values();
      NumericOf(component[0], FromBe(component[1..9]))
  }

  lemma TagSlice(t: Byte, body: seq<Byte>, x: seq<Byte>)
    ensures ([t] + (body + x))[1..1 + |body|] == body
    ensures ([t] + (body + x))[1..] == body + x
  {}

  /** The inverse of the key encoding on numeric components; a decimal comes back as its projection. */
  lemma NumericKeyRoundTrip(proj: Projection, v: Value, x: seq<Byte>)
    ensures DecodeNumericKey(EncodeKey(proj, v) + x) ==
            match v
            case Int(_) => Some(v)
            case Timestamp(_) => Some(v)
            case Float(_) => Some(v)
            case Dec(d) => Some(Float(proj(d)))
            case _ => None
  {
    hide Key, Be, FromBe, DecodeNumericKey;
    var t := KeyTag(v);
    KeySplit(SortCode(proj), v, x);
    match v {
      case Int(i) => NumericWord(t, FlipSign(AsU64(i)), x);
      case Timestamp(n) => NumericWord(t, FlipSign(AsU64(n)), x);
      case Float(bits) => NumericWord(t, F64Word(bits), x);
      case Dec(d) => NumericWord(t, F64Word(proj(d)), x);
      case _ => NotNumeric(EncodeKey(proj, v) + x);
    }
  }

  lemma NumericWord(t: Byte, w: U64, x: seq<Byte>)
    ensures DecodeNumericKey([t] + (Be(w, 8) + x)) == NumericOf(t, w)
  {
    hide Be, FromBe;
    TagSlice(t, Be(w, 8), x);
    Pow256Values();
    BeRoundTrip(w, 8);
  }

  lemma NotNumeric(key: seq<Byte>)
    requires key != []
    requires key[0] != INT_TAG && key[0] != TIMESTAMP_TAG && key[0] != FLOAT_TAG && key[0] != DECIMAL_TAG
    ensures DecodeNumericKey(key) == None
  {
    hide FromBe;
  }
}
