/** A parse depends only on the bytes it consumes. */
module CodecLocal {
  import opened Bytes
  import opened Values
  import opened Codec

  /** The bytes of `s` before its suffix `rest`. */
  function Used(s: seq<Byte>, rest: seq<Byte>): seq<Byte>
    requires |rest| <= |s|
  {
    s[..|s| - |rest|]
  }

  ghost predicate SuffixOf(rest: seq<Byte>, s: seq<Byte>) {
    |rest| <= |s| && s[|s| - |rest|..] == rest
  }

  lemma SuffixStep(s: seq<Byte>, r: seq<Byte>, q: seq<Byte>)
    requires SuffixOf(r, s) && SuffixOf(q, r)
    ensures SuffixOf(q, s) && Used(s, q) == Used(s, r) + Used(r, q)
  {
    var k := |s| - |r|;
    assert r == s[k..];
    assert q == r[|r| - |q|..] == s[|s| - |q|..];
  }

  lemma TakeLocal(s: seq<Byte>, n: nat, x: seq<Byte>)
    requires n <= |s|
    ensures SuffixOf(s[n..], s) && Used(s, s[n..]) == s[..n] && Take(s[..n] + x, n) == Ok(s[..n], x)
  {
    TakeOf(s[..n], x);
  }

  lemma ReadPrefixedLocal(s: seq<Byte>, x: seq<Byte>)
    requires ReadPrefixed(s).Ok?
    ensures var q := ReadPrefixed(s).rest;
            SuffixOf(q, s) && ReadPrefixed(Used(s, q) + x) == Ok(ReadPrefixed(s).value, x)
  {
    hide FromLe;
    var n, q := ReadU32(s).value, ReadPrefixed(s).rest;
    var r := s[4..];
    TakeLocal(r, n, x);
    TakeLocal(s, 4, r[..n] + x);
    SuffixStep(s, r, q);
    Assoc(s[..4], r[..n], x);
  }

  lemma FixedLocal(s: seq<Byte>, n: nat, x: seq<Byte>)
    requires n <= |s|
    ensures SuffixOf(s[n..], s)
    ensures (Used(s, s[n..]) + x)[..n] == s[..n] && (Used(s, s[n..]) + x)[n..] == x
  {}

  lemma ReadDecimalLocal(s: seq<Byte>, x: seq<Byte>)
    requires ReadDecimal(s).Ok?
    ensures var q := ReadDecimal(s).rest;
            SuffixOf(q, s) && ReadDecimal(Used(s, q) + x) == Ok(ReadDecimal(s).value, x)
  {
    hide FromLe;
    var r := s[16..];
    TakeLocal(r, 4, x);
    TakeLocal(s, 16, r[..4] + x);
    SuffixStep(s, r, r[4..]);
    Assoc(s[..16], r[..4], x);
  }

  lemma ScalarLocal(t: Byte, s: seq<Byte>, x: seq<Byte>)
    requires ParseScalar(t, s).Ok?
    ensures var q := ParseScalar(t, s).rest;
            SuffixOf(q, s) && ParseScalar(t, Used(s, q) + x) == Ok(ParseScalar(t, s).value, x)
  {
    hide FromLe, Utf8, ReadPrefixed, ReadDecimal;
    if t == NULL_TAG {
      assert [] + x == x;
    } else if t == BOOL_TAG {
      FixedLocal(s, 1, x);
    } else if t == DECIMAL_TAG {
      ReadDecimalLocal(s, x);
    } else if t == STRING_TAG || t == BYTES_TAG {
      ReadPrefixedLocal(s, x);
    } else if t == UUID_TAG {
      FixedLocal(s, 16, x);
    } else {
      FixedLocal(s, 8, x);
    }
  }

  lemma HeadLocal(s: seq<Byte>, q: seq<Byte>, x: seq<Byte>)
    requires s != [] && SuffixOf(q, s[1..])
    ensures SuffixOf(q, s) && Used(s, q) == [s[0]] + Used(s[1..], q)
    ensures ReadU8(Used(s, q) + x) == Ok(s[0], Used(s[1..], q) + x)
  {
    SuffixStep(s, s[1..], q);
    Assoc([s[0]], Used(s[1..], q), x);
    ReadU8Of(s[0], Used(s[1..], q) + x);
  }

  lemma CountLocal(s: seq<Byte>, q: seq<Byte>, x: seq<Byte>)
    requires ReadU32(s).Ok? && SuffixOf(q, ReadU32(s).rest)
    ensures SuffixOf(q, s)
    ensures ReadU32(Used(s, q) + x) == Ok(ReadU32(s).value, Used(ReadU32(s).rest, q) + x)
  {
    hide FromLe;
    var r := s[4..];
    SuffixStep(s, r, q);
    Assoc(s[..4], Used(r, q), x);
    TakeLocal(s, 4, Used(r, q) + x);
  }

  /** One value parses the same from its own bytes, whatever follows. */
  lemma {:induction false} ParseLocal(s: seq<Byte>, x: seq<Byte>)
    requires Parse(s).Ok?
    ensures SuffixOf(Parse(s).rest, s)
    ensures Parse(Used(s, Parse(s).rest) + x) == Ok(Parse(s).value, x)
    decreases |s|, 0, 0
  {
    hide ParseScalar, ParseItems, ParseFields, ReadU32, Used, SuffixOf;
    var t, r, q := s[0], s[1..], Parse(s).rest;
    if t == ARRAY_TAG {
      ItemsLocal(ReadU32(r).rest, ReadU32(r).value, x);
      CountLocal(r, q, x);
    } else if t == DOCUMENT_TAG {
      FieldsLocal(ReadU32(r).rest, ReadU32(r).value, [], x);
      CountLocal(r, q, x);
    } else {
      ScalarLocal(t, r, x);
    }
    HeadLocal(s, q, x);
  }

  lemma {:induction false} ItemsLocal(s: seq<Byte>, n: nat, x: seq<Byte>)
    requires ParseItems(s, n).Ok?
    ensures SuffixOf(ParseItems(s, n).rest, s)
    ensures ParseItems(Used(s, ParseItems(s, n).rest) + x, n) == Ok(ParseItems(s, n).value, x)
    decreases |s|, 1, n
  {
    hide Parse, Used, SuffixOf;
    if n == 0 {
      NoItemsLocal(s, x);
    } else {
      var r, q := Parse(s).rest, ParseItems(s, n).rest;
      ItemsLocal(r, n - 1, x);
      ParseLocal(s, Used(r, q) + x);
      SuffixStep(s, r, q);
      Assoc(Used(s, r), Used(r, q), x);
    }
  }

  lemma NoItemsLocal(s: seq<Byte>, x: seq<Byte>)
    ensures SuffixOf(s, s) && ParseItems(Used(s, s) + x, 0) == Ok([], x)
  {
    assert [] + x == x;
  }

  lemma {:induction false} FieldsLocal(s: seq<Byte>, n: nat, fields: seq<Field>, x: seq<Byte>)
    requires ParseFields(s, n, fields).Ok?
    ensures SuffixOf(ParseFields(s, n, fields).rest, s)
    ensures var p := ParseFields(s, n, fields); ParseFields(Used(s, p.rest) + x, n, fields) == Ok(p.value, x)
    decreases |s|, 1, n
  {
    hide Parse, ParseFields, ReadStr, Insert, Used, SuffixOf;
    if n == 0 {
      NoFieldsLocal(s, fields, x);
    } else {
      FieldsStep(s, n, fields);
      var Ok(name, r) := ReadStr(s);
      var Ok(v, r2) := Parse(r);
      var q, more := ParseFields(s, n, fields).rest, Insert(fields, name, v);
      FieldsLocal(r2, n - 1, more, x);
      var y2 := Used(r2, q) + x;
      var y1 := Used(r, r2) + y2;
      ParseLocal(r, y2);
      ReadStrLocal(s, y1);
      SuffixChain(s, r, r2, q, x);
      FieldsFrom(Used(s, q) + x, n, fields, name, y1, v, y2);
    }
  }

  lemma NoFieldsLocal(s: seq<Byte>, fields: seq<Field>, x: seq<Byte>)
    ensures SuffixOf(ParseFields(s, 0, fields).rest, s)
    ensures var p := ParseFields(s, 0, fields); ParseFields(Used(s, p.rest) + x, 0, fields) == Ok(p.value, x)
  {
    assert [] + x == x;
  }

  lemma FieldsFrom(
    s: seq<Byte>, n: nat, fields: seq<Field>, name: seq<Byte>, r: seq<Byte>, v: Value, r2: seq<Byte>)
    requires n > 0 && ReadStr(s) == Ok(name, r) && Parse(r) == Ok(v, r2)
    ensures ParseFields(s, n, fields) == ParseFields(r2, n - 1, Insert(fields, name, v))
  {
    FieldsStep(s, n, fields);
  }

  lemma ReadStrLocal(s: seq<Byte>, x: seq<Byte>)
    requires ReadStr(s).Ok?
    ensures SuffixOf(ReadStr(s).rest, s) && ReadStr(Used(s, ReadStr(s).rest) + x) == Ok(ReadStr(s).value, x)
  {
    hide ReadPrefixed, Utf8;
    ReadPrefixedLocal(s, x);
  }

  lemma SuffixChain(s: seq<Byte>, r: seq<Byte>, r2: seq<Byte>, q: seq<Byte>, x: seq<Byte>)
    requires SuffixOf(r, s) && SuffixOf(r2, r) && SuffixOf(q, r2)
    ensures SuffixOf(q, s) && Used(s, q) + x == Used(s, r) + (Used(r, r2) + (Used(r2, q) + x))
  {
    SuffixStep(r, r2, q);
    SuffixStep(s, r, q);
    Assoc(Used(r, r2), Used(r2, q), x);
    Assoc(Used(s, r), Used(r, r2) + Used(r2, q), x);
  }
}
