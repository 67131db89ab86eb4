/** Group keys transcoded straight from stored bytes. */
module GroupKeys {
  import opened Bytes
  import opened Values
  import opened Codec
  import opened CodecCursor
  import opened DocSelect
  import opened DocReads
  import opened DocScans
  import opened KeyTheorems
  import K = Keys
  import KeyWriter

  lemma TaggedKey(proj: Projection, v: Value, before: seq<Byte>)
    requires v.IsScalar()
    ensures before + EncodeKey(proj, v) == (before + [K.KeyTag(v)]) + K.ScalarBody(SortCode(proj), v)
  {
    hide K.ScalarBody;
    Assoc(before, [K.KeyTag(v)], K.ScalarBody(SortCode(proj), v));
  }

  /** Scalars whose stored form has a fixed width. */
  method TranscodeFixed(proj: Projection, t: Byte, cur: Cursor, out: Buffer) returns (ok: bool)
    requires cur.Valid() && t != STRING_TAG && t != BYTES_TAG
    modifies cur, out
    ensures ok == ParseScalar(t, old(cur.Rest())).Ok?
    ensures ok ==> out.bytes == old(out.bytes) + EncodeKey(proj, ParseScalar(t, old(cur.Rest())).value)
    ensures old(out.bytes) <= out.bytes
  {
    hide ReadU64, ReadDecimal, ReadU8, Take, K.I64Bytes, K.F64Bytes, K.Key;
    ghost var p := ParseScalar(t, cur.Rest());
    ghost var before := out.bytes;
    if p.Ok? { TaggedKey(proj, p.value, before); }
    if t == NULL_TAG {
      out.Push(K.NULL_TAG);
    } else if t == BOOL_TAG {
      out.Push(K.BOOL_TAG);
      var b := cur.NextU8();
      if b.None? { return false; }
      out.Push(if b.value != 0 then 1 else 0);
    } else if t == INT_TAG {
      out.Push(K.INT_TAG);
      var u := cur.NextU64();
      if u.None? { return false; }
      out.Extend(K.I64Bytes(AsI64(u.value)));
    } else if t == FLOAT_TAG {
      out.Push(K.FLOAT_TAG);
      var u := cur.NextU64();
      if u.None? { return false; }
      out.Extend(K.F64Bytes(u.value));
    } else if t == DECIMAL_TAG {
      var d := cur.NextDecimal();
      if d.None? { return false; }
      out.Push(K.DECIMAL_TAG);
      out.Extend(K.F64Bytes(proj(d.value)));
    } else if t == UUID_TAG {
      out.Push(K.UUID_TAG);
      var u := cur.TakeBytes(16);
      if u.None? { return false; }
      out.Extend(u.value);
    } else if t == TIMESTAMP_TAG {
      out.Push(K.TIMESTAMP_TAG);
      var u := cur.NextU64();
      if u.None? { return false; }
      out.Extend(K.I64Bytes(AsI64(u.value)));
    } else {
      return false;
    }
    return true;
  }

  method TranscodeText(proj: Projection, t: Byte, cur: Cursor, out: Buffer) returns (ok: bool)
    requires cur.Valid() && (t == STRING_TAG || t == BYTES_TAG)
    modifies cur, out
    ensures ok == ParseScalar(t, old(cur.Rest())).Ok?
    ensures ok ==> out.bytes == old(out.bytes) + EncodeKey(proj, ParseScalar(t, old(cur.Rest())).value)
    ensures old(out.bytes) <= out.bytes
  {
    hide ReadPrefixed, Utf8, K.Escaped, K.Key;
    ghost var p := ParseScalar(t, cur.Rest());
    if p.Ok? { TaggedKey(proj, p.value, out.bytes); }
    var raw := cur.NextPrefixed();
    if raw.None? { return false; }
    if t == STRING_TAG && !Utf8(raw.value) { return false; }
    out.Push(if t == STRING_TAG then K.STRING_TAG else K.BYTES_TAG);
    KeyWriter.EncodeBytes(raw.value, out);
    return true;
  }

  /** `transcode_key_value`: succeeds exactly when the decoder would, and appends the decoded value's key. */
  method TranscodeKeyValue(proj: Projection, bytes: seq<Byte>, out: Buffer) returns (ok: bool)
    modifies out
    ensures ok == Parse(bytes).Ok?
    ensures ok ==> out.bytes == old(out.bytes) + EncodeKey(proj, Parse(bytes).value)
    ensures old(out.bytes) <= out.bytes
  {
    hide ParseScalar, ParseItems, ParseFields, ReadU32, EncodeKey;
    var cur := new Cursor(bytes);
    var t := cur.NextU8();
    if t.None? { return false; }
    if t.value == ARRAY_TAG || t.value == DOCUMENT_TAG {
      var whole := new Cursor(bytes);
      var v := whole.DecodeValue();
      if v.None? { return false; }
      KeyWriter.EncodeInto(proj, v.value, out);
      return true;
    } else if t.value == STRING_TAG || t.value == BYTES_TAG {
      ok := TranscodeText(proj, t.value, cur, out);
    } else {
      ok := TranscodeFixed(proj, t.value, cur, out);
    }
  }

  /** The array key of the recorded spans, NULL where a column is absent. */
  method WriteGroupKey(
    proj: Projection, bytes: seq<Byte>, spans: seq<Option<Span>>, out: Buffer, ghost items: seq<Value>)
    returns (ok: bool)
    requires InBounds(bytes, spans)
    modifies out
    ensures SpansHold(bytes, spans, items) ==> ok && out.bytes == old(out.bytes) + EncodeKey(proj, Array(items))
    ensures old(out.bytes) <= out.bytes
  {
    ghost var code := SortCode(proj);
    ghost var holds := SpansHold(bytes, spans, items);
    assert holds ==> K.ItemKeys(code, items[..0]) == [];
    ArrayKeyParts(proj, items, old(out.bytes));
    hide K.ItemKeys, K.Key, Parse;
    out.Push(K.ARRAY_TAG);
    for i := 0 to |spans|
      invariant old(out.bytes) <= out.bytes
      invariant holds ==> i <= |items| && out.bytes == (old(out.bytes) + [K.ARRAY_TAG]) + K.ItemKeys(code, items[..i])
    {
      ghost var before := out.bytes;
      match spans[i] {
        case None =>
          out.Push(K.NULL_TAG);
          NullKey(proj);
        case Some(sp) =>
          var one := TranscodeKeyValue(proj, bytes[sp.start..sp.end], out);
          if !one { return false; }
      }
      if holds {
        KeyWriter.ItemKeysNext(code, items, i);
        assert out.bytes == before + EncodeKey(proj, items[i]);
        Assoc(old(out.bytes) + [K.ARRAY_TAG], K.ItemKeys(code, items[..i]), EncodeKey(proj, items[i]));
      }
    }
    if holds { assert items[..|spans|] == items; }
    out.Push(K.END);
    return true;
  }

  lemma NullKey(proj: Projection)
    ensures EncodeKey(proj, Null) == [K.NULL_TAG]
  {}

  lemma ArrayKeyParts(proj: Projection, items: seq<Value>, before: seq<Byte>)
    ensures before + EncodeKey(proj, Array(items))
         == ((before + [K.ARRAY_TAG]) + K.ItemKeys(SortCode(proj), items)) + [K.END]
  {
    hide K.ItemKeys;
    var k := K.ItemKeys(SortCode(proj), items);
    Assoc(before, [K.ARRAY_TAG], k + [K.END]);
    Assoc(before + [K.ARRAY_TAG], k, [K.END]);
  }

  /** The walk that fills slots and spans. */
  method ScanGroup(bytes: seq<Byte>, keys: seq<Name>, wanted: seq<Name>) returns (r: Option<GroupState>)
    ensures forall d :: Decode(bytes) == Some(Doc(d)) ==>
              r.Some? && r.value.vals == Picked(d, wanted) && r.value.reserved == HasReserved(d)
              && SpansHold(bytes, r.value.spans, Columns(d, keys))
    ensures r.Some? ==> InBounds(bytes, r.value.spans) && Skip(bytes) == Ok((), [])
  {
    hide ParseFields, Parse, ReadStr, ReadPrefixed, Skip, Picked, HasReserved, Utf8, Decode, Insert, Columns, SpansHold,
      InBounds, Marked, SlotsAfter;
    var g := GroupState(seq(|wanted|, _ => None), seq(|keys|, _ => None), false);
    var cur := new Cursor(bytes);
    var header := OpenDocument(cur, false);
    if header.None? { return None; }
    var n := header.value;
    ghost var s0 := cur.Rest();
    ghost var p := ParseFields(s0, n, []);
    ghost var all: seq<Field> := [];
    StartGroup(p, bytes, s0, n, keys, wanted);
    for i := 0 to n
      invariant cur.Valid() && cur.bytes == bytes
      invariant OnTrack(p, cur.Rest(), n - i, all)
      invariant GroupedSoFar(p, bytes, all, keys, wanted, g)
      invariant SkipFields(s0, n) == SkipFields(cur.Rest(), n - i)
    {
      ghost var s := cur.Rest();
      if p.Ok? { OnTrackStep(p, s, n - i, all); }
      var next := GroupField(cur, keys, wanted, g);
      if next.None? {
        NotAccepted(bytes, s0, n);
        return None;
      }
      if p.Ok? {
        var sp: Span :| sp.start <= sp.end <= |bytes|
          && Parse(bytes[sp.start..sp.end]) == Ok(Parse(ReadStr(s).rest).value, [])
          && next.value.spans == Marked(g.spans, keys, ReadStr(s).value, sp);
        GroupStep(p, bytes, s, n - i, all, keys, wanted, g, next.value, sp);
      }
      g, all := next.value, After(all, s);
    }
    FinishWalk(bytes, s0, n, cur.Rest(), all);
    if cur.pos != |bytes| { return None; }
    return Some(g);
  }

  /**
    `scan_group_row`: on every accepted document the key appended is the composite key of the decoded
    columns (absent = NULL, repeats allowed), the values and the flag those of the full decode.
   */
  method ScanGroupRow(proj: Projection, bytes: seq<Byte>, keys: seq<Name>, wanted: seq<Name>, out: Buffer)
    returns (r: Option<(bool, seq<Option<Value>>)>)
    modifies out
    ensures forall d :: Decode(bytes) == Some(Doc(d)) ==>
              r == Some((HasReserved(d), Picked(d, wanted)))
              && out.bytes == old(out.bytes) + if keys == [] then [] else EncodeKey(proj, Array(Columns(d, keys)))
    ensures old(out.bytes) <= out.bytes
    ensures Skip(bytes) != Ok((), []) ==> r == None && out.bytes == old(out.bytes)
  {
    hide Decode, Picked, HasReserved, EncodeKey, SpansHold, InBounds, Skip;
    var g := ScanGroup(bytes, keys, wanted);
    if g.None? { return None; }
    if keys != [] {
      ghost var items := if exists d :: Decode(bytes) == Some(Doc(d))
        then (var d :| Decode(bytes) == Some(Doc(d)); Columns(d, keys)) else [];
      var ok := WriteGroupKey(proj, bytes, g.value.spans, out, items);
      if !ok { return None; }
    }
    return Some((g.value.reserved, g.value.vals));
  }

  lemma {:induction false} OrderItemsEqual(dcmp: K.DecimalOrder, a: seq<Value>, b: seq<Value>)
    requires |a| == |b|
    ensures K.OrderItems(dcmp, a, b) == Equal <==> forall i :: 0 <= i < |a| ==> K.Order(dcmp, a[i], b[i]) == Equal
    decreases |a|
  {
    hide K.Order;
    if a != [] {
      OrderItemsEqual(dcmp, a[1..], b[1..]);
      assert forall i :: 0 <= i < |a| - 1 ==> a[1..][i] == a[i + 1] && b[1..][i] == b[i + 1];
      assert forall i :: 0 < i < |a| ==> a[i] == a[1..][i - 1] && b[i] == b[1..][i - 1];
    }
  }

  /** Two rows share a group key exactly when their key columns compare equal one by one. */
  lemma GroupKeyShared(proj: Projection, c: seq<Field>, d: seq<Field>, keys: seq<Name>)
    requires Components(Columns(c, keys)) && Components(Columns(d, keys))
    ensures EncodeKey(proj, Array(Columns(c, keys))) == EncodeKey(proj, Array(Columns(d, keys)))
       <==> forall i :: 0 <= i < |keys| ==>
              K.Order(SortOrder(proj), Columns(c, keys)[i], Columns(d, keys)[i]) == Equal
  {
    hide Columns, EncodeKey, K.Order, K.OrderItems;
    ArrayKeyOrder(proj, Columns(c, keys), Columns(d, keys));
    OrderItemsEqual(SortOrder(proj), Columns(c, keys), Columns(d, keys));
  }
}
