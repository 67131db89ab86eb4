/** Probed decode, positional scans, and the scan that finds the stored bytes of group columns. */
module DocScans {
  import opened Bytes
  import opened Values
  import opened Codec
  import opened CodecCursor
  import opened CodecLocal
  import opened DocSelect
  import opened DocReads
  import opened Sequences

  // ---- probed decode ----

  lemma NullByTag(s: seq<Byte>)
    requires Parse(s).Ok?
    ensures s != [] && (Parse(s).value.Null? <==> s[0] == NULL_TAG)
  {
    hide ParseItems, ParseFields, ReadU32, ReadU64, ReadDecimal, ReadStr, ReadPrefixed, Take;
  }

  method ProbedField(cur: Cursor, wanted: set<Name>, probed: set<Name>, doc: seq<Field>)
    returns (r: Option<seq<Field>>)
    requires cur.Valid()
    modifies cur
    ensures cur.Valid() && old(cur.pos) <= cur.pos
    ensures var s := old(cur.Rest());
            ReadStr(s).Ok? && Parse(ReadStr(s).rest).Ok? ==>
              r == Some(Selected(doc, Probed(wanted, probed), ReadStr(s).value, Parse(ReadStr(s).rest).value))
              && cur.Rest() == Parse(ReadStr(s).rest).rest
    ensures r.Some? ==> var s := old(cur.Rest());
            ReadPrefixed(s).Ok? && Skip(ReadPrefixed(s).rest) == Ok((), cur.Rest())
  {
    hide Parse, Skip, Utf8, Insert, ReadPrefixed;
    var key := cur.NextStr();
    if key.None? { return None; }
    ghost var s := cur.Rest();
    if Parse(s).Ok? { SkipAgrees(s); NullByTag(s); }
    var name := key.value;
    if name in probed {
      if cur.pos < |cur.bytes| && cur.bytes[cur.pos] == NULL_TAG {
        var v := cur.DecodeValue();
        if v.None? { return None; }
        return Some(Insert(doc, name, v.value));
      } else {
        var skipped := cur.SkipValue();
        if skipped.None? { return None; }
        return Some(Insert(doc, name, Bool(true)));
      }
    } else if name in wanted || Reserved(name) {
      var v := cur.DecodeValue();
      if v.None? { return None; }
      return Some(Insert(doc, name, v.value));
    } else {
      var skipped := cur.SkipValue();
      if skipped.None? { return None; }
      return Some(doc);
    }
  }

  /** `decode_document_probed`: the projected document with probed fields reduced to NULL or true. */
  method DecodeDocumentProbed(bytes: seq<Byte>, wanted: set<Name>, probed: set<Name>) returns (r: Option<seq<Field>>)
    ensures forall d :: Decode(bytes) == Some(Doc(d)) ==> r == Some(Select(d, Probed(wanted, probed)))
    ensures r.Some? ==> Skip(bytes) == Ok((), [])
  {
    hide ParseFields, Parse, ReadStr, ReadPrefixed, Skip, Select, Selected, Utf8, Decode, Insert;
    var policy := Probed(wanted, probed);
    var cur := new Cursor(bytes);
    var header := OpenDocument(cur, true);
    if header.None? { return None; }
    var n := header.value;
    ghost var s0 := cur.Rest();
    ghost var p := ParseFields(s0, n, []);
    ghost var all: seq<Field> := [];
    var doc: seq<Field> := [];
    StartSelect(p, s0, n, policy);
    for i := 0 to n
      invariant cur.Valid() && cur.bytes == bytes
      invariant OnTrack(p, cur.Rest(), n - i, all)
      invariant SelectedSoFar(p, all, policy, doc)
      invariant SkipFields(s0, n) == SkipFields(cur.Rest(), n - i)
    {
      ghost var s := cur.Rest();
      if p.Ok? { OnTrackStep(p, s, n - i, all); }
      var next := ProbedField(cur, wanted, probed, doc);
      if next.None? {
        NotAccepted(bytes, s0, n);
        return None;
      }
      SelectStep(p, s, n - i, all, policy, doc, next.value);
      doc, all := next.value, After(all, s);
    }
    FinishWalk(bytes, s0, n, cur.Rest(), all);
    if cur.pos != |bytes| { return None; }
    return Some(doc);
  }

  // ---- positional scan ----

  /** The slots after one more stored field. */
  ghost predicate SlotsAfter(
    vals: seq<Option<Value>>, wanted: seq<Name>, name: Name, v: Value, vals': seq<Option<Value>>)
  {
    |vals'| == |vals| == |wanted| &&
    if name in wanted
    then exists k :: 0 <= k < |wanted| && wanted[k] == name && name !in wanted[..k] && vals' == vals[k := Some(v)]
    else vals' == vals
  }

  ghost predicate ScannedSoFar(
    p: Parsed<seq<Field>>, all: seq<Field>, wanted: seq<Name>, vals: seq<Option<Value>>, reserved: bool)
  {
    |vals| == |wanted| && (p.Ok? ==> vals == Picked(all, wanted) && reserved == HasReserved(all))
  }

  lemma ScanStep(
    p: Parsed<seq<Field>>, s: seq<Byte>, n: nat, all: seq<Field>, wanted: seq<Name>,
    vals: seq<Option<Value>>, reserved: bool, vals': seq<Option<Value>>, reserved': bool)
    requires OnTrack(p, s, n, all) && n > 0 && ScannedSoFar(p, all, wanted, vals, reserved) && |vals'| == |wanted|
    requires p.Ok? && ReadStr(s).Ok? && Parse(ReadStr(s).rest).Ok? ==>
               SlotsAfter(vals, wanted, ReadStr(s).value, Parse(ReadStr(s).rest).value, vals')
               && reserved' == (reserved || Reserved(ReadStr(s).value))
    ensures ScannedSoFar(p, After(all, s), wanted, vals', reserved')
  {
    hide ParseFields, Parse, Insert, ReadStr, Picked, Reserved, HasReserved, Sorted;
    if p.Ok? {
      OnTrackStep(p, s, n, all);
      var name, v := ReadStr(s).value, Parse(ReadStr(s).rest).value;
      HasReservedInsert(all, name, v);
      if name in wanted {
        var k :| 0 <= k < |wanted| && wanted[k] == name && name !in wanted[..k] && vals' == vals[k := Some(v)];
        PickedHit(all, wanted, name, v, k);
      } else {
        PickedMiss(all, wanted, name, v);
      }
    }
  }

  lemma StartScan(p: Parsed<seq<Field>>, s: seq<Byte>, n: nat, wanted: seq<Name>)
    requires p == ParseFields(s, n, [])
    ensures OnTrack(p, s, n, [])
    ensures ScannedSoFar(p, [], wanted, seq(|wanted|, _ => None), false)
  {
    assert Picked([], wanted) == seq(|wanted|, _ => None);
  }

  /** `scan_fields_into`: each wanted field's value in its (first) slot, and whether a reserved field is present. */
  method ScanFields(bytes: seq<Byte>, wanted: seq<Name>) returns (r: Option<(seq<Option<Value>>, bool)>)
    ensures forall d :: Decode(bytes) == Some(Doc(d)) ==> r == Some((Picked(d, wanted), HasReserved(d)))
    ensures r.Some? ==> Skip(bytes) == Ok((), [])
  {
    hide ParseFields, Parse, ReadStr, ReadPrefixed, Skip, Picked, HasReserved, Utf8, Decode, Insert;
    var vals: seq<Option<Value>> := seq(|wanted|, _ => None);
    var reserved := false;
    var cur := new Cursor(bytes);
    var header := OpenDocument(cur, false);
    if header.None? { return None; }
    var n := header.value;
    ghost var s0 := cur.Rest();
    ghost var p := ParseFields(s0, n, []);
    ghost var all: seq<Field> := [];
    StartScan(p, s0, n, wanted);
    for i := 0 to n
      invariant cur.Valid() && cur.bytes == bytes
      invariant OnTrack(p, cur.Rest(), n - i, all)
      invariant ScannedSoFar(p, all, wanted, vals, reserved)
      invariant SkipFields(s0, n) == SkipFields(cur.Rest(), n - i)
    {
      ghost var s := cur.Rest();
      if p.Ok? { OnTrackStep(p, s, n - i, all); }
      var next := ScanField(cur, wanted, vals, reserved);
      if next.None? {
        NotAccepted(bytes, s0, n);
        return None;
      }
      ScanStep(p, s, n - i, all, wanted, vals, reserved, next.value.0, next.value.1);
      vals, reserved, all := next.value.0, next.value.1, After(all, s);
    }
    FinishWalk(bytes, s0, n, cur.Rest(), all);
    if cur.pos != |bytes| { return None; }
    return Some((vals, reserved));
  }

  method ScanField(cur: Cursor, wanted: seq<Name>, vals: seq<Option<Value>>, reserved: bool)
    returns (r: Option<(seq<Option<Value>>, bool)>)
    requires cur.Valid() && |vals| == |wanted|
    modifies cur
    ensures cur.Valid() && old(cur.pos) <= cur.pos
    ensures var s := old(cur.Rest());
            ReadStr(s).Ok? && Parse(ReadStr(s).rest).Ok? ==>
              r.Some? && cur.Rest() == Parse(ReadStr(s).rest).rest
              && SlotsAfter(vals, wanted, ReadStr(s).value, Parse(ReadStr(s).rest).value, r.value.0)
              && r.value.1 == (reserved || Reserved(ReadStr(s).value))
    ensures r.Some? ==> |r.value.0| == |wanted|
    ensures r.Some? ==> var s := old(cur.Rest());
            ReadPrefixed(s).Ok? && Skip(ReadPrefixed(s).rest) == Ok((), cur.Rest())
  {
    hide Parse, Skip, Utf8, ReadPrefixed;
    var raw := cur.NextPrefixed();
    if raw.None? { return None; }
    ghost var s := cur.Rest();
    if Parse(s).Ok? { SkipAgrees(s); }
    var found := reserved || Reserved(raw.value);
    var k := Position(wanted, raw.value);
    if k.Some? {
      var v := cur.DecodeValue();
      if v.None? { return None; }
      return Some((vals[k.value := Some(v.value)], found));
    } else {
      var skipped := cur.SkipValue();
      if skipped.None? { return None; }
      return Some((vals, found));
    }
  }

  // ---- group keys ----

  /** Byte range of a stored value. */
  datatype Span = Span(start: nat, end: nat)

  predicate InBounds(bytes: seq<Byte>, spans: seq<Option<Span>>) {
    forall i :: 0 <= i < |spans| && spans[i].Some? ==> spans[i].value.start <= spans[i].value.end <= |bytes|
  }

  /** The spans hold the encodings of `items`; an absent span stands for NULL. */
  ghost predicate SpansHold(bytes: seq<Byte>, spans: seq<Option<Span>>, items: seq<Value>) {
    |spans| == |items| && InBounds(bytes, spans) &&
    forall i :: 0 <= i < |spans| ==>
      match spans[i]
      case None => items[i] == Null
      case Some(sp) => Parse(bytes[sp.start..sp.end]) == Ok(items[i], [])
  }

  lemma ColumnsHit(all: seq<Field>, names: seq<Name>, name: Name, v: Value)
    requires Sorted(all)
    ensures forall i :: 0 <= i < |names| ==>
              Columns(Insert(all, name, v), names)[i] == if names[i] == name then v else Columns(all, names)[i]
  {
    hide Sorted, Insert, Lookup;
    forall i | 0 <= i < |names|
      ensures Columns(Insert(all, name, v), names)[i] == if names[i] == name then v else Columns(all, names)[i]
    {
      InsertLookup(all, name, v, names[i]);
    }
  }

  function Marked(spans: seq<Option<Span>>, names: seq<Name>, name: Name, sp: Span): (r: seq<Option<Span>>)
    requires |spans| == |names|
    ensures |r| == |names|
  {
    seq(|names|, i requires 0 <= i < |names| => if names[i] == name then Some(sp) else spans[i])
  }

  method MarkSpans(spans: seq<Option<Span>>, names: seq<Name>, name: Name, sp: Span) returns (r: seq<Option<Span>>)
    requires |spans| == |names|
    ensures r == Marked(spans, names, name, sp)
  {
    r := spans;
    for i := 0 to |names|
      invariant |r| == |names|
      invariant forall j :: 0 <= j < |names| ==> r[j] == if j < i && names[j] == name then Some(sp) else spans[j]
    {
      if names[i] == name { r := r[i := Some(sp)]; }
    }
  }

  lemma MarkedHolds(bytes: seq<Byte>, spans: seq<Option<Span>>, names: seq<Name>, all: seq<Field>,
                    name: Name, v: Value, sp: Span)
    requires Sorted(all) && |spans| == |names| && SpansHold(bytes, spans, Columns(all, names))
    requires sp.start <= sp.end <= |bytes| && Parse(bytes[sp.start..sp.end]) == Ok(v, [])
    ensures SpansHold(bytes, Marked(spans, names, name, sp), Columns(Insert(all, name, v), names))
  {
    hide Sorted, Insert, Columns, Parse;
    ColumnsHit(all, names, name, v);
  }

  /** The stored bytes of a value, taken out of the row, decode to it. */
  lemma SpanParses(bytes: seq<Byte>, start: nat, end: nat)
    requires start <= end <= |bytes| && Parse(bytes[start..]).Ok? && Parse(bytes[start..]).rest == bytes[end..]
    ensures Parse(bytes[start..end]) == Ok(Parse(bytes[start..]).value, [])
  {
    hide Parse;
    var s, q := bytes[start..], bytes[end..];
    ParseLocal(s, []);
    assert Used(s, q) + [] == bytes[start..end];
  }

  /** The state of a group-row walk after some fields. */
  datatype GroupState = GroupState(vals: seq<Option<Value>>, spans: seq<Option<Span>>, reserved: bool)

  ghost predicate GroupedSoFar(
    p: Parsed<seq<Field>>, bytes: seq<Byte>, all: seq<Field>, keys: seq<Name>, wanted: seq<Name>, g: GroupState)
  {
    ScannedSoFar(p, all, wanted, g.vals, g.reserved)
    && |g.spans| == |keys| && InBounds(bytes, g.spans)
    && (p.Ok? ==> SpansHold(bytes, g.spans, Columns(all, keys)))
  }

  lemma StartGroup(p: Parsed<seq<Field>>, bytes: seq<Byte>, s: seq<Byte>, n: nat, keys: seq<Name>, wanted: seq<Name>)
    requires p == ParseFields(s, n, [])
    ensures OnTrack(p, s, n, [])
    ensures GroupedSoFar(p, bytes, [], keys, wanted,
                         GroupState(seq(|wanted|, _ => None), seq(|keys|, _ => None), false))
  {
    StartScan(p, s, n, wanted);
  }

  /** One stored field of the walk: value slots, key spans, reserved flag. */
  method GroupField(cur: Cursor, keys: seq<Name>, wanted: seq<Name>, g: GroupState) returns (r: Option<GroupState>)
    requires cur.Valid() && |g.vals| == |wanted| && |g.spans| == |keys| && InBounds(cur.bytes, g.spans)
    modifies cur
    ensures cur.Valid() && old(cur.pos) <= cur.pos
    ensures r.Some? ==> |r.value.vals| == |wanted| && |r.value.spans| == |keys| && InBounds(cur.bytes, r.value.spans)
    ensures var s := old(cur.Rest());
            ReadStr(s).Ok? && Parse(ReadStr(s).rest).Ok? ==>
              r.Some? && cur.Rest() == Parse(ReadStr(s).rest).rest
              && SlotsAfter(g.vals, wanted, ReadStr(s).value, Parse(ReadStr(s).rest).value, r.value.vals)
              && r.value.reserved == (g.reserved || Reserved(ReadStr(s).value))
              && exists sp: Span :: sp.start <= sp.end <= |cur.bytes|
                   && Parse(cur.bytes[sp.start..sp.end]) == Ok(Parse(ReadStr(s).rest).value, [])
                   && r.value.spans == Marked(g.spans, keys, ReadStr(s).value, sp)
    ensures r.Some? ==> var s := old(cur.Rest());
            ReadPrefixed(s).Ok? && Skip(ReadPrefixed(s).rest) == Ok((), cur.Rest())
  {
    hide Parse, Skip, Utf8, ReadPrefixed;
    var raw := cur.NextPrefixed();
    if raw.None? { return None; }
    ghost var s := cur.Rest();
    if Parse(s).Ok? { SkipAgrees(s); }
    var reserved := g.reserved || Reserved(raw.value);
    var valHit := Position(wanted, raw.value);
    var keyHit := raw.value in keys;
    var start := cur.pos;
    var vals := g.vals;
    if valHit.Some? {
      var v := cur.DecodeValue();
      if v.None? { return None; }
      vals := vals[valHit.value := Some(v.value)];
    } else {
      var skipped := cur.SkipValue();
      if skipped.None? { return None; }
    }
    ghost var sp := Span(start, cur.pos);
    if Parse(s).Ok? { SpanParses(cur.bytes, start, cur.pos); }
    if !keyHit {
      assert g.spans == Marked(g.spans, keys, raw.value, sp);
      return Some(GroupState(vals, g.spans, reserved));
    }
    var spans := MarkSpans(g.spans, keys, raw.value, Span(start, cur.pos));
    return Some(GroupState(vals, spans, reserved));
  }

  lemma GroupStep(
    p: Parsed<seq<Field>>, bytes: seq<Byte>, s: seq<Byte>, n: nat, all: seq<Field>, keys: seq<Name>, wanted: seq<Name>,
    g: GroupState, g': GroupState, sp: Span)
    requires OnTrack(p, s, n, all) && n > 0 && GroupedSoFar(p, bytes, all, keys, wanted, g) && p.Ok?
    requires ReadStr(s).Ok? && Parse(ReadStr(s).rest).Ok?
    requires SlotsAfter(g.vals, wanted, ReadStr(s).value, Parse(ReadStr(s).rest).value, g'.vals)
    requires g'.reserved == (g.reserved || Reserved(ReadStr(s).value))
    requires sp.start <= sp.end <= |bytes| && Parse(bytes[sp.start..sp.end]) == Ok(Parse(ReadStr(s).rest).value, [])
    requires g'.spans == Marked(g.spans, keys, ReadStr(s).value, sp)
    ensures GroupedSoFar(p, bytes, After(all, s), keys, wanted, g')
  {
    hide ParseFields, Parse, Insert, ReadStr, Columns, Marked, SpansHold, ScannedSoFar, Reserved, SlotsAfter, Sorted;
    OnTrackStep(p, s, n, all);
    assert ScannedSoFar(p, After(all, s), wanted, g'.vals, g'.reserved) by {
      ScanGroupStep(p, s, n, all, keys, wanted, g, g');
    }
    MarkedHolds(bytes, g.spans, keys, all, ReadStr(s).value, Parse(ReadStr(s).rest).value, sp);
    HoldsInBounds(bytes, g'.spans, Columns(After(all, s), keys));
  }

  lemma ScanGroupStep(
    p: Parsed<seq<Field>>, s: seq<Byte>, n: nat, all: seq<Field>, keys: seq<Name>, wanted: seq<Name>,
    g: GroupState, g': GroupState)
    requires OnTrack(p, s, n, all) && n > 0 && ScannedSoFar(p, all, wanted, g.vals, g.reserved)
    requires ReadStr(s).Ok? && Parse(ReadStr(s).rest).Ok?
    requires SlotsAfter(g.vals, wanted, ReadStr(s).value, Parse(ReadStr(s).rest).value, g'.vals)
    requires g'.reserved == (g.reserved || Reserved(ReadStr(s).value))
    ensures ScannedSoFar(p, After(all, s), wanted, g'.vals, g'.reserved)
  {
    hide ParseFields, Parse, Insert, ReadStr, Picked, HasReserved, Sorted, After, Reserved;
    assert |g'.vals| == |wanted|;
    ScanStep(p, s, n, all, wanted, g.vals, g.reserved, g'.vals, g'.reserved);
  }

  lemma HoldsInBounds(bytes: seq<Byte>, spans: seq<Option<Span>>, items: seq<Value>)
    requires SpansHold(bytes, spans, items)
    ensures |spans| == |items| && InBounds(bytes, spans)
  {}
}
