/** Reads of an encoded document that build only part of it, against the full decode. */
module DocReads {
  import opened Bytes
  import opened Values
  import opened Codec
  import opened CodecCursor
  import opened DocSelect

  /** "\u{1}names": asks for every field's name. */
  const FIELD_NAMES_MARKER: Name := [0x01, 0x6E, 0x61, 0x6D, 0x65, 0x73]

  function Projected(wanted: set<Name>): Policy {
    name =>
      if name in wanted || Reserved(name) then Keep
      else if FIELD_NAMES_MARKER in wanted then Blank
      else Drop
  }

  function Probed(wanted: set<Name>, probed: set<Name>): Policy {
    name =>
      if name in probed then Probe
      else if name in wanted || Reserved(name) then Keep
      else Drop
  }

  /** Whether a name is one the storage engine keeps for itself: it begins with U+0001. */
  predicate Internal(name: Name) {
    |name| > 0 && name[0] == 0x01
  }

  /** The projection, name by name: wanted and internal fields as they are; of the others at most the name. */
  lemma ProjectedMeans(d: seq<Field>, wanted: set<Name>, name: Name)
    ensures Lookup(Select(d, Projected(wanted)), name) ==
            if name in wanted || Internal(name) then Lookup(d, name)
            else if Lookup(d, name).Some? && [0x01, 0x6E, 0x61, 0x6D, 0x65, 0x73] in wanted then Some(Null)
            else None
  {
    SelectLookup(d, Projected(wanted), name);
    hide Select, Lookup;
  }

  /** The probe, name by name: a probed field says only whether it is NULL. */
  lemma ProbedMeans(d: seq<Field>, wanted: set<Name>, probed: set<Name>, name: Name)
    ensures Lookup(Select(d, Probed(wanted, probed)), name) ==
            match Lookup(d, name)
            case None => None
            case Some(v) =>
              if name in probed then Some(if v == Null then Null else Bool(true))
              else if name in wanted || Internal(name) then Some(v) else None
  {
    SelectLookup(d, Probed(wanted, probed), name);
    hide Select, Lookup;
  }

  // ---- following the full decode through a walk ----

  /** The parse of a document's fields, from the bytes after its tag. */
  function DocBody(s: seq<Byte>): Parsed<seq<Field>> {
    var (n, r) :- ReadU32(s);
    ParseFields(r, n, [])
  }

  lemma DecodedBody(bytes: seq<Byte>, d: seq<Field>)
    requires Decode(bytes) == Some(Doc(d))
    ensures bytes != [] && bytes[0] == DOCUMENT_TAG && DocBody(bytes[1..]) == Ok(d, [])
  {
    hide ParseFields, ParseItems, ParseScalar, ReadU32;
  }

  /** Where the walk is if the full decode `p` succeeds: `n` fields to go, `all` decoded so far. */
  ghost predicate OnTrack(p: Parsed<seq<Field>>, s: seq<Byte>, n: nat, all: seq<Field>) {
    p.Ok? ==> ParseFields(s, n, all) == p && Sorted(all)
  }

  lemma OnTrackStep(p: Parsed<seq<Field>>, s: seq<Byte>, n: nat, all: seq<Field>)
    requires OnTrack(p, s, n, all) && n > 0 && p.Ok?
    ensures ReadStr(s).Ok? && ReadPrefixed(s) == ReadStr(s) && Parse(ReadStr(s).rest).Ok?
    ensures Skip(ReadStr(s).rest) == Ok((), Parse(ReadStr(s).rest).rest)
    ensures var v := Parse(ReadStr(s).rest);
            OnTrack(p, v.rest, n - 1, Insert(all, ReadStr(s).value, v.value))
  {
    FieldsStep(s, n, all);
    hide ParseFields, Parse, Skip, ReadPrefixed, Utf8, Insert, Sorted;
    SkipAgrees(ReadStr(s).rest);
    InsertSorted(all, ReadStr(s).value, Parse(ReadStr(s).rest).value);
  }

  /** The document decoded so far, one stored field later. */
  ghost function After(all: seq<Field>, s: seq<Byte>): seq<Field> {
    if ReadStr(s).Ok? && Parse(ReadStr(s).rest).Ok?
    then Insert(all, ReadStr(s).value, Parse(ReadStr(s).rest).value) else all
  }

  ghost predicate SelectedSoFar(p: Parsed<seq<Field>>, all: seq<Field>, policy: Policy, doc: seq<Field>) {
    p.Ok? ==> doc == Select(all, policy)
  }

  lemma SelectStep(
    p: Parsed<seq<Field>>, s: seq<Byte>, n: nat, all: seq<Field>, policy: Policy, doc: seq<Field>, doc': seq<Field>)
    requires OnTrack(p, s, n, all) && n > 0 && SelectedSoFar(p, all, policy, doc)
    requires p.Ok? ==> (ReadStr(s).Ok? && Parse(ReadStr(s).rest).Ok? ==>
               doc' == Selected(doc, policy, ReadStr(s).value, Parse(ReadStr(s).rest).value))
    ensures SelectedSoFar(p, After(all, s), policy, doc')
  {
    hide ParseFields, Parse, Select, Insert, ReadStr, Selected;
    if p.Ok? {
      OnTrackStep(p, s, n, all);
      SelectInsert(all, policy, ReadStr(s).value, Parse(ReadStr(s).rest).value);
    }
  }

  // ---- the walks ----

  lemma AcceptedHeader(bytes: seq<Byte>)
    ensures (exists d :: Decode(bytes) == Some(Doc(d))) ==>
              bytes != [] && bytes[0] == DOCUMENT_TAG && ReadU32(bytes[1..]).Ok?
              && ReadU32(bytes[1..]).value <= |ReadU32(bytes[1..]).rest| / 5
  {
    hide Decode, ParseFields, ReadU32;
    if exists d :: Decode(bytes) == Some(Doc(d)) {
      var d :| Decode(bytes) == Some(Doc(d));
      DecodedBody(bytes, d);
      FieldsNeedBytes(ReadU32(bytes[1..]).rest, ReadU32(bytes[1..]).value, []);
    }
  }

  /** The tag and the field count; `guarded` readers refuse a count the bytes cannot hold. */
  method OpenDocument(cur: Cursor, guarded: bool) returns (r: Option<nat>)
    requires cur.Valid() && cur.pos == 0
    modifies cur
    ensures cur.Valid()
    ensures r.Some? ==>
              cur.bytes != [] && cur.bytes[0] == DOCUMENT_TAG && ReadU32(cur.bytes[1..]) == Ok(r.value, cur.Rest())
    ensures (exists d :: Decode(cur.bytes) == Some(Doc(d))) ==> r.Some?
    ensures !guarded && cur.bytes != [] && cur.bytes[0] == DOCUMENT_TAG && ReadU32(cur.bytes[1..]).Ok? ==> r.Some?
  {
    hide ParseFields, Parse, ReadU32;
    var bytes := cur.bytes;
    assert cur.Rest() == bytes;
    AcceptedHeader(bytes);
    var t := cur.NextU8();
    var n: Option<U32> := None;
    if t == Some(DOCUMENT_TAG) {
      n := cur.NextU32();
    }
    if n.None? || (guarded && n.value > (|cur.bytes| - cur.pos) / 5) { return None; }
    return Some(n.value);
  }

  /** One field of the projected decode with few wanted names: names compared as raw bytes. */
  method ProjectSmallField(cur: Cursor, wanted: set<Name>, doc: seq<Field>) returns (r: Option<seq<Field>>)
    requires cur.Valid()
    requires forall w :: w in wanted ==> Utf8(w)
    modifies cur
    ensures cur.Valid() && old(cur.pos) <= cur.pos
    ensures var s := old(cur.Rest());
            ReadStr(s).Ok? && Parse(ReadStr(s).rest).Ok? ==>
              r == Some(Selected(doc, Projected(wanted), ReadStr(s).value, Parse(ReadStr(s).rest).value))
              && cur.Rest() == Parse(ReadStr(s).rest).rest
    ensures r.Some? ==> var s := old(cur.Rest());
            ReadPrefixed(s).Ok? && Skip(ReadPrefixed(s).rest) == Ok((), cur.Rest())
  {
    hide Parse, Skip, Utf8, Insert, ReadPrefixed;
    var raw := cur.NextPrefixed();
    if raw.None? { return None; }
    ghost var s := cur.Rest();
    if Parse(s).Ok? { SkipAgrees(s); }
    var name := raw.value;
    if name in wanted {
      var v := cur.DecodeValue();
      if v.None? { return None; }
      return Some(Insert(doc, name, v.value));
    } else if Reserved(name) {
      if !Utf8(name) { return None; }
      var v := cur.DecodeValue();
      if v.None? { return None; }
      return Some(Insert(doc, name, v.value));
    } else if FIELD_NAMES_MARKER in wanted {
      if !Utf8(name) { return None; }
      var skipped := cur.SkipValue();
      if skipped.None? { return None; }
      return Some(Insert(doc, name, Null));
    } else {
      var skipped := cur.SkipValue();
      if skipped.None? { return None; }
      return Some(doc);
    }
  }

  /** One field of the projected decode with many wanted names: names decoded, then looked up. */
  method ProjectHashedField(cur: Cursor, wanted: set<Name>, doc: seq<Field>) returns (r: Option<seq<Field>>)
    requires cur.Valid()
    modifies cur
    ensures cur.Valid() && old(cur.pos) <= cur.pos
    ensures var s := old(cur.Rest());
            ReadStr(s).Ok? && Parse(ReadStr(s).rest).Ok? ==>
              r == Some(Selected(doc, Projected(wanted), ReadStr(s).value, Parse(ReadStr(s).rest).value))
              && cur.Rest() == Parse(ReadStr(s).rest).rest
    ensures r.Some? ==> var s := old(cur.Rest());
            ReadPrefixed(s).Ok? && Skip(ReadPrefixed(s).rest) == Ok((), cur.Rest())
  {
    hide Parse, Skip, Utf8, Insert, ReadPrefixed;
    var key := cur.NextStr();
    if key.None? { return None; }
    ghost var s := cur.Rest();
    if Parse(s).Ok? { SkipAgrees(s); }
    var name := key.value;
    if name in wanted || Reserved(name) {
      var v := cur.DecodeValue();
      if v.None? { return None; }
      return Some(Insert(doc, name, v.value));
    } else {
      var kept := if FIELD_NAMES_MARKER in wanted then Insert(doc, name, Null) else doc;
      var skipped := cur.SkipValue();
      if skipped.None? { return None; }
      return Some(kept);
    }
  }

  /** One field: eight names or fewer are compared one by one, more are looked up. */
  method ProjectField(cur: Cursor, wanted: set<Name>, doc: seq<Field>) returns (r: Option<seq<Field>>)
    requires cur.Valid()
    requires forall w :: w in wanted ==> Utf8(w)
    modifies cur
    ensures cur.Valid() && old(cur.pos) <= cur.pos
    ensures var s := old(cur.Rest());
            ReadStr(s).Ok? && Parse(ReadStr(s).rest).Ok? ==>
              r == Some(Selected(doc, Projected(wanted), ReadStr(s).value, Parse(ReadStr(s).rest).value))
              && cur.Rest() == Parse(ReadStr(s).rest).rest
    ensures r.Some? ==> var s := old(cur.Rest());
            ReadPrefixed(s).Ok? && Skip(ReadPrefixed(s).rest) == Ok((), cur.Rest())
  {
    hide Parse, Skip, ReadStr, ReadPrefixed, Selected, Projected, Utf8;
    if |wanted| <= 8 {
      r := ProjectSmallField(cur, wanted, doc);
    } else {
      r := ProjectHashedField(cur, wanted, doc);
    }
  }

  /**
    `decode_document_projected`: on every byte string the decoder accepts as a document, the document
    restricted to the wanted and reserved names (the others as NULL when the marker asks for names);
    and nothing it accepts is structurally unsound.
   */
  method DecodeDocumentProjected(bytes: seq<Byte>, wanted: set<Name>) returns (r: Option<seq<Field>>)
    requires forall w :: w in wanted ==> Utf8(w)
    ensures forall d :: Decode(bytes) == Some(Doc(d)) ==> r == Some(Select(d, Projected(wanted)))
    ensures r.Some? ==> Skip(bytes) == Ok((), [])
  {
    hide ParseFields, Parse, ReadStr, ReadPrefixed, Skip, Select, Selected, Utf8, Decode, Insert;
    var cur := new Cursor(bytes);
    var header := OpenDocument(cur, true);
    if header.None? { return None; }
    var n := header.value;
    ghost var s0 := cur.Rest();
    ghost var p := ParseFields(s0, n, []);
    ghost var all: seq<Field> := [];
    var doc: seq<Field> := [];
    StartSelect(p, s0, n, Projected(wanted));
    for i := 0 to n
      invariant cur.Valid() && cur.bytes == bytes
      invariant OnTrack(p, cur.Rest(), n - i, all)
      invariant SelectedSoFar(p, all, Projected(wanted), doc)
      invariant SkipFields(s0, n) == SkipFields(cur.Rest(), n - i)
    {
      ghost var s := cur.Rest();
      if p.Ok? { OnTrackStep(p, s, n - i, all); }
      var next := ProjectField(cur, wanted, doc);
      if next.None? {
        NotAccepted(bytes, s0, n);
        return None;
      }
      SelectStep(p, s, n - i, all, Projected(wanted), doc, next.value);
      doc, all := next.value, After(all, s);
    }
    FinishWalk(bytes, s0, n, cur.Rest(), all);
    if cur.pos != |bytes| { return None; }
    return Some(doc);
  }

  lemma StartSelect(p: Parsed<seq<Field>>, s: seq<Byte>, n: nat, policy: Policy)
    requires p == ParseFields(s, n, [])
    ensures OnTrack(p, s, n, []) && SelectedSoFar(p, [], policy, [])
  {}

  /** A walk whose parse fails was never over an accepted document. */
  lemma NotAccepted(bytes: seq<Byte>, s0: seq<Byte>, n: U32)
    requires bytes != [] && bytes[0] == DOCUMENT_TAG && ReadU32(bytes[1..]) == Ok(n, s0)
    requires ParseFields(s0, n, []).Err?
    ensures forall d :: Decode(bytes) != Some(Doc(d))
  {
    forall d ensures Decode(bytes) != Some(Doc(d)) {
      if Decode(bytes) == Some(Doc(d)) { DecodedBody(bytes, d); }
    }
  }

  /** At the end of the walk the fields decoded are the document's, if the rest is empty. */
  lemma FinishWalk(bytes: seq<Byte>, s0: seq<Byte>, n: U32, rest: seq<Byte>, all: seq<Field>)
    requires bytes != [] && bytes[0] == DOCUMENT_TAG && ReadU32(bytes[1..]) == Ok(n, s0)
    requires OnTrack(ParseFields(s0, n, []), rest, 0, all)
    requires SkipFields(s0, n) == SkipFields(rest, 0)
    ensures forall d :: Decode(bytes) == Some(Doc(d)) ==> d == all && rest == [] && ParseFields(s0, n, []).Ok?
    ensures Skip(bytes) == Ok((), rest)
  {
    forall d | Decode(bytes) == Some(Doc(d))
      ensures d == all && rest == [] && ParseFields(s0, n, []).Ok?
    {
      DecodedBody(bytes, d);
    }
  }
}
