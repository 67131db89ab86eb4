/** The reserved-field gate: an early stop that is right because canonical names ascend. */
module ReservedGate {
  import opened Bytes
  import opened Values
  import opened Codec
  import opened CodecCursor
  import opened DocSelect
  import opened DocReads

  /** Field names in stored order. */
  function StoredNames(s: seq<Byte>, n: nat): seq<Name>
    decreases n
  {
    if n == 0 || ReadStr(s).Err? || Parse(ReadStr(s).rest).Err? then []
    else [ReadStr(s).value] + StoredNames(Parse(ReadStr(s).rest).rest, n - 1)
  }

  function DocNames(bytes: seq<Byte>): seq<Name> {
    if bytes == [] || ReadU32(bytes[1..]).Err? then []
    else StoredNames(ReadU32(bytes[1..]).rest, ReadU32(bytes[1..]).value)
  }

  /** A name the gate stops at with "no reserved field". */
  predicate Stops(name: Name) {
    name != [] && name[0] > 1
  }

  /** What the first decisive name says. */
  predicate GateSays(names: seq<Name>) {
    names != [] && (Reserved(names[0]) || (!Stops(names[0]) && GateSays(names[1..])))
  }

  predicate AnyReserved(names: seq<Name>) {
    exists i :: 0 <= i < |names| && Reserved(names[i])
  }

  /** Some reserved name is stored only after a name the gate stops at. */
  predicate ReservedTooLate(names: seq<Name>) {
    exists i :: 0 <= i < |names| && Stops(names[i])
      && (forall k :: 0 <= k < i ==> !Reserved(names[k])) && AnyReserved(names[i..])
  }

  /** The names a walk meets that skips from value to value, as far as it gets. */
  function MetNames(s: seq<Byte>, n: nat): seq<Name>
    decreases n
  {
    if n == 0 || ReadPrefixed(s).Err? then []
    else
      var p := ReadPrefixed(s);
      [p.value] + (if Skip(p.rest).Ok? then MetNames(Skip(p.rest).rest, n - 1) else [])
  }

  /** What the first name that decides says, if one does. */
  function Decision(names: seq<Name>): Option<bool> {
    if names == [] then None
    else if Reserved(names[0]) then Some(true)
    else if Stops(names[0]) then Some(false)
    else Decision(names[1..])
  }

  /** Any bytes at all: the first deciding name, or no if the walk gets to the end, or an error. */
  function Verdict(s: seq<Byte>, n: nat): Option<bool> {
    match Decision(MetNames(s, n))
    case Some(b) => Some(b)
    case None => if SkipFields(s, n).Ok? then Some(false) else None
  }

  lemma VerdictStep(s: seq<Byte>, n: nat)
    requires n > 0
    ensures Verdict(s, n) ==
            match ReadPrefixed(s)
            case Err => None
            case Ok(name, r) =>
              if Reserved(name) then Some(true)
              else if Stops(name) then Some(false)
              else match Skip(r)
                case Err => None
                case Ok(_, r2) => Verdict(r2, n - 1)
  {
    hide ReadPrefixed, Skip, Reserved, Stops;
    var p := ReadPrefixed(s);
    if p.Ok? {
      var q := Skip(p.rest);
      var more := if q.Ok? then MetNames(q.rest, n - 1) else [];
      var names := [p.value] + more;
      assert MetNames(s, n) == names;
      assert names[0] == p.value && names[1..] == more;
      assert Decision(names) ==
             if Reserved(p.value) then Some(true) else if Stops(p.value) then Some(false) else Decision(more);
      if q.Ok? {
        assert SkipFields(s, n) == SkipFields(q.rest, n - 1);
      } else {
        assert Decision(more) == None;
      }
    } else {
      assert MetNames(s, n) == [] && Decision([]) == None;
    }
  }

  predicate HasHeader(bytes: seq<Byte>) {
    bytes != [] && bytes[0] == DOCUMENT_TAG && ReadU32(bytes[1..]).Ok?
  }

  /** `doc_has_reserved`: its answer on any bytes, and on every document the decoder accepts. */
  method DocHasReserved(bytes: seq<Byte>) returns (r: Option<bool>)
    ensures r == if HasHeader(bytes) then Verdict(ReadU32(bytes[1..]).rest, ReadU32(bytes[1..]).value) else None
    ensures (exists d :: Decode(bytes) == Some(Doc(d))) ==> r == Some(GateSays(DocNames(bytes)))
  {
    hide ParseFields, Parse, ReadStr, ReadPrefixed, Skip, Utf8, Decode, Insert, ReadU32;
    var cur := new Cursor(bytes);
    var header := OpenDocument(cur, false);
    if header.None? { return None; }
    var n := header.value;
    ghost var s0 := cur.Rest();
    ghost var p := ParseFields(s0, n, []);
    ghost var all: seq<Field> := [];
    StartSelect(p, s0, n, _ => Keep);
    hide Verdict;
    for i := 0 to n
      invariant cur.Valid() && cur.bytes == bytes
      invariant OnTrack(p, cur.Rest(), n - i, all)
      invariant Verdict(s0, n) == Verdict(cur.Rest(), n - i)
      invariant p.Ok? ==> GateSays(StoredNames(s0, n)) == GateSays(StoredNames(cur.Rest(), n - i))
    {
      ghost var s := cur.Rest();
      VerdictStep(s, n - i);
      if p.Ok? { OnTrackStep(p, s, n - i, all); GateStep(s, n - i); }
      var raw := cur.NextPrefixed();
      if raw.None? { NotAccepted(bytes, s0, n); return None; }
      if |raw.value| > 0 && raw.value[0] == 1 {
        if p.Err? { NotAccepted(bytes, s0, n); }
        return Some(true);
      }
      if |raw.value| > 0 && raw.value[0] > 1 {
        if p.Err? { NotAccepted(bytes, s0, n); }
        return Some(false);
      }
      var skipped := cur.SkipValue();
      if skipped.None? { NotAccepted(bytes, s0, n); return None; }
      all := After(all, s);
    }
    if p.Err? { NotAccepted(bytes, s0, n); }
    VerdictLast(cur.Rest());
    return Some(false);
  }

  lemma VerdictLast(s: seq<Byte>)
    ensures Verdict(s, 0) == Some(false)
  {}

  lemma GateStep(s: seq<Byte>, n: nat)
    requires n > 0 && ReadStr(s).Ok? && Parse(ReadStr(s).rest).Ok?
    ensures var name, rest := ReadStr(s).value, Parse(ReadStr(s).rest).rest;
            GateSays(StoredNames(s, n)) == (Reserved(name) || (!Stops(name) && GateSays(StoredNames(rest, n - 1))))
  {
    hide Parse, ReadStr;
    var rest := StoredNames(Parse(ReadStr(s).rest).rest, n - 1);
    assert ([ReadStr(s).value] + rest)[1..] == rest;
  }

  lemma AnyReservedStep(names: seq<Name>)
    requires names != []
    ensures AnyReserved(names) <==> Reserved(names[0]) || AnyReserved(names[1..])
  {
    hide Reserved;
    assert forall i :: 0 < i < |names| ==> names[i] == names[1..][i - 1];
  }

  lemma TooLateStep(names: seq<Name>)
    requires names != [] && !Reserved(names[0]) && !Stops(names[0])
    ensures ReservedTooLate(names) <==> ReservedTooLate(names[1..])
  {
    hide Reserved, Stops, AnyReserved;
    var rest := names[1..];
    if ReservedTooLate(names) {
      var i :| 0 <= i < |names| && Stops(names[i])
        && (forall k :: 0 <= k < i ==> !Reserved(names[k])) && AnyReserved(names[i..]);
      assert rest[i - 1..] == names[i..] && rest[i - 1] == names[i];
      assert forall k :: 0 <= k < i - 1 ==> rest[k] == names[k + 1];
    }
    if ReservedTooLate(rest) {
      var i :| 0 <= i < |rest| && Stops(rest[i])
        && (forall k :: 0 <= k < i ==> !Reserved(rest[k])) && AnyReserved(rest[i..]);
      assert rest[i..] == names[i + 1..] && rest[i] == names[i + 1];
      assert forall k :: 0 < k < i + 1 ==> names[k] == rest[k - 1];
    }
  }

  /** The gate is right exactly when no reserved name comes only after a name it stops at. */
  lemma {:induction false} GateExact(names: seq<Name>)
    ensures GateSays(names) == AnyReserved(names) <==> !ReservedTooLate(names)
    decreases |names|
  {
    if names != [] {
      AnyReservedStep(names);
      if Reserved(names[0]) {
      } else if Stops(names[0]) {
        if AnyReserved(names) {
          assert names[0..] == names;
          assert ReservedTooLate(names);
        }
      } else {
        GateExact(names[1..]);
        TooLateStep(names);
      }
    }
  }

  /** The full decode holds a reserved field exactly when a reserved name is stored. */
  lemma {:induction false} StoredReserved(s: seq<Byte>, n: nat, all: seq<Field>)
    requires ParseFields(s, n, all).Ok?
    ensures HasReserved(ParseFields(s, n, all).value) <==> HasReserved(all) || AnyReserved(StoredNames(s, n))
    decreases n
  {
    hide ParseFields, Parse, ReadStr, Insert, HasReserved, AnyReserved, Reserved, StoredNames;
    if n == 0 {
      NothingStored(s, all);
    } else {
      FieldsStep(s, n, all);
      var name, v, rest := ReadStr(s).value, Parse(ReadStr(s).rest).value, Parse(ReadStr(s).rest).rest;
      StoredReserved(rest, n - 1, Insert(all, name, v));
      HasReservedInsert(all, name, v);
      NamesStep(s, n);
      AnyReservedStep(StoredNames(s, n));
    }
  }

  lemma NothingStored(s: seq<Byte>, all: seq<Field>)
    ensures ParseFields(s, 0, all) == Ok(all, s) && !AnyReserved(StoredNames(s, 0))
  {}

  lemma NamesStep(s: seq<Byte>, n: nat)
    requires n > 0 && ReadStr(s).Ok? && Parse(ReadStr(s).rest).Ok?
    ensures StoredNames(s, n) != [] && StoredNames(s, n)[0] == ReadStr(s).value
    ensures StoredNames(s, n)[1..] == StoredNames(Parse(ReadStr(s).rest).rest, n - 1)
  {
    hide Parse, ReadStr;
  }

  /** On any accepted document the gate answers as the full decode would, unless a reserved name is stored too late. */
  lemma GateAgrees(bytes: seq<Byte>, d: seq<Field>)
    requires Decode(bytes) == Some(Doc(d))
    ensures GateSays(DocNames(bytes)) == HasReserved(d) <==> !ReservedTooLate(DocNames(bytes))
  {
    DecodedBody(bytes, d);
    hide Decode, ParseFields, GateSays, ReservedTooLate, StoredNames, ReadU32;
    StoredReserved(ReadU32(bytes[1..]).rest, ReadU32(bytes[1..]).value, []);
    GateExact(DocNames(bytes));
  }

  function Names(fields: seq<Field>): (r: seq<Name>)
    ensures |r| == |fields|
  {
    seq(|fields|, i requires 0 <= i < |fields| => fields[i].name)
  }

  lemma {:induction false} CanonicalNames(fields: seq<Field>, x: seq<Byte>)
    requires forall i :: 0 <= i < |fields| ==>
               && Utf8(fields[i].name) && |fields[i].name| < U32_LIMIT
               && WellFormed(fields[i].value) && Fits(fields[i].value)
    ensures StoredNames(EncodeFields(fields) + x, |fields|) == Names(fields)
    decreases |fields|
  {
    hide Parse, Encode, WellFormed, Fits, Utf8, ReadPrefixed, Prefixed;
    if fields != [] {
      var f := fields[0];
      var rest := EncodeFields(fields[1..]);
      Assoc(Prefixed(f.name), Encode(f.value) + rest, x);
      Assoc(Encode(f.value), rest, x);
      ReadPrefixedOf(f.name, Encode(f.value) + (rest + x));
      RoundTrip(f.value, rest + x);
      CanonicalNames(fields[1..], x);
      assert Names(fields) == [f.name] + Names(fields[1..]);
    }
  }

  lemma AscendingNotLate(fields: seq<Field>)
    requires Sorted(fields)
    ensures !ReservedTooLate(Names(fields))
  {
    var names := Names(fields);
    forall i | 0 <= i < |names| && Stops(names[i]) ensures !AnyReserved(names[i..]) {
      forall j | 0 <= j < |names[i..]| ensures !Reserved(names[i..][j]) {
        assert names[i..][j] == fields[i + j].name;
        if j > 0 { LaterStops(fields[i].name, fields[i + j].name); }
      }
    }
  }

  lemma LaterStops(a: Name, b: Name)
    requires Before(a, b) && Stops(a)
    ensures Stops(b)
  {}

  /** On a canonical encoding the early stop is always right. */
  lemma GateCanonical(d: seq<Field>)
    requires WellFormed(Doc(d)) && Fits(Doc(d))
    ensures GateSays(DocNames(Encode(Doc(d)))) == HasReserved(d)
  {
    var bytes := Encode(Doc(d));
    CountedSplit(DOCUMENT_TAG, |d|, EncodeFields(d), []);
    assert bytes + [] == bytes;
    CanonicalNames(d, []);
    assert DocNames(bytes) == Names(d);
    DecodeEncode(Doc(d));
    GateAgrees(bytes, d);
    AscendingNotLate(d);
  }

  /** Two NULL fields in a given stored order. */
  function TwoFields(first: Name, second: Name): seq<Byte> {
    [DOCUMENT_TAG] + (Le(2, 4) + FieldPair(first, second))
  }

  function FieldPair(first: Name, second: Name): seq<Byte> {
    Prefixed(first) + (Encode(Null) + (Prefixed(second) + (Encode(Null) + [])))
  }

  /** The decoder accepts names out of order; any reserved name stored after one the gate stops at is missed. */
  lemma GateMissesUnsorted(first: Name, second: Name)
    requires Utf8(first) && Utf8(second) && |first| < U32_LIMIT && |second| < U32_LIMIT
    requires Stops(first) && Reserved(second)
    ensures Decode(TwoFields(first, second)).Some? && Decode(TwoFields(first, second)).value.Doc?
    ensures HasReserved(Decode(TwoFields(first, second)).value.fields)
    ensures !GateSays(DocNames(TwoFields(first, second)))
  {
    var s := FieldPair(first, second);
    PairParses(first, second);
    hide ParseFields, StoredNames, FieldPair, HasReserved, Reserved, Utf8, Decode;
    CountedDoc(2, s);
    StoredReserved(s, 2, []);
    assert AnyReserved(StoredNames(s, 2)) by { assert StoredNames(s, 2)[1] == second; }
    hide DocNames;
  }

  lemma CountedDoc(n: U32, s: seq<Byte>)
    requires ParseFields(s, n, []).Ok? && ParseFields(s, n, []).rest == []
    ensures var bytes := [DOCUMENT_TAG] + (Le(n, 4) + s);
            Decode(bytes) == Some(Doc(ParseFields(s, n, []).value)) && DocNames(bytes) == StoredNames(s, n)
  {
    hide ParseFields, StoredNames, ReadU32, Le;
    var bytes: seq<Byte> := [DOCUMENT_TAG] + (Le(n, 4) + s);
    CountedSplit(DOCUMENT_TAG, n, s, []);
    assert bytes + [] == bytes && s + [] == s;
    assert bytes[1..] == Le(n, 4) + s;
  }

  lemma PairParses(first: Name, second: Name)
    requires Utf8(first) && Utf8(second) && |first| < U32_LIMIT && |second| < U32_LIMIT
    ensures var s := FieldPair(first, second);
            ParseFields(s, 2, []).Ok? && ParseFields(s, 2, []).rest == [] && StoredNames(s, 2) == [first, second]
  {
    var s := FieldPair(first, second);
    var tail := Prefixed(second) + (Encode(Null) + []);
    OneFieldParses(first, tail, 2, []);
    OneFieldParses(second, [], 1, Insert([], first, Null));
    NothingStored([], Insert(Insert([], first, Null), second, Null));
    assert StoredNames([], 0) == [];
  }

  lemma OneFieldParses(name: Name, x: seq<Byte>, n: nat, all: seq<Field>)
    requires Utf8(name) && |name| < U32_LIMIT && n > 0
    ensures var s := Prefixed(name) + (Encode(Null) + x);
            ParseFields(s, n, all) == ParseFields(x, n - 1, Insert(all, name, Null))
            && StoredNames(s, n) == [name] + StoredNames(x, n - 1)
  {
    var s := Prefixed(name) + (Encode(Null) + x);
    ReadPrefixedOf(name, Encode(Null) + x);
    RoundTrip(Null, x);
    hide Parse, Encode, ReadPrefixed, Prefixed, Insert, Utf8;
    FieldsStep(s, n, all);
  }
}
