/** Folding a `SHOW ENDPOINTS` answer into the member map. */
module Discovery {
  import opened Bytes
  import opened SortedNames
  import opened PoolMembers
  import Values

  type Row = seq<Values.Value>

  /** "resyncing" */
  const RESYNCING: seq<Byte> := [0x72, 0x65, 0x73, 0x79, 0x6E, 0x63, 0x69, 0x6E, 0x67]
  /** "unreachable" */
  const UNREACHABLE: seq<Byte> := [0x75, 0x6E, 0x72, 0x65, 0x61, 0x63, 0x68, 0x61, 0x62, 0x6C, 0x65]

  datatype Listing = Listing(ep: Ep, state: Listed)

  /** Two spellings are known; every other one counts as ready. */
  function StateOf(s: seq<Byte>): Listed {
    if s == RESYNCING then Resyncing else if s == UNREACHABLE then Unreachable else Ready
  }

  /** `endpoint`, `state`; rows of another shape are skipped. */
  function RowListing(row: Row): Option<Listing> {
    if |row| >= 2 && row[0].Str? && row[1].Str? then Some(Listing(row[0].s, StateOf(row[1].s))) else None
  }

  predicate IsLocal(row: Row) {
    RowListing(row).Some? && |row| >= 3 && row[2] == Values.Bool(true)
  }

  /** First-seen order, the last state of an endpoint. */
  function Upsert(listed: seq<Listing>, l: Listing): seq<Listing> {
    if listed == [] then [l]
    else if listed[0].ep == l.ep then [l] + listed[1..]
    else [listed[0]] + Upsert(listed[1..], l)
  }

  function ListingOf(rows: seq<Row>): seq<Listing> {
    if rows == [] then []
    else
      var before := ListingOf(rows[..|rows| - 1]);
      match RowListing(rows[|rows| - 1])
      case None => before
      case Some(l) => Upsert(before, l)
  }

  /** The name the answering member gives itself: its last local row. */
  function LocalName(rows: seq<Row>): Option<Ep> {
    if rows == [] then None
    else if IsLocal(rows[|rows| - 1]) then Some(RowListing(rows[|rows| - 1]).value.ep)
    else LocalName(rows[..|rows| - 1])
  }

  function NameDialed(members: Members, dialed: Ep, name: Option<Ep>): Members {
    if dialed in members && name.Some? then members[dialed := members[dialed].(canonical := name)] else members
  }

  // ---- names to members ----

  type Index = map<Ep, Ep>

  function IndexStep(members: Members, index: Index, ep: Ep): Index
    requires ep in members
  {
    match members[ep].canonical
    case None => index
    case Some(name) => if members[ep].seed || name !in index then index[name := ep] else index
  }

  function IndexOf(members: Members, order: seq<Ep>): Index
    requires forall ep :: ep in order ==> ep in members
  {
    if order == [] then map[]
    else IndexStep(members, IndexOf(members, order[..|order| - 1]), order[|order| - 1])
  }

  /** `index` names, for every canonical name among `eps`, one of its holders, a seed if there is one. */
  ghost predicate Indexes(members: Members, eps: set<Ep>, index: Index) {
    && (forall name :: name in index ==>
          index[name] in members && index[name] in eps && members[index[name]].canonical == Some(name))
    && (forall ep :: ep in eps && ep in members && members[ep].canonical.Some? ==>
          members[ep].canonical.value in index
          && (members[ep].seed ==> members[index[members[ep].canonical.value]].seed))
  }

  lemma IndexesStep(members: Members, eps: set<Ep>, index: Index, ep: Ep)
    requires Indexes(members, eps, index) && ep in members
    ensures Indexes(members, eps + {ep}, IndexStep(members, index, ep))
  {}

  lemma {:induction false} IndexOfIndexes(members: Members, order: seq<Ep>)
    requires forall ep :: ep in order ==> ep in members
    ensures Indexes(members, (set ep | ep in order), IndexOf(members, order))
    decreases |order|
  {
    if order != [] {
      var before, last := order[..|order| - 1], order[|order| - 1];
      IndexOfIndexes(members, before);
      IndexesStep(members, (set ep | ep in before), IndexOf(members, before), last);
      assert order == before + [last];
      assert (set ep | ep in order) == (set ep | ep in before) + {last};
    }
  }

  ghost function Index0(members: Members): Index {
    IndexOf(members, SortedKeys(members.Keys))
  }

  lemma Index0Indexes(members: Members)
    ensures Indexes(members, members.Keys, Index0(members))
  {
    IndexOfIndexes(members, SortedKeys(members.Keys));
    assert (set ep | ep in SortedKeys(members.Keys)) == members.Keys;
  }

  // ---- the passes ----

  /** Of members with one name only the indexed one stays. */
  function Deduped(members: Members, index: Index): Members {
    map ep | ep in members
      && (members[ep].canonical.None?
          || (members[ep].canonical.value in index && index[members[ep].canonical.value] == ep)) :: members[ep]
  }

  /** Back in rotation is measured afresh. */
  function WithState(m: Member, state: Listed): Member {
    (if state == Ready && m.listed != Ready then m.(errors := 0) else m).(listed := state)
  }

  /** The member a listed endpoint stands for. */
  function Home(index: Index, ep: Ep): Ep {
    if ep in index then index[ep] else ep
  }

  function Place(members: Members, index: Index, l: Listing): Members {
    if l.ep in index then
      (if index[l.ep] in members then members[index[l.ep] := WithState(members[index[l.ep]], l.state)] else members)
    else
      var m := if l.ep in members then members[l.ep] else NewMember(false);
      members[l.ep := WithState(m.(canonical := Some(l.ep)), l.state)]
  }

  function PlaceAll(members: Members, index: Index, listed: seq<Listing>): Members {
    if listed == [] then members
    else Place(PlaceAll(members, index, listed[..|listed| - 1]), index, listed[|listed| - 1])
  }

  /** Members this listing speaks of. */
  function Seen(index: Index, listed: seq<Listing>): set<Ep> {
    set l | l in listed :: Home(index, l.ep)
  }

  /** Listed endpoints no known member goes by. */
  function Unknown(index: Index, listed: seq<Listing>): set<Ep> {
    set l | l in listed && l.ep !in index :: l.ep
  }

  /** Listed members and seeds stay; a seed that is named but no longer listed is marked so. */
  function Finish(members: Members, seen: set<Ep>): Members {
    map ep | ep in members && (ep in seen || members[ep].seed) ::
      if ep in seen || members[ep].canonical.None? then members[ep] else members[ep].(listed := Unlisted)
  }

  ghost function Folded(members: Members, dialed: Ep, rows: seq<Row>): Members {
    var named := NameDialed(members, dialed, LocalName(rows));
    var index, listed := Index0(named), ListingOf(rows);
    Finish(PlaceAll(Deduped(named, index), index, listed), Seen(index, listed))
  }

  // ---- as the driver runs it ----

  method FoldRows(rows: seq<Row>) returns (listed: seq<Listing>, name: Option<Ep>)
    ensures listed == ListingOf(rows) && name == LocalName(rows)
  {
    listed, name := [], None;
    for i := 0 to |rows|
      invariant listed == ListingOf(rows[..i]) && name == LocalName(rows[..i])
    {
      assert rows[..i + 1][..i] == rows[..i];
      match RowListing(rows[i]) {
        case None =>
        case Some(l) =>
          listed := Upsert(listed, l);
          if |rows[i]| >= 3 && rows[i][2] == Values.Bool(true) { name := Some(l.ep); }
      }
    }
    assert rows[..|rows|] == rows;
  }

  method BuildIndex(members: Members) returns (index: Index)
    ensures index == Index0(members)
  {
    var order := KeysInOrder(members.Keys);
    index := map[];
    for i := 0 to |order|
      invariant index == IndexOf(members, order[..i])
    {
      assert order[..i + 1][..i] == order[..i];
      assert order[i] in order;
      index := IndexStep(members, index, order[i]);
    }
    assert order[..|order|] == order;
  }

  /** `apply_listing`. */
  method ApplyListing(members: Members, dialed: Ep, rows: seq<Row>) returns (r: Members)
    ensures r == Folded(members, dialed, rows)
  {
    var listed, name := FoldRows(rows);
    var named := NameDialed(members, dialed, name);
    var index := BuildIndex(named);
    Index0Indexes(named);
    var kept := Deduped(named, index);
    r := kept;
    var seen: set<Ep> := {};
    hide PlaceAll, Deduped, Indexes;
    PlaceNone(kept, index, listed);
    for i := 0 to |listed|
      invariant r == PlaceAll(kept, index, listed[..i])
      invariant seen == Seen(index, listed[..i])
    {
      PlaceNext(kept, index, listed, i);
      r := Place(r, index, listed[i]);
      seen := seen + {Home(index, listed[i].ep)};
    }
    assert listed[..|listed|] == listed;
    r := Finish(r, seen);
  }

  lemma PlaceNone(members: Members, index: Index, listed: seq<Listing>)
    ensures PlaceAll(members, index, listed[..0]) == members && Seen(index, listed[..0]) == {}
  {}

  lemma PlaceNext(members: Members, index: Index, listed: seq<Listing>, i: nat)
    requires i < |listed|
    ensures PlaceAll(members, index, listed[..i + 1]) == Place(PlaceAll(members, index, listed[..i]), index, listed[i])
    ensures Seen(index, listed[..i + 1]) == Seen(index, listed[..i]) + {Home(index, listed[i].ep)}
  {
    hide Place;
    assert listed[..i + 1][..i] == listed[..i];
    assert listed[..i + 1] == listed[..i] + [listed[i]];
  }

  // ---- what a fold keeps ----

  /** Everything but the name, the listed state and the error count. */
  predicate SameAccount(m: Member, n: Member) {
    n.(canonical := m.canonical, listed := m.listed, errors := m.errors) == m
  }

  /** The placed map, member by member. */
  ghost predicate Placed(base: Members, index: Index, added: set<Ep>, r: Members) {
    r.Keys == base.Keys + added
    && forall ep :: ep in r ==>
         && SameAccount(if ep in base then base[ep] else NewMember(false), r[ep])
         && r[ep].canonical == if ep in added then Some(ep) else base[ep].canonical
  }

  lemma PlacedStep(base: Members, index: Index, added: set<Ep>, r: Members, l: Listing)
    requires Placed(base, index, added, r) && forall n :: n in index ==> index[n] in base
    ensures Placed(base, index, if l.ep in index then added else added + {l.ep}, Place(r, index, l))
  {
    var home, t := Home(index, l.ep), Place(r, index, l);
    var more := if l.ep in index then added else added + {l.ep};
    assert t.Keys == base.Keys + more;
    forall ep | ep in t
      ensures SameAccount(if ep in base then base[ep] else NewMember(false), t[ep])
      ensures t[ep].canonical == if ep in more then Some(ep) else base[ep].canonical
    {
      if ep != home { assert t[ep] == r[ep]; }
    }
  }

  lemma {:induction false} PlaceAllPlaced(base: Members, index: Index, listed: seq<Listing>)
    requires forall n :: n in index ==> index[n] in base
    ensures Placed(base, index, Unknown(index, listed), PlaceAll(base, index, listed))
    decreases |listed|
  {
    hide Place, Placed;
    if listed == [] {
      PlacedBase(base, index);
    } else {
      var before, l := listed[..|listed| - 1], listed[|listed| - 1];
      PlaceAllPlaced(base, index, before);
      PlacedStep(base, index, Unknown(index, before), PlaceAll(base, index, before), l);
      assert listed == before + [l];
      assert Unknown(index, listed)
          == if l.ep in index then Unknown(index, before) else Unknown(index, before) + {l.ep};
    }
  }

  lemma PlacedBase(base: Members, index: Index)
    ensures Placed(base, index, {}, base) && Unknown(index, []) == {}
  {}

  /** The facts about one fold that every theorem below uses. */
  lemma FoldShape(members: Members, dialed: Ep, rows: seq<Row>)
    ensures var named := NameDialed(members, dialed, LocalName(rows));
            var index, listed := Index0(named), ListingOf(rows);
            var base := Deduped(named, index);
            var placed := PlaceAll(base, index, listed);
            && Indexes(named, named.Keys, index)
            && (forall n :: n in index ==> index[n] in base)
            && Placed(base, index, Unknown(index, listed), placed)
            && Folded(members, dialed, rows) == Finish(placed, Seen(index, listed))
  {
    hide PlaceAll, Placed, Finish, IndexOf, NameDialed;
    var named := NameDialed(members, dialed, LocalName(rows));
    var index := Index0(named);
    Index0Indexes(named);
    hide Index0;
    PlaceAllPlaced(Deduped(named, index), index, ListingOf(rows));
  }

  predicate DistinctNames(members: Members) {
    forall a, b :: a in members && b in members && a != b && members[a].canonical.Some? ==>
      members[a].canonical != members[b].canonical
  }

  /** After any listing no two members go by one name. */
  lemma FoldDistinct(members: Members, dialed: Ep, rows: seq<Row>)
    ensures DistinctNames(Folded(members, dialed, rows))
  {
    FoldShape(members, dialed, rows);
    hide Folded, PlaceAll, Index0, ListingOf, LocalName, NameDialed;
  }

  /** Every listed endpoint is a member's: the one known by that name, or one keyed by it. */
  lemma FoldRepresents(members: Members, dialed: Ep, rows: seq<Row>, l: Listing)
    requires l in ListingOf(rows)
    ensures Home(Index0(NameDialed(members, dialed, LocalName(rows))), l.ep) in Folded(members, dialed, rows)
  {
    FoldShape(members, dialed, rows);
    hide Folded, PlaceAll, Index0, ListingOf, LocalName, NameDialed;
    var named := NameDialed(members, dialed, LocalName(rows));
    var index, listed := Index0(named), ListingOf(rows);
    assert Home(index, l.ep) in Seen(index, listed);
    if l.ep !in index { assert l.ep in Unknown(index, listed); }
  }

  /**
    Its name survives unless the member known by it sits at a key that is itself listed and known by no
    member: that row then takes the name over.
   */
  lemma FoldNames(members: Members, dialed: Ep, rows: seq<Row>, l: Listing)
    requires l in ListingOf(rows)
    ensures var index := Index0(NameDialed(members, dialed, LocalName(rows)));
            var home := Home(index, l.ep);
            home in Folded(members, dialed, rows) &&
            (Folded(members, dialed, rows)[home].canonical == Some(l.ep)
             <==> !(l.ep in index && home in Unknown(index, ListingOf(rows))))
  {
    FoldRepresents(members, dialed, rows, l);
    FoldShape(members, dialed, rows);
    hide Folded, PlaceAll, Index0, ListingOf, LocalName, NameDialed;
    var index, listed := Index0(NameDialed(members, dialed, LocalName(rows))), ListingOf(rows);
    if l.ep !in index { assert l.ep in Unknown(index, listed); }
  }

  /** The state the last row about `ep` gives it. */
  function LastState(rows: seq<Row>, ep: Ep): Option<Listed> {
    if rows == [] then None
    else
      match RowListing(rows[|rows| - 1])
      case Some(l) => if l.ep == ep then Some(l.state) else LastState(rows[..|rows| - 1], ep)
      case None => LastState(rows[..|rows| - 1], ep)
  }

  lemma {:induction false} UpsertElements(listed: seq<Listing>, l: Listing, k: Listing)
    requires forall i, j :: 0 <= i < j < |listed| ==> listed[i].ep != listed[j].ep
    ensures k in Upsert(listed, l) <==> k == l || (k in listed && k.ep != l.ep)
    ensures forall i, j :: 0 <= i < j < |Upsert(listed, l)| ==> Upsert(listed, l)[i].ep != Upsert(listed, l)[j].ep
    decreases |listed|
  {
    if listed != [] {
      var head, rest := listed[0], listed[1..];
      assert listed == [head] + rest;
      if head.ep != l.ep {
        UpsertElements(rest, l, k);
        var r := Upsert(rest, l);
        forall j | 0 <= j < |r| ensures r[j].ep != head.ep {
          UpsertElements(rest, l, r[j]);
          assert r[j] in r;
        }
      }
    }
  }

  /** A listing holds each endpoint once, with its last state. */
  lemma {:induction false} ListingExact(rows: seq<Row>, l: Listing)
    ensures l in ListingOf(rows) <==> LastState(rows, l.ep) == Some(l.state)
    ensures forall i, j :: 0 <= i < j < |ListingOf(rows)| ==> ListingOf(rows)[i].ep != ListingOf(rows)[j].ep
    decreases |rows|
  {
    hide RowListing;
    if rows != [] {
      var before := rows[..|rows| - 1];
      ListingExact(before, l);
      match RowListing(rows[|rows| - 1])
      case None =>
      case Some(k) => UpsertElements(ListingOf(before), k, l);
    }
  }

  lemma PlaceOne(members: Members, index: Index, l: Listing)
    requires l.ep in index ==> index[l.ep] in members
    ensures var r, home := Place(members, index, l), Home(index, l.ep);
            && home in r && r[home].listed == l.state
            && forall ep :: ep in members && ep != home ==> ep in r && r[ep] == members[ep]
  {}

  /** The state of the last listed endpoint that stands for `ep`. */
  function StateFor(index: Index, listed: seq<Listing>, ep: Ep): Option<Listed> {
    if listed == [] then None
    else if Home(index, listed[|listed| - 1].ep) == ep then Some(listed[|listed| - 1].state)
    else StateFor(index, listed[..|listed| - 1], ep)
  }

  lemma {:induction false} StateForSeen(index: Index, listed: seq<Listing>, ep: Ep)
    ensures ep in Seen(index, listed) <==> StateFor(index, listed, ep).Some?
    decreases |listed|
  {
    if listed != [] {
      var before, last := listed[..|listed| - 1], listed[|listed| - 1];
      StateForSeen(index, before, ep);
      assert listed == before + [last];
      assert Seen(index, listed) == Seen(index, before) + {Home(index, last.ep)};
    }
  }

  lemma {:induction false} PlaceAllState(base: Members, index: Index, listed: seq<Listing>, ep: Ep)
    requires (forall n :: n in index ==> index[n] in base) && StateFor(index, listed, ep).Some?
    ensures var r := PlaceAll(base, index, listed);
            ep in r && r[ep].listed == StateFor(index, listed, ep).value
    decreases |listed|
  {
    hide Place, Home, Placed;
    var before, last := listed[..|listed| - 1], listed[|listed| - 1];
    PlaceAllPlaced(base, index, before);
    PlacedKeys(base, index, Unknown(index, before), PlaceAll(base, index, before));
    PlaceOne(PlaceAll(base, index, before), index, last);
    if Home(index, last.ep) != ep { PlaceAllState(base, index, before, ep); }
  }

  lemma PlacedKeys(base: Members, index: Index, added: set<Ep>, r: Members)
    requires Placed(base, index, added, r)
    ensures base.Keys <= r.Keys
  {}

  /** A member listed endpoints stand for ends in the state of the last of them. */
  lemma FoldStates(members: Members, dialed: Ep, rows: seq<Row>, ep: Ep)
    requires ep in Seen(Index0(NameDialed(members, dialed, LocalName(rows))), ListingOf(rows))
    ensures var index := Index0(NameDialed(members, dialed, LocalName(rows)));
            ep in Folded(members, dialed, rows)
            && Some(Folded(members, dialed, rows)[ep].listed) == StateFor(index, ListingOf(rows), ep)
  {
    FoldShape(members, dialed, rows);
    hide Folded, PlaceAll, Index0, ListingOf, LocalName, NameDialed, Placed, Indexes, Deduped, Seen, StateFor;
    var named := NameDialed(members, dialed, LocalName(rows));
    var index, listed := Index0(named), ListingOf(rows);
    StateForSeen(index, listed, ep);
    PlaceAllState(Deduped(named, index), index, listed, ep);
  }

  lemma {:induction false} StateForOnly(index: Index, listed: seq<Listing>, l: Listing)
    requires l in listed && forall k :: k in listed && Home(index, k.ep) == Home(index, l.ep) ==> k == l
    ensures StateFor(index, listed, Home(index, l.ep)) == Some(l.state)
    decreases |listed|
  {
    hide Home;
    var before, last := listed[..|listed| - 1], listed[|listed| - 1];
    assert listed == before + [last];
    if Home(index, last.ep) != Home(index, l.ep) { StateForOnly(index, before, l); }
  }

  /** With one endpoint standing for it, that is the state its last row gives. */
  lemma FoldState(members: Members, dialed: Ep, rows: seq<Row>, l: Listing)
    requires LastState(rows, l.ep) == Some(l.state)
    requires var index := Index0(NameDialed(members, dialed, LocalName(rows)));
             forall k :: k in ListingOf(rows) && Home(index, k.ep) == Home(index, l.ep) ==> k.ep == l.ep
    ensures var home := Home(Index0(NameDialed(members, dialed, LocalName(rows))), l.ep);
            home in Folded(members, dialed, rows) && Folded(members, dialed, rows)[home].listed == l.state
  {
    ListingExact(rows, l);
    var index, listed := Index0(NameDialed(members, dialed, LocalName(rows))), ListingOf(rows);
    forall k | k in listed && Home(index, k.ep) == Home(index, l.ep) ensures k == l { ListingExact(rows, k); }
    hide Folded, Index0, ListingOf, LocalName, NameDialed, LastState, Home;
    assert Home(index, l.ep) in Seen(index, listed);
    FoldStates(members, dialed, rows, Home(index, l.ep));
    StateForOnly(index, listed, l);
  }

  lemma {:induction false} PlaceAllUntouched(base: Members, index: Index, listed: seq<Listing>, ep: Ep)
    requires (forall n :: n in index ==> index[n] in base) && forall k :: k in listed ==> Home(index, k.ep) != ep
    ensures var r := PlaceAll(base, index, listed);
            (ep in r <==> ep in base) && (ep in r ==> r[ep] == base[ep])
    decreases |listed|
  {
    hide Home;
    if listed != [] {
      var before, last := listed[..|listed| - 1], listed[|listed| - 1];
      assert listed == before + [last];
      PlaceAllUntouched(base, index, before, ep);
      PlaceElsewhere(PlaceAll(base, index, before), index, last, ep);
    }
  }

  lemma PlaceElsewhere(members: Members, index: Index, l: Listing, ep: Ep)
    requires Home(index, l.ep) != ep
    ensures var r := Place(members, index, l);
            (ep in r <==> ep in members) && (ep in r ==> r[ep] == members[ep])
  {}

  lemma PlaceErrors(members: Members, index: Index, l: Listing)
    requires l.ep in index ==> index[l.ep] in members
    ensures var home := Home(index, l.ep);
            home in Place(members, index, l)
            && Place(members, index, l)[home].errors ==
                 if home in members && !(l.state == Ready && members[home].listed != Ready)
                 then members[home].errors else 0
  {}

  lemma {:induction false} PlaceAllErrors(base: Members, index: Index, listed: seq<Listing>, l: Listing)
    requires forall n :: n in index ==> index[n] in base
    requires forall i, j :: 0 <= i < j < |listed| ==> listed[i].ep != listed[j].ep
    requires l in listed && forall k :: k in listed && Home(index, k.ep) == Home(index, l.ep) ==> k == l
    ensures var r, home := PlaceAll(base, index, listed), Home(index, l.ep);
            home in r
            && r[home].errors ==
                 if home in base && !(l.state == Ready && base[home].listed != Ready) then base[home].errors else 0
    decreases |listed|
  {
    hide Home, Place, Placed;
    var n := |listed| - 1;
    var before, last := listed[..n], listed[n];
    assert listed == before + [last];
    PlaceAllPlaced(base, index, before);
    PlacedKeys(base, index, Unknown(index, before), PlaceAll(base, index, before));
    if last == l {
      forall k | k in before ensures Home(index, k.ep) != Home(index, l.ep) {
        var i :| 0 <= i < n && listed[i] == k;
      }
      PlaceAllUntouched(base, index, before, Home(index, l.ep));
      PlaceErrors(PlaceAll(base, index, before), index, last);
    } else {
      PlaceAllErrors(base, index, before, l);
      PlaceElsewhere(PlaceAll(base, index, before), index, last, Home(index, l.ep));
    }
  }

  /** Listed ready again, a surviving member starts with no errors; otherwise a listing leaves them. */
  lemma FoldErrors(members: Members, dialed: Ep, rows: seq<Row>, l: Listing)
    requires LastState(rows, l.ep) == Some(l.state)
    requires var index := Index0(NameDialed(members, dialed, LocalName(rows)));
             && (forall k :: k in ListingOf(rows) && Home(index, k.ep) == Home(index, l.ep) ==> k.ep == l.ep)
             && Home(index, l.ep) in members && Home(index, l.ep) !in RemovedBy(members, dialed, rows)
    ensures var home := Home(Index0(NameDialed(members, dialed, LocalName(rows))), l.ep);
            home in Folded(members, dialed, rows)
            && Folded(members, dialed, rows)[home].errors ==
                 if l.state == Ready && members[home].listed != Ready then 0 else members[home].errors
  {
    FoldShape(members, dialed, rows);
    NamedSame(members, dialed, LocalName(rows));
    ListingExact(rows, l);
    NamedListed(members, dialed, LocalName(rows), Home(Index0(NameDialed(members, dialed, LocalName(rows))), l.ep));
    var named := NameDialed(members, dialed, LocalName(rows));
    var index, listed := Index0(named), ListingOf(rows);
    forall k | k in listed && Home(index, k.ep) == Home(index, l.ep) ensures k == l { ListingExact(rows, k); }
    hide Folded, PlaceAll, Index0, ListingOf, LocalName, NameDialed, LastState, Placed, Indexes, Home;
    PlaceAllErrors(Deduped(named, index), index, listed, l);
    assert Home(index, l.ep) in Seen(index, listed);
  }

  lemma NamedListed(members: Members, dialed: Ep, name: Option<Ep>, ep: Ep)
    requires ep in members
    ensures var m := NameDialed(members, dialed, name)[ep];
            m.listed == members[ep].listed && m.errors == members[ep].errors
  {}

  /** A text as bytes. */
  function Ascii(t: string): seq<Byte>
    requires forall i :: 0 <= i < |t| ==> t[i] < 128 as char
  {
    seq(|t|, i requires 0 <= i < |t| => t[i] as int)
  }

  /** What the last well-shaped row about `ep` says of its state. */
  function LastText(rows: seq<Row>, ep: Ep): Option<seq<Byte>> {
    if rows == [] then None
    else
      var row := rows[|rows| - 1];
      if |row| >= 2 && row[0] == Values.Str(ep) && row[1].Str? then Some(row[1].s)
      else LastText(rows[..|rows| - 1], ep)
  }

  /** "resyncing" and "unreachable" are those states; any other text is ready. */
  lemma {:induction false} LastStateMeans(rows: seq<Row>, ep: Ep)
    ensures LastState(rows, ep) ==
            match LastText(rows, ep)
            case None => None
            case Some(text) =>
              Some(if text == Ascii("resyncing") then Resyncing
                   else if text == Ascii("unreachable") then Unreachable else Ready)
    decreases |rows|
  {
    assert RESYNCING == Ascii("resyncing") && UNREACHABLE == Ascii("unreachable");
    if rows != [] { LastStateMeans(rows[..|rows| - 1], ep); }
  }

  /** So a member whose endpoint is last listed resyncing or unreachable is unusable, and otherwise listed ready. */
  lemma FoldReady(members: Members, dialed: Ep, rows: seq<Row>, ep: Ep)
    requires LastText(rows, ep).Some?
    requires var index := Index0(NameDialed(members, dialed, LocalName(rows)));
             forall k :: k in ListingOf(rows) && Home(index, k.ep) == Home(index, ep) ==> k.ep == ep
    ensures var home := Home(Index0(NameDialed(members, dialed, LocalName(rows))), ep);
            var text := LastText(rows, ep).value;
            var out := text == Ascii("resyncing") || text == Ascii("unreachable");
            home in Folded(members, dialed, rows)
            && if out then !Folded(members, dialed, rows)[home].Usable()
               else Folded(members, dialed, rows)[home].listed == Ready
  {
    LastStateMeans(rows, ep);
    hide Folded, Index0, ListingOf, LocalName, NameDialed, LastState, LastText, Home;
    FoldState(members, dialed, rows, Listing(ep, LastState(rows, ep).value));
  }

  /** The answering member's name for itself: the endpoint of the last well-shaped row marked local, if there is one. */
  lemma {:induction false} LocalNameMeans(rows: seq<Row>) returns (i: nat)
    ensures match LocalName(rows)
            case None => forall j :: 0 <= j < |rows| ==> !LocalRow(rows[j])
            case Some(name) =>
              i < |rows| && LocalRow(rows[i]) && rows[i][0] == Values.Str(name)
              && forall j :: i < j < |rows| ==> !LocalRow(rows[j])
    decreases |rows|
  {
    i := 0;
    if rows != [] {
      var n := |rows| - 1;
      assert IsLocal(rows[n]) <==> LocalRow(rows[n]);
      if LocalRow(rows[n]) {
        i := n;
      } else {
        i := LocalNameMeans(rows[..n]);
        assert forall j :: 0 <= j < n ==> rows[..n][j] == rows[j];
      }
    }
  }

  predicate LocalRow(row: Row) {
    |row| >= 3 && row[0].Str? && row[1].Str? && row[2] == Values.Bool(true)
  }

  /** A survivor keeps its name, but the answering one takes the name it gives itself, and a taken-over key its own. */
  lemma FoldCanonical(members: Members, dialed: Ep, rows: seq<Row>, ep: Ep)
    requires ep in members && ep in Folded(members, dialed, rows) && ep !in RemovedBy(members, dialed, rows)
    ensures var named := NameDialed(members, dialed, LocalName(rows));
            Folded(members, dialed, rows)[ep].canonical ==
              if ep in Unknown(Index0(named), ListingOf(rows)) then Some(ep)
              else if ep == dialed && LocalName(rows).Some? then LocalName(rows) else members[ep].canonical
  {
    FoldShape(members, dialed, rows);
    NamedCanonical(members, dialed, LocalName(rows), ep);
    hide Folded, PlaceAll, Index0, ListingOf, LocalName, NameDialed, Seen, Unknown, Indexes;
  }

  lemma NamedCanonical(members: Members, dialed: Ep, name: Option<Ep>, ep: Ep)
    requires ep in members
    ensures NameDialed(members, dialed, name)[ep].canonical ==
              if ep == dialed && name.Some? then name else members[ep].canonical
  {}

  /** A member no row stands for survives only as a seed, unlisted if it is named. */
  lemma FoldUnlists(members: Members, dialed: Ep, rows: seq<Row>, ep: Ep)
    requires ep in Folded(members, dialed, rows)
    requires ep !in Seen(Index0(NameDialed(members, dialed, LocalName(rows))), ListingOf(rows))
    ensures var m := Folded(members, dialed, rows)[ep];
            m.seed && (m.canonical.Some? ==> m.listed == Unlisted)
  {
    FoldShape(members, dialed, rows);
    hide Folded, PlaceAll, Index0, ListingOf, LocalName, NameDialed, Placed, Seen;
  }

  /** A member discovery brought in stays only while listed. */
  lemma FoldDropsUnlisted(members: Members, dialed: Ep, rows: seq<Row>, ep: Ep)
    requires ep in Folded(members, dialed, rows) && !Folded(members, dialed, rows)[ep].seed
    ensures ep in Seen(Index0(NameDialed(members, dialed, LocalName(rows))), ListingOf(rows))
  {
    FoldShape(members, dialed, rows);
    hide Folded, PlaceAll, Index0, ListingOf, LocalName, NameDialed, Placed, Seen;
  }

  lemma NamedSame(members: Members, dialed: Ep, name: Option<Ep>)
    ensures NameDialed(members, dialed, name).Keys == members.Keys
    ensures forall ep :: ep in members ==> SameAccount(members[ep], NameDialed(members, dialed, name)[ep])
  {}

  /** The members a fold takes out, even one it puts back under the same key as a new member. */
  ghost function RemovedBy(members: Members, dialed: Ep, rows: seq<Row>): set<Ep> {
    var named := NameDialed(members, dialed, LocalName(rows));
    members.Keys - (Deduped(named, Index0(named)).Keys * Folded(members, dialed, rows).Keys)
  }

  /** `index` maps a name some seed among `eps` has to the last such seed in endpoint order. */
  ghost predicate LastSeeds(members: Members, eps: seq<Ep>, index: Index) {
    forall ep :: ep in eps && ep in members && members[ep].seed && members[ep].canonical.Some? ==>
      var name := members[ep].canonical.value;
      && name in index && index[name] in eps && index[name] in members
      && members[index[name]].seed && members[index[name]].canonical == Some(name)
      && (index[name] == ep || Cmp(ep, index[name]) == Less)
  }

  lemma LastSeedsStep(members: Members, before: seq<Ep>, index: Index, last: Ep)
    requires LastSeeds(members, before, index) && last in members
    requires forall ep :: ep in before ==> ep in members && Cmp(ep, last) == Less
    ensures LastSeeds(members, before + [last], IndexStep(members, index, last))
  {
    hide Cmp;
  }

  lemma {:induction false} IndexLastSeeds(members: Members, order: seq<Ep>)
    requires Ascending(order) && forall ep :: ep in order ==> ep in members
    ensures LastSeeds(members, order, IndexOf(members, order))
    decreases |order|
  {
    if order != [] {
      var n := |order| - 1;
      var before, last := order[..n], order[n];
      IndexLastSeeds(members, before);
      forall ep | ep in before ensures Cmp(ep, last) == Less {
        var i :| 0 <= i < n && order[i] == ep;
      }
      assert order == before + [last];
      hide LastSeeds, Ascending;
      LastSeedsStep(members, before, IndexOf(members, before), last);
    }
  }

  /** Some seed of the same name comes later in endpoint order. */
  ghost predicate LaterSeed(named: Members, ep: Ep) {
    ep in named && named[ep].canonical.Some?
    && exists other :: other in named && named[other].seed && named[other].canonical == named[ep].canonical
         && Cmp(ep, other) == Less
  }

  lemma DedupedSeeds(named: Members, ep: Ep)
    requires ep in named && named[ep].seed
    ensures ep in Deduped(named, Index0(named)) <==> !LaterSeed(named, ep)
    ensures exists heir :: Heir(named, ep, heir) && heir in Deduped(named, Index0(named))
    ensures ep in Deduped(named, Index0(named)) ==> Heir(named, ep, ep)
  {
    var index := Index0(named);
    IndexLastSeeds(named, SortedKeys(named.Keys));
    hide Index0, IndexOf;
    if named[ep].canonical.Some? {
      var heir := index[named[ep].canonical.value];
      assert Heir(named, ep, heir) && heir in Deduped(named, index);
      forall other | other in named && named[other].seed && named[other].canonical == named[ep].canonical
        ensures other == heir || Cmp(other, heir) == Less {}
      if heir == ep {
        forall other | other in named && named[other].seed && named[other].canonical == named[ep].canonical
          ensures Cmp(ep, other) != Less
        {
          CmpReverse(other, ep);
          CmpEqual(other, ep);
        }
      } else {
        CmpEqual(ep, heir);
      }
    } else {
      assert Heir(named, ep, ep);
    }
  }

  /** A seed that takes over from `ep`: itself, or a later one of its name. */
  ghost predicate Heir(named: Members, ep: Ep, heir: Ep) {
    && ep in named && heir in named && named[heir].seed
    && (heir == ep
        || (named[ep].canonical.Some? && named[heir].canonical == named[ep].canonical && Cmp(ep, heir) == Less))
  }

  lemma SeedsFinish(members: Members, dialed: Ep, rows: seq<Row>, ep: Ep)
    requires var named := NameDialed(members, dialed, LocalName(rows));
             ep in Deduped(named, Index0(named)) && named[ep].seed
    ensures ep in members && ep in Folded(members, dialed, rows) && Folded(members, dialed, rows)[ep].seed
    ensures ep !in RemovedBy(members, dialed, rows)
  {
    FoldShape(members, dialed, rows);
    NamedSame(members, dialed, LocalName(rows));
    hide Folded, PlaceAll, Index0, ListingOf, LocalName, NameDialed, Seen, Unknown, Indexes;
  }

  /** A listing displaces a seed exactly when another seed that goes by the same name comes later in endpoint order. */
  lemma SeedDisplaced(members: Members, dialed: Ep, rows: seq<Row>, ep: Ep)
    requires ep in members && members[ep].seed
    ensures ep in RemovedBy(members, dialed, rows) <==> LaterSeed(NameDialed(members, dialed, LocalName(rows)), ep)
  {
    var named := NameDialed(members, dialed, LocalName(rows));
    NamedSame(members, dialed, LocalName(rows));
    hide Folded, Index0, NameDialed, LaterSeed, Deduped, LocalName;
    DedupedSeeds(named, ep);
    if ep in Deduped(named, Index0(named)) { SeedsFinish(members, dialed, rows, ep); }
  }

  /**
    For every seed there is a seed afterwards that stands in for it: itself unless displaced, else a later
    seed of the same name, not displaced either.
   */
  lemma FoldKeepsSeeds(members: Members, dialed: Ep, rows: seq<Row>, ep: Ep) returns (heir: Ep)
    requires ep in members && members[ep].seed
    ensures Heir(NameDialed(members, dialed, LocalName(rows)), ep, heir)
    ensures heir in members && members[heir].seed
    ensures heir in Folded(members, dialed, rows) && Folded(members, dialed, rows)[heir].seed
    ensures heir !in RemovedBy(members, dialed, rows) && (ep !in RemovedBy(members, dialed, rows) ==> heir == ep)
  {
    var named := NameDialed(members, dialed, LocalName(rows));
    var kept := Deduped(named, Index0(named));
    NamedSame(members, dialed, LocalName(rows));
    var gone := RemovedBy(members, dialed, rows);
    assert ep !in gone ==> ep in kept;
    hide Folded, Index0, NameDialed, Heir, Deduped, LocalName, RemovedBy;
    DedupedSeeds(named, ep);
    if ep in kept {
      heir := ep;
    } else {
      heir :| Heir(named, ep, heir) && heir in kept;
    }
    HeirIsSeed(named, ep, heir);
    SeedsFinish(members, dialed, rows, heir);
  }

  lemma HeirIsSeed(named: Members, ep: Ep, heir: Ep)
    requires Heir(named, ep, heir)
    ensures heir in named && named[heir].seed
  {}

  ghost predicate HasSeed(members: Members) {
    exists ep :: ep in members && members[ep].seed
  }

  /** A map with a seed has one after every listing, so it is never empty. */
  lemma FoldNotEmpty(members: Members, dialed: Ep, rows: seq<Row>)
    requires HasSeed(members)
    ensures HasSeed(Folded(members, dialed, rows)) && Folded(members, dialed, rows) != map[]
  {
    hide Folded, NameDialed, RemovedBy;
    var ep :| ep in members && members[ep].seed;
    var heir := FoldKeepsSeeds(members, dialed, rows, ep);
  }

  /** Survivors keep their health and their connection count; everyone else starts afresh. */
  lemma FoldKeepsAccounts(members: Members, dialed: Ep, rows: seq<Row>, ep: Ep)
    requires ep in Folded(members, dialed, rows)
    ensures SameAccount(
              if ep in members && ep !in RemovedBy(members, dialed, rows) then members[ep] else NewMember(false),
              Folded(members, dialed, rows)[ep])
  {
    FoldShape(members, dialed, rows);
    NamedSame(members, dialed, LocalName(rows));
    hide Folded, PlaceAll, Index0, ListingOf, LocalName, NameDialed, Seen, Unknown, Indexes;
  }

  /**
    The takeover is reachable: a seed dialed at `a` that names itself `b`, while `a` is also listed.
    Both rows fold onto the seed and nothing goes by the name `b` any more.
   */
  lemma NameTakenOver(a: Ep, b: Ep, x: seq<Byte>, y: seq<Byte>)
    requires a != b
    ensures var rows := [[Values.Str(b), Values.Str(x), Values.Bool(true)], [Values.Str(a), Values.Str(y)]];
            var r := Folded(map[a := NewMember(true)], a, rows);
            r.Keys == {a} && r[a].canonical == Some(a)
  {
    var rows: seq<Row> := [[Values.Str(b), Values.Str(x), Values.Bool(true)], [Values.Str(a), Values.Str(y)]];
    TwoRows(rows, Listing(b, StateOf(x)), Listing(a, StateOf(y)));
    hide ListingOf, LocalName, PlaceAll, Index0, Finish, Deduped, Seen, StateOf;
    SingleFold(NameDialed(map[a := NewMember(true)], a, Some(b)), a, b, ListingOf(rows));
  }

  lemma SingleFold(named: Members, a: Ep, b: Ep, listed: seq<Listing>)
    requires a != b && named.Keys == {a} && named[a].seed && named[a].canonical == Some(b)
    requires |listed| == 2 && listed[0].ep == b && listed[1].ep == a
    ensures var index := Index0(named);
            var r := Finish(PlaceAll(Deduped(named, index), index, listed), Seen(index, listed));
            r.Keys == {a} && r[a].canonical == Some(a)
  {
    SingleIndex(named, a, b);
    hide Index0, PlaceAll;
    var index := Index0(named);
    assert Deduped(named, index) == named;
    PlaceAllPlaced(named, index, listed);
    hide Deduped;
    assert listed[1] in listed;
    assert Unknown(index, listed) == {a};
    assert Home(index, a) in Seen(index, listed);
    hide Seen, Unknown;
  }

  lemma SingleIndex(named: Members, a: Ep, b: Ep)
    requires named.Keys == {a} && named[a].canonical == Some(b)
    ensures Index0(named) == map[b := a]
  {
    Index0Indexes(named);
    hide Index0;
    var index := Index0(named);
    assert named[a].canonical.value in index;
  }

  lemma TwoRows(rows: seq<Row>, l: Listing, k: Listing)
    requires |rows| == 2 && RowListing(rows[0]) == Some(l) && RowListing(rows[1]) == Some(k) && l.ep != k.ep
    requires IsLocal(rows[0]) && !IsLocal(rows[1])
    ensures ListingOf(rows) == [l, k] && LocalName(rows) == Some(l.ep)
  {
    assert rows[..1] == [rows[0]] && rows[..1][..0] == [];
    assert ListingOf(rows[..1]) == Upsert([], l);
    assert Upsert([l], k) == [l] + Upsert([l][1..], k);
    assert LocalName(rows[..1]) == Some(l.ep);
  }
}
