/**
  Why ejection safety needs its condition once listings are folded: a probe can outlive the member it was
  sent for, and its failure then ejects a namesake that is the only usable member.
 */
module StaleProbe {
  import opened Bytes
  import opened PoolMembers
  import opened Discovery
  import opened Pool
  import Values

  function OneRow(ep: Ep, state: seq<Byte>): Row {
    [Values.Str(ep), Values.Str(state)]
  }

  lemma FoldOne(members: Members, dialed: Ep, ep: Ep, state: seq<Byte>)
    ensures var index := Index0(members);
            Folded(members, dialed, [OneRow(ep, state)])
            == Finish(Place(Deduped(members, index), index, Listing(ep, StateOf(state))), {Home(index, ep)})
  {
    var rows, l := [OneRow(ep, state)], Listing(ep, StateOf(state));
    assert rows[..0] == [] && rows[0] == OneRow(ep, state);
    assert RowListing(rows[0]) == Some(l) && LocalName(rows[..0]) == None;
    assert LocalName(rows) == None;
    assert Upsert([], l) == [l];
    assert ListingOf(rows) == [l];
    hide StateOf, Index0, Deduped, Place, Finish, ListingOf, LocalName;
    var index := Index0(members);
    assert [l][..0] == [] && [l][0] == l;
    assert PlaceAll(Deduped(members, index), index, [l]) == Place(Deduped(members, index), index, l);
    assert Seen(index, [l]) == {Home(index, ep)};
  }

  function Seed(): Member { NewMember(true) }
  function Found(b: Ep): Member { NewMember(false).(canonical := Some(b)) }
  function Named(a: Ep, state: Listed): Member { NewMember(true).(canonical := Some(a), listed := state) }

  /** `b` is discovered. */
  lemma FoldFirst(a: Ep, b: Ep)
    requires a != b
    ensures Folded(map[a := Seed()], a, [OneRow(b, [])]) == map[a := Seed(), b := Found(b)]
  {
    FoldOne(map[a := Seed()], a, b, []);
    Index0Indexes(map[a := Seed()]);
    hide Folded, Index0;
    var index := Index0(map[a := Seed()]);
    assert index == map[];
    assert Deduped(map[a := Seed()], index) == map[a := Seed()];
  }

  /** `b` is gone and `a` unreachable. */
  lemma FoldAway(a: Ep, b: Ep, m: Member)
    requires a != b && m.canonical == Some(b) && !m.seed
    ensures Folded(map[a := Seed(), b := m], a, [OneRow(a, UNREACHABLE)]) == map[a := Named(a, Unreachable)]
  {
    var members := map[a := Seed(), b := m];
    FoldOne(members, a, a, UNREACHABLE);
    Index0Indexes(members);
    hide Folded, Index0;
    var index := Index0(members);
    assert members[b].canonical.value in index;
    assert index == map[b := b];
    assert Deduped(members, index) == members;
    assert StateOf(UNREACHABLE) == Unreachable;
  }

  /** `b` is back, as a new member. */
  lemma FoldBack(a: Ep, b: Ep)
    requires a != b
    ensures Folded(map[a := Named(a, Unreachable)], a, [OneRow(b, [])]) == map[a := Named(a, Unlisted), b := Found(b)]
  {
    var members := map[a := Named(a, Unreachable)];
    FoldOne(members, a, b, []);
    Index0Indexes(members);
    hide Folded, Index0;
    var index := Index0(members);
    assert members[a].canonical.value in index;
    assert index == map[a := a];
    assert Deduped(members, index) == members;
  }

  lemma RunSnoc(opts: Options, w: World, es: seq<Event>, e: Event)
    requires Runs(opts, w, es) && Enabled(Run(opts, w, es), e)
    ensures Runs(opts, w, es + [e]) && Run(opts, w, es + [e]) == Step(opts, Run(opts, w, es), e)
    decreases |es|
  {
    hide Step, Enabled;
    if es == [] {
      assert ([] + [e])[0] == e && ([] + [e])[1..] == [];
    } else {
      RunSnoc(opts, Step(opts, w, es[0]), es[1..], e);
      assert (es + [e])[0] == es[0] && (es + [e])[1..] == es[1..] + [e];
    }
  }

  function Fresh(members: Members): Pool {
    Pool(members, [], USIZE_MAX, map[], false, map[])
  }

  ghost predicate At(opts: Options, w: World, es: seq<Event>, members: Members, inFlight: set<Ep>, clock: nat) {
    && Runs(opts, w, es)
    && var v := Run(opts, w, es);
       v.pool == Fresh(members) && v.inFlight == inFlight && v.clock == clock
  }

  lemma FoldStep(opts: Options, w: World, es: seq<Event>, members: Members, inFlight: set<Ep>, clock: nat, e: Event)
    requires At(opts, w, es, members, inFlight, clock) && e.Folding?
    ensures At(opts, w, es + [e], Folded(members, e.dialed, e.rows), inFlight, clock)
  {
    hide Run, Runs, Folded, RemovedBy;
    RunSnoc(opts, w, es, e);
  }

  lemma StartRun(opts: Options, a: Ep) returns (w: World)
    ensures Initial(w) && At(opts, w, [], map[a := Seed()], {}, 0)
  {
    w := World(Fresh(map[a := Seed()]), {}, {}, 0);
    assert a in w.pool.members;
  }

  /** `b` is discovered, fails until it is out, and is being probed. */
  lemma ProbeStarts(opts: Options, a: Ep, b: Ep) returns (w: World, es: seq<Event>, m: Member)
    requires a != b && opts.ejectErrors <= U32_MAX
    ensures Initial(w) && At(opts, w, es, map[a := Seed(), b := m], {b}, opts.backoffMax)
    ensures m.canonical == Some(b) && !m.seed
  {
    hide At, Folded, Initial;
    w := StartRun(opts, a);
    var e := Folding(a, [OneRow(b, [])]);
    FoldFirst(a, b);
    FoldStep(opts, w, [], map[a := Seed()], {}, 0, e);
    es, m := FailUntilOut(opts, a, b, w, [] + [e], 0);
    es, m := BDue(opts, a, b, w, es, m);
  }

  /** A failing probe leaves no member usable, in a run from a fresh pool. */
  lemma StaleProbeReachable(opts: Options, a: Ep, b: Ep) returns (w: World, es: seq<Event>, e: Event)
    requires a != b && opts.ejectErrors <= U32_MAX
    ensures Initial(w) && Runs(opts, w, es) && Enabled(Run(opts, w, es), e) && e.Probing?
    ensures SomeUsable(Run(opts, w, es).pool.members) && !SomeUsable(Step(opts, Run(opts, w, es), e).pool.members)
  {
    hide Run, Runs, Folded, RemovedBy, Initial, Step;
    var m;
    w, es, m := ProbeStarts(opts, a, b);
    var late, away, back := opts.backoffMax, Folding(a, [OneRow(a, UNREACHABLE)]), Folding(a, [OneRow(b, [])]);
    FoldAway(a, b, m);
    FoldStep(opts, w, es, map[a := Seed(), b := m], {b}, late, away);
    FoldBack(a, b);
    FoldStep(opts, w, es + [away], map[a := Named(a, Unreachable)], {b}, late, back);
    es := es + [away] + [back];
    e := Probing(b, false, 0, late);
    BLast(opts, a, b, Run(opts, w, es));
  }

  /** One failure of `b`, the `j + 1`-th in a row. */
  lemma BFails(opts: Options, a: Ep, b: Ep, v: World, j: nat) returns (m: Member)
    requires a != b && opts.ejectErrors <= U32_MAX && j < U32_MAX
    requires v.pool == Fresh(map[a := Seed(), b := Found(b).(errors := j)]) && v.inFlight == {} && v.clock == 0
    ensures var u := Step(opts, v, Failing(b, 0));
            u.pool == Fresh(map[a := Seed(), b := m]) && u.inFlight == {} && u.clock == 0
    ensures if j + 1 >= opts.ejectErrors then Ejected(opts, b, m) else m == Found(b).(errors := j + 1)
  {
    hide BackoffFor;
    var members := map[a := Seed(), b := Found(b).(errors := j)];
    var failing := members[b := members[b].(errors := j + 1)];
    assert failing[a].Usable();
    assert OtherUsable(failing, b);
    hide OtherUsable;
    if j + 1 >= opts.ejectErrors {
      m := Eject(opts, failing, b, 0)[b];
      assert Eject(opts, failing, b, 0) == map[a := Seed(), b := m];
    } else {
      m := failing[b];
      assert failing == map[a := Seed(), b := m];
    }
  }

  predicate Ejected(opts: Options, b: Ep, m: Member) {
    && m.canonical == Some(b) && !m.seed && !m.probing
    && m.ejectedUntil.Some? && m.ejectedUntil.value <= opts.backoffMax
  }

  /** Failures of `b` until it is out. */
  lemma {:induction false} FailUntilOut(opts: Options, a: Ep, b: Ep, w: World, es: seq<Event>, j: nat)
    returns (more: seq<Event>, m: Member)
    requires a != b && opts.ejectErrors <= U32_MAX && (j == 0 || j < opts.ejectErrors)
    requires At(opts, w, es, map[a := Seed(), b := Found(b).(errors := j)], {}, 0)
    ensures At(opts, w, more, map[a := Seed(), b := m], {}, 0) && Ejected(opts, b, m)
    decreases opts.ejectErrors - j
  {
    hide Run, Runs, Next, Ejected;
    var e := Failing(b, 0);
    m := BFails(opts, a, b, Run(opts, w, es), j);
    RunSnoc(opts, w, es, e);
    more := es + [e];
    if j + 1 < opts.ejectErrors {
      more, m := FailUntilOut(opts, a, b, w, more, j + 1);
    }
  }

  /** At the longest deadline it is due. */
  lemma BDue(opts: Options, a: Ep, b: Ep, w: World, es: seq<Event>, m: Member) returns (more: seq<Event>, n: Member)
    requires a != b && At(opts, w, es, map[a := Seed(), b := m], {}, 0) && Ejected(opts, b, m)
    ensures At(opts, w, more, map[a := Seed(), b := n], {b}, opts.backoffMax) && n.canonical == Some(b) && !n.seed
  {
    hide Run, Runs;
    var v, e := Run(opts, w, es), Ticking(opts.backoffMax);
    RunSnoc(opts, w, es, e);
    more, n := es + [e], m.(probing := true);
    var u := Step(opts, v, e);
    assert DueMembers(v.pool.members, opts.backoffMax) == {b};
    assert u.pool.members == map[a := Seed(), b := n];
  }

  lemma BLast(opts: Options, a: Ep, b: Ep, v: World)
    requires a != b && v.pool == Fresh(map[a := Named(a, Unlisted), b := Found(b)])
    requires v.inFlight == {b} && v.clock == opts.backoffMax
    ensures var e := Probing(b, false, 0, opts.backoffMax);
            Enabled(v, e) && SomeUsable(v.pool.members) && !SomeUsable(Step(opts, v, e).pool.members)
  {
    hide BackoffFor;
    assert v.pool.members[b].Usable();
  }
}
