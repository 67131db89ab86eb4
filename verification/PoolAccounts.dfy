/** Connection accounting over every run of the pool. */
module PoolAccounts {
  import opened Bytes
  import opened Sequences
  import opened PoolMembers
  import opened Discovery
  import opened Pool

  type Links = map<ConnId, Link>

  /** Checked-out connections attributed to `ep`. */
  function OutAt(links: Links, ep: Ep): set<ConnId> {
    set id | id in links && links[id].out && links[id].member == ep
  }

  function Weight(l: Link, ep: Ep): nat {
    if l.out && l.member == ep then 1 else 0
  }

  function Marker(l: Link, id: ConnId, ep: Ep): set<ConnId> {
    if Weight(l, ep) == 1 then {id} else {}
  }

  lemma OutPut(links: Links, id: ConnId, l: Link, ep: Ep)
    ensures OutAt(links[id := l], ep) == (OutAt(links, ep) - {id}) + Marker(l, id, ep)
  {}

  lemma NotOut(links: Links, id: ConnId, ep: Ep)
    requires id !in links
    ensures id !in OutAt(links, ep)
  {}

  lemma CountPut(links: Links, id: ConnId, l: Link, ep: Ep)
    ensures |OutAt(links[id := l], ep)| == |OutAt(links, ep) - {id}| + Weight(l, ep)
    ensures id in links ==> |OutAt(links, ep)| == |OutAt(links, ep) - {id}| + Weight(links[id], ep)
    ensures id !in links ==> OutAt(links, ep) - {id} == OutAt(links, ep)
  {
    hide OutAt;
    OutPut(links, id, l, ep);
    if id in links {
      OutPut(links, id, links[id], ep);
      assert links[id := links[id]] == links;
    } else {
      NotOut(links, id, ep);
    }
  }

  lemma CountDrop(links: Links, id: ConnId, ep: Ep)
    requires id in links
    ensures |OutAt(links - {id}, ep)| + Weight(links[id], ep) == |OutAt(links, ep)|
  {
    assert OutAt(links - {id}, ep) == OutAt(links, ep) - {id};
    CountPut(links, id, links[id], ep);
  }

  lemma CountDropIdle(links: Links, ids: set<ConnId>, ep: Ep)
    requires forall id :: id in ids && id in links ==> !links[id].out
    ensures OutAt(links - ids, ep) == OutAt(links, ep)
  {}

  /** `in_use` is at most the connections out at a member, and exactly that unless a listing removed it once. */
  ghost predicate AccountedAt(members: Members, links: Links, removed: set<Ep>, ep: Ep)
    requires ep in members
  {
    members[ep].inUse <= |OutAt(links, ep)| && (ep !in removed ==> members[ep].inUse == |OutAt(links, ep)|)
  }

  ghost predicate Accounted(members: Members, links: Links, removed: set<Ep>) {
    forall ep :: ep in members ==> AccountedAt(members, links, removed, ep)
  }

  ghost predicate Attributed(links: Links, ever: set<Ep>) {
    forall id :: id in links ==> links[id].member in ever
  }

  /** Idle connections: distinct, live, neither out nor broken, at most `maxsize`, none once closed. */
  ghost predicate IdleOk(opts: Options, s: Pool) {
    && NoDup(s.idle)
    && (forall id :: id in s.idle ==> id in s.links && !s.links[id].out && !s.links[id].broken)
    && |s.idle| <= opts.maxsize
    && (s.closed ==> s.idle == [])
  }

  ghost predicate Inv(opts: Options, w: World) {
    && IdleOk(opts, w.pool)
    && Attributed(w.pool.links, Ever(w))
    && Accounted(w.pool.members, w.pool.links, w.removed)
  }

  // ---- the idle list ----

  lemma {:induction false} WithoutKeeps(idle: seq<ConnId>, gone: set<nat>)
    ensures |Without(idle, gone)| <= |idle|
    ensures forall id :: id in Without(idle, gone) ==> exists i :: 0 <= i < |idle| && i !in gone && idle[i] == id
    ensures NoDup(idle) ==> NoDup(Without(idle, gone))
  {
    if idle != [] {
      var n := |idle| - 1;
      WithoutKeeps(idle[..n], gone);
      var r := Without(idle[..n], gone);
      forall id | id in Without(idle, gone) ensures exists i :: 0 <= i < |idle| && i !in gone && idle[i] == id {
        if id in r {
          var i :| 0 <= i < n && i !in gone && idle[..n][i] == id;
          assert idle[i] == id;
        } else {
          assert idle[n] == id && n !in gone;
        }
      }
      if NoDup(idle) {
        forall k | 0 <= k < |r| ensures r[k] != idle[n] {
          assert r[k] in r;
          var i :| 0 <= i < n && i !in gone && idle[..n][i] == r[k];
          assert idle[i] == r[k];
        }
      }
    }
  }

  /** The connections a take drops are idle ones. */
  lemma TakeIdleDrops(opts: Options, s: Pool, target: Option<Ep>)
    ensures var t := TakeIdle(opts, s, target);
            (forall id :: id in t.dropped ==> id in s.idle)
            && t.pool == s.(idle := t.pool.idle, links := s.links - t.dropped)
  {
    hide Without, FindHit;
  }

  lemma AtDistinct(idle: seq<ConnId>, gone: set<nat>, i: nat)
    requires NoDup(idle) && i < |idle| && i !in gone
    ensures idle[i] !in At(idle, gone)
  {}

  /** A hit is not stale. */
  lemma HitNotStale(opts: Options, s: Pool, target: Option<Ep>, limit: nat)
    requires limit <= |s.idle|
    ensures var k := FindHit(opts.fifo, s, target, 0);
            k.Some? ==> ScanAt(opts.fifo, |s.idle|, k.value) !in StaleBefore(opts.fifo, s, limit)
  {
    hide FindHit;
  }

  lemma KeptApart(idle: seq<ConnId>, stale: set<nat>, found: set<nat>)
    requires NoDup(idle)
    ensures var r := Without(idle, stale + found);
            |r| <= |idle| && NoDup(r)
            && forall id :: id in r ==> id in idle && id !in At(idle, stale) && id !in At(idle, found)
  {
    WithoutKeeps(idle, stale + found);
    var r := Without(idle, stale + found);
    hide Without, At;
    forall id | id in r ensures id in idle && id !in At(idle, stale) && id !in At(idle, found) {
      var i :| 0 <= i < |idle| && i !in stale + found && idle[i] == id;
      AtDistinct(idle, stale, i);
      AtDistinct(idle, found, i);
    }
  }

  lemma TakeIdleKeeps(opts: Options, s: Pool, target: Option<Ep>)
    requires NoDup(s.idle)
    ensures var t := TakeIdle(opts, s, target);
            |t.pool.idle| <= |s.idle| && NoDup(t.pool.idle)
            && (forall id :: id in t.pool.idle ==> id in s.idle && id !in t.dropped && t.picked != Some(id))
            && (t.picked.Some? ==> t.picked.value in s.idle && t.picked.value !in t.dropped)
  {
    hide Without, FindHit, StaleBefore, NoDup, At, ConnUsable, Hit;
    var n := |s.idle|;
    var k := FindHit(opts.fifo, s, target, 0);
    var limit := if k.Some? then k.value else n;
    var stale := StaleBefore(opts.fifo, s, limit);
    if k.Some? {
      var i := ScanAt(opts.fifo, n, k.value);
      KeptApart(s.idle, stale, {i});
      HitNotStale(opts, s, target, limit);
      AtDistinct(s.idle, stale, i);
      AtOne(s.idle, i);
    } else {
      KeptApart(s.idle, stale, {});
    }
  }

  lemma AtOne(idle: seq<ConnId>, i: nat)
    requires i < |idle|
    ensures At(idle, {i}) == {idle[i]}
  {
    assert idle[i] in At(idle, {i});
  }

  lemma TakeIdleOk(opts: Options, s: Pool, target: Option<Ep>)
    requires IdleOk(opts, s)
    ensures var t := TakeIdle(opts, s, target);
            IdleOk(opts, t.pool)
            && (forall id :: id in t.dropped ==> id in s.links && !s.links[id].out)
            && t.pool == s.(idle := t.pool.idle, links := s.links - t.dropped)
            && (t.picked.Some? ==> t.picked.value in t.pool.links && t.picked.value !in t.pool.idle
                                   && !t.pool.links[t.picked.value].out && !t.pool.links[t.picked.value].broken)
  {
    TakeIdleDrops(opts, s, target);
    TakeIdleKeeps(opts, s, target);
    hide TakeIdle;
  }

  lemma PickKeeps(opts: Options, s: Pool, key: Key, now: nat, lucky: nat)
    ensures var p := Pick(opts, s, key, now, lucky).pool;
            p.idle == s.idle && p.links == s.links && p.members == s.members && p.closed == s.closed
  {
    PinKeeps(opts, s, key, now);
    hide PickPinned, UsableList, NextRr;
  }

  lemma PinKeeps(opts: Options, s: Pool, key: Key, now: nat)
    ensures PickPinned(opts, s, key, now).pool == s.(affinity := PickPinned(opts, s, key, now).pool.affinity)
  {}

  lemma ChooseInv(opts: Options, w: World, key: Key, now: nat, lucky: nat)
    requires Inv(opts, w)
    ensures var s := Choose(opts, w.pool, key, now, lucky).pool;
            IdleOk(opts, s) && s.members == w.pool.members && Attributed(s.links, Ever(w))
            && Accounted(s.members, s.links, w.removed)
  {
    hide Pick, TakeIdle, OutAt;
    if !w.pool.closed {
      PickKeeps(opts, w.pool, key, now, lucky);
      var c := Pick(opts, w.pool, key, now, lucky);
      TakeIdleOk(opts, c.pool, c.target);
      var t := TakeIdle(opts, c.pool, c.target);
      forall ep ensures OutAt(t.pool.links, ep) == OutAt(w.pool.links, ep) {
        CountDropIdle(w.pool.links, t.dropped, ep);
      }
    }
  }

  // ---- one connection changes hands ----

  lemma HandOutInv(opts: Options, w: World, id: ConnId, key: Key)
    requires Inv(opts, w) && InHand(w, id) && !w.pool.links[id].out
    ensures var s := HandOut(w.pool, id, key);
            IdleOk(opts, s) && s.members.Keys == w.pool.members.Keys && Attributed(s.links, Ever(w))
            && Accounted(s.members, s.links, w.removed)
  {
    hide OutAt;
    var s := HandOut(w.pool, id, key);
    forall ep | ep in s.members ensures AccountedAt(s.members, s.links, w.removed, ep) {
      CountPut(w.pool.links, id, s.links[id], ep);
      assert AccountedAt(w.pool.members, w.pool.links, w.removed, ep);
    }
  }

  /** Returned or dropped: one fewer out at its member, if it was out. */
  lemma GoneInv(opts: Options, w: World, id: ConnId)
    requires Inv(opts, w) && InHand(w, id)
    ensures var s := DropConn(w.pool, id);
            IdleOk(opts, s) && s.members.Keys == w.pool.members.Keys && Attributed(s.links, Ever(w))
            && Accounted(s.members, s.links, w.removed)
  {
    hide OutAt;
    var s := DropConn(w.pool, id);
    forall ep | ep in s.members ensures AccountedAt(s.members, s.links, w.removed, ep) {
      CountDrop(w.pool.links, id, ep);
      assert AccountedAt(w.pool.members, w.pool.links, w.removed, ep);
    }
  }

  lemma CheckinInv(opts: Options, w: World, id: ConnId)
    requires Inv(opts, w) && InHand(w, id)
    ensures var s := Checkin(opts, w.pool, id);
            IdleOk(opts, s) && s.members.Keys == w.pool.members.Keys && Attributed(s.links, Ever(w))
            && Accounted(s.members, s.links, w.removed)
  {
    hide OutAt, Unbump;
    GoneInv(opts, w, id);
    var s := Checkin(opts, w.pool, id);
    if id in s.links {
      var d := DropConn(w.pool, id);
      assert s.members == d.members;
      forall ep | ep in s.members ensures AccountedAt(s.members, s.links, w.removed, ep) {
        assert AccountedAt(d.members, d.links, w.removed, ep);
        CountPut(d.links, id, s.links[id], ep);
        assert d.links[id := s.links[id]] == s.links;
      }
    }
  }

  lemma RelinkOk(opts: Options, w: World, id: ConnId, broken: bool, ep: Ep)
    requires Inv(opts, w) && InHand(w, id) && ep in Ever(w)
    ensures var s := Reattribute(SetBroken(w.pool, id, broken), id, ep);
            IdleOk(opts, s) && Attributed(s.links, Ever(w))
            && s.links == w.pool.links[id := w.pool.links[id].(broken := broken, member := ep)]
  {
    hide Accounted, Bump, Unbump;
  }

  lemma RelinkInv(opts: Options, w: World, id: ConnId, broken: bool, ep: Ep)
    requires Inv(opts, w) && InHand(w, id) && ep in Ever(w)
    ensures var s := Reattribute(SetBroken(w.pool, id, broken), id, ep);
            IdleOk(opts, s) && s.members.Keys == w.pool.members.Keys && Attributed(s.links, Ever(w))
            && Accounted(s.members, s.links, w.removed)
  {
    RelinkOk(opts, w, id, broken, ep);
    hide OutAt, Reattribute, SetBroken, IdleOk, Attributed;
    var s := Reattribute(SetBroken(w.pool, id, broken), id, ep);
    RelinkKeys(w.pool, id, broken, ep);
    forall e | e in s.members ensures AccountedAt(s.members, s.links, w.removed, e) {
      assert AccountedAt(w.pool.members, w.pool.links, w.removed, e);
      CountPut(w.pool.links, id, s.links[id], e);
      RelinkedUse(w.pool, id, broken, ep, e);
    }
  }

  lemma RelinkKeys(s: Pool, id: ConnId, broken: bool, ep: Ep)
    requires id in s.links
    ensures Reattribute(SetBroken(s, id, broken), id, ep).members.Keys == s.members.Keys
  {}

  /** A move shifts one count from the old member to the new one. */
  lemma RelinkedUse(s: Pool, id: ConnId, broken: bool, ep: Ep, e: Ep)
    requires id in s.links && e in s.members
    ensures var l, t := s.links[id], Reattribute(SetBroken(s, id, broken), id, ep);
            t.members.Keys == s.members.Keys
            && t.members[e].inUse ==
                 if !l.out || l.member == ep then s.members[e].inUse
                 else if e == ep then s.members[e].inUse + 1
                 else if e == l.member then SaturatingDec(s.members[e].inUse)
                 else s.members[e].inUse
  {}

  lemma BreakInv(opts: Options, w: World, id: ConnId)
    requires Inv(opts, w) && InHand(w, id)
    ensures var s := SetBroken(w.pool, id, true);
            IdleOk(opts, s) && s.members == w.pool.members && Attributed(s.links, Ever(w))
            && Accounted(s.members, s.links, w.removed)
  {
    RelinkInv(opts, w, id, true, w.pool.links[id].member);
  }

  lemma DialInv(opts: Options, w: World, id: ConnId, ep: Ep)
    requires Inv(opts, w) && id !in w.pool.links && ep in Ever(w)
    ensures var links := w.pool.links[id := Link(ep, false, None, false)];
            Attributed(links, Ever(w)) && Accounted(w.pool.members, links, w.removed)
            && IdleOk(opts, w.pool.(links := links))
            && (|w.pool.idle| < opts.maxsize && !w.pool.closed ==>
                  IdleOk(opts, w.pool.(links := links, idle := w.pool.idle + [id])))
  {
    hide OutAt;
    var l := Link(ep, false, None, false);
    var links := w.pool.links[id := l];
    forall e | e in w.pool.members ensures AccountedAt(w.pool.members, links, w.removed, e) {
      assert AccountedAt(w.pool.members, w.pool.links, w.removed, e);
      CountPut(w.pool.links, id, l, e);
    }
  }

  // ---- members change, connections do not ----

  predicate SameUse(a: Members, b: Members) {
    a.Keys == b.Keys && forall ep :: ep in a ==> a[ep].inUse == b[ep].inUse
  }

  lemma SameUseInv(a: Members, b: Members, links: Links, removed: set<Ep>)
    requires SameUse(a, b) && Accounted(a, links, removed)
    ensures Accounted(b, links, removed)
  {
    hide OutAt;
    forall ep | ep in b ensures AccountedAt(b, links, removed, ep) {
      assert AccountedAt(a, links, removed, ep);
    }
  }

  lemma EjectSameUse(opts: Options, members: Members, ep: Ep, now: nat)
    ensures SameUse(members, Eject(opts, members, ep, now))
  {
    hide BackoffFor;
  }

  lemma FailedSameUse(opts: Options, s: Pool, ep: Ep, now: nat)
    ensures var t := Failed(opts, s, ep, now);
            SameUse(s.members, t.members) && t.links == s.links && t.idle == s.idle && t.closed == s.closed
  {
    hide Eject;
    if ep in s.members {
      EjectSameUse(opts, s.members[ep := s.members[ep].(errors := SaturatingInc(s.members[ep].errors))], ep, now);
    }
  }

  lemma RoundTripSameUse(opts: Options, s: Pool, id: ConnId, ep: Ep, slow: bool, now: nat)
    requires id in s.links
    ensures var t := Reattribute(SetBroken(s, id, false), id, ep);
            var r := RoundTrip(opts, s, id, ep, slow, now);
            r == t.(members := r.members) && SameUse(t.members, r.members)
  {
    hide Reattribute, Eject;
    var t := Reattribute(SetBroken(s, id, false), id, ep);
    if ep in t.members {
      EjectSameUse(opts, t.members[ep := t.members[ep].(errors := 0)], ep, now);
    }
  }

  lemma RoundTripInv(opts: Options, w: World, id: ConnId, ep: Ep, slow: bool, now: nat)
    requires Inv(opts, w) && InHand(w, id) && ep in Ever(w)
    ensures var s := RoundTrip(opts, w.pool, id, ep, slow, now);
            IdleOk(opts, s) && s.members.Keys == w.pool.members.Keys && Attributed(s.links, Ever(w))
            && Accounted(s.members, s.links, w.removed)
  {
    RelinkInv(opts, w, id, false, ep);
    RoundTripSameUse(opts, w.pool, id, ep, slow, now);
    hide Accounted, Reattribute, IdleOk, Attributed, SetBroken, RoundTrip;
    var t := Reattribute(SetBroken(w.pool, id, false), id, ep);
    var s := RoundTrip(opts, w.pool, id, ep, slow, now);
    SameUseInv(t.members, s.members, t.links, w.removed);
    SameIdleOk(opts, t, s);
  }

  lemma SameIdleOk(opts: Options, s: Pool, t: Pool)
    requires IdleOk(opts, s) && t == s.(members := t.members)
    ensures IdleOk(opts, t)
  {}

  lemma ProbedInv(opts: Options, w: World, ep: Ep, ok: bool, id: ConnId, now: nat)
    requires Inv(opts, w) && id !in w.pool.links
    ensures var s := Probed(opts, w.pool, ep, ok, id, now);
            IdleOk(opts, s) && s.members.Keys == w.pool.members.Keys && Attributed(s.links, Ever(w))
            && Accounted(s.members, s.links, w.removed)
  {
    hide BackoffFor, Accounted;
    var s := Probed(opts, w.pool, ep, ok, id, now);
    assert SameUse(w.pool.members, s.members);
    if ep in w.pool.members {
      DialInv(opts, w, id, ep);
    }
    SameUseInv(w.pool.members, s.members, s.links, w.removed);
  }

  lemma FoldInv(opts: Options, w: World, dialed: Ep, rows: seq<Row>)
    requires Inv(opts, w)
    ensures var members := Folded(w.pool.members, dialed, rows);
            var removed := w.removed + RemovedBy(w.pool.members, dialed, rows);
            Accounted(members, w.pool.links, removed) && Ever(w) <= members.Keys + removed
  {
    hide Folded, NameDialed, Index0, Deduped, LocalName;
    var members := Folded(w.pool.members, dialed, rows);
    var gone := RemovedBy(w.pool.members, dialed, rows);
    assert w.pool.members.Keys <= members.Keys + gone;
    forall ep | ep in members ensures AccountedAt(members, w.pool.links, w.removed + gone, ep) {
      FoldKeepsAccounts(w.pool.members, dialed, rows, ep);
      hide RemovedBy;
      if ep in w.pool.members && ep !in gone {
        assert AccountedAt(w.pool.members, w.pool.links, w.removed, ep);
      } else if ep !in w.pool.members && ep !in w.removed {
        assert OutAt(w.pool.links, ep) == {};
      }
    }
  }

  lemma CloseInv(opts: Options, w: World)
    requires Inv(opts, w)
    ensures var s := Close(w.pool);
            IdleOk(opts, s) && Attributed(s.links, Ever(w)) && Accounted(s.members, s.links, w.removed)
  {
    hide OutAt;
    var ids := set i | 0 <= i < |w.pool.idle| :: w.pool.idle[i];
    forall ep ensures OutAt(w.pool.links - ids, ep) == OutAt(w.pool.links, ep) {
      CountDropIdle(w.pool.links, ids, ep);
    }
    forall ep | ep in w.pool.members ensures AccountedAt(w.pool.members, Close(w.pool).links, w.removed, ep) {
      assert AccountedAt(w.pool.members, w.pool.links, w.removed, ep);
    }
  }

  lemma TickSameUse(s: Pool, now: nat)
    ensures var t := Tick(s, now);
            SameUse(s.members, t.members) && t.links == s.links && t.idle == s.idle && t.closed == s.closed
  {}

  /** Every step keeps the accounts. */
  lemma StepInv(opts: Options, w: World, e: Event)
    requires Inv(opts, w) && Enabled(w, e)
    ensures Inv(opts, Step(opts, w, e))
  {
    hide Choose, HandOut, Checkin, DropConn, RoundTrip, Probed, Folded, RemovedBy, Tick, Failed, Wrote;
    hide Accounted, Reattribute, SetBroken, Attributed, Close;
    match e {
      case Choosing(key, now, lucky) => ChooseInv(opts, w, key, now, lucky);
      case Dialed(id, ep) => DialInv(opts, w, id, ep);
      case HandingOut(id, key) => HandOutInv(opts, w, id, key);
      case CheckingIn(id) => CheckinInv(opts, w, id);
      case Dropping(id) => GoneInv(opts, w, id);
      case Moving(id, ep) => RelinkInv(opts, w, id, false, ep);
      case RoundTripping(id, ep, slow, now) => RoundTripInv(opts, w, id, ep, slow, now);
      case Breaking(id) => BreakInv(opts, w, id);
      case Failing(ep, now) =>
        FailedSameUse(opts, w.pool, ep, now);
        SameUseInv(w.pool.members, Failed(opts, w.pool, ep, now).members, w.pool.links, w.removed);
      case Writing(key, ep, now) => WroteKeeps(opts, w.pool, key, ep, now);
      case Ticking(now) =>
        TickSameUse(w.pool, now);
        SameUseInv(w.pool.members, Tick(w.pool, now).members, w.pool.links, w.removed);
      case Probing(ep, ok, id, now) => ProbedInv(opts, w, ep, ok, id, now);
      case Folding(dialed, rows) =>
        FoldInv(opts, w, dialed, rows);
        WiderAttributed(w.pool.links, Ever(w), Ever(Step(opts, w, e)));
      case Closing =>
        CloseInv(opts, w);
        CloseKeeps(w.pool);
    }
  }

  lemma WroteKeeps(opts: Options, s: Pool, key: Key, ep: Ep, now: nat)
    ensures var t := Wrote(opts, s, key, ep, now);
            t.members == s.members && t.links == s.links && t.idle == s.idle && t.closed == s.closed
  {}

  lemma CloseKeeps(s: Pool)
    ensures Close(s).members == s.members && Close(s).closed
  {}

  lemma WiderAttributed(links: Links, a: set<Ep>, b: set<Ep>)
    requires Attributed(links, a) && a <= b
    ensures Attributed(links, b)
  {}

  /** Over every run from a fresh pool the accounts hold. */
  lemma {:induction false} RunInv(opts: Options, w: World, es: seq<Event>)
    requires Inv(opts, w) && Runs(opts, w, es)
    ensures Inv(opts, Run(opts, w, es))
    decreases |es|
  {
    hide Inv, Step;
    if es != [] {
      StepInv(opts, w, es[0]);
      RunInv(opts, Step(opts, w, es[0]), es[1..]);
    }
  }

  lemma InitialInv(opts: Options, w: World)
    requires Initial(w)
    ensures Inv(opts, w)
  {
    forall ep | ep in w.pool.members ensures AccountedAt(w.pool.members, w.pool.links, w.removed, ep) {
      assert OutAt(w.pool.links, ep) == {};
    }
  }

  /** Accounting over every run, spelled out. */
  lemma PoolAccounting(opts: Options, w: World, es: seq<Event>)
    requires Initial(w) && Runs(opts, w, es)
    ensures var s := Run(opts, w, es).pool;
            && (forall ep :: ep in s.members ==> s.members[ep].inUse <= |OutAt(s.links, ep)|)
            && (forall ep :: ep in s.members && ep !in Run(opts, w, es).removed ==>
                  s.members[ep].inUse == |OutAt(s.links, ep)|)
            && |s.idle| <= opts.maxsize
            && (forall id :: id in s.idle ==> id in s.links && !s.links[id].out && !s.links[id].broken)
            && (s.closed ==> s.idle == [])
  {
    InitialInv(opts, w);
    RunInv(opts, w, es);
    hide Run, Runs, Initial, OutAt;
    var s := Run(opts, w, es);
    forall ep | ep in s.pool.members ensures AccountedAt(s.pool.members, s.pool.links, s.removed, ep) {}
  }

  /** A closed pool stays closed, so its idle set stays empty forever. */
  lemma {:induction false} ClosedForever(opts: Options, w: World, es: seq<Event>)
    requires Inv(opts, w) && Runs(opts, w, es) && w.pool.closed
    ensures Run(opts, w, es).pool.closed && Run(opts, w, es).pool.idle == []
    decreases |es|
  {
    hide Step, IdleOk, Attributed, Accounted;
    if es != [] {
      StepInv(opts, w, es[0]);
      StaysClosed(opts, w, es[0]);
      ClosedForever(opts, Step(opts, w, es[0]), es[1..]);
    } else {
      NoIdle(opts, w.pool);
    }
  }

  lemma NoIdle(opts: Options, s: Pool)
    requires IdleOk(opts, s) && s.closed
    ensures s.idle == []
  {}

  lemma StaysClosed(opts: Options, w: World, e: Event)
    requires Enabled(w, e) && w.pool.closed
    ensures Step(opts, w, e).pool.closed
  {
    hide BackoffFor, Folded, Eject, Bump, Unbump;
  }
}
