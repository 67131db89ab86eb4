/** The balanced pool as the driver keeps it: fields changed in place, one method per critical section. */
module Balancer {
  import opened Bytes
  import opened SortedNames
  import opened PoolMembers
  import opened Discovery
  import opened P = Pool
  import DialOrder
  import PoolAccounts

  /** Whether some member other than `ep` is usable. */
  method AnyOtherUsable(members: Members, ep: Ep) returns (found: bool)
    ensures found <==> OtherUsable(members, ep)
  {
    hide Ascending;
    var order := KeysInOrder(members.Keys);
    for i := 0 to |order|
      invariant forall k :: 0 <= k < i ==> order[k] in members && (order[k] == ep || !members[order[k]].Usable())
    {
      var o := order[i];
      assert o in order;
      if o != ep && members[o].Usable() { return true; }
    }
    return false;
  }

  lemma FilteredNext(order: seq<Ep>, i: nat, members: Members)
    requires i < |order| && order[i] in members
    ensures Filtered(order[..i + 1], members)
         == Filtered(order[..i], members) + (if members[order[i]].Usable() then [order[i]] else [])
  {
    assert order[..i + 1][..i] == order[..i] && order[..i + 1][i] == order[i];
  }

  /** The usable members in endpoint order. */
  method CollectUsable(members: Members) returns (usable: seq<Ep>)
    ensures usable == UsableList(members)
  {
    hide Ascending, Filtered;
    var order := KeysInOrder(members.Keys);
    assert forall k :: 0 <= k < |order| ==> order[k] in members;
    usable := Collected(order, members);
  }

  method Collected(order: seq<Ep>, members: Members) returns (usable: seq<Ep>)
    requires forall k :: 0 <= k < |order| ==> order[k] in members
    ensures usable == Filtered(order, members)
  {
    usable := [];
    assert Filtered(order[..0], members) == [];
    hide Filtered;
    for i := 0 to |order|
      invariant usable == Filtered(order[..i], members)
    {
      FilteredNext(order, i, members);
      if members[order[i]].Usable() { usable := usable + [order[i]]; }
    }
    assert order[..|order|] == order;
  }

  // ---- the idle scan ----

  lemma FindHitIs(fifo: bool, s: Pool, target: Option<Ep>, k: nat)
    requires k <= |s.idle|
    requires forall j :: 0 <= j < k ==> !Hit(s, target, s.idle[ScanAt(fifo, |s.idle|, j)])
    requires k < |s.idle| ==> Hit(s, target, s.idle[ScanAt(fifo, |s.idle|, k)])
    ensures FindHit(fifo, s, target, 0) == if k < |s.idle| then Some(k) else None
  {
    hide FindHit, Hit;
    var r := FindHit(fifo, s, target, 0);
  }

  lemma StaleNext(fifo: bool, s: Pool, k: nat)
    requires k < |s.idle|
    ensures var i := ScanAt(fifo, |s.idle|, k);
            StaleBefore(fifo, s, k + 1) == StaleBefore(fifo, s, k) + (if ConnUsable(s, s.idle[i]) then {} else {i})
  {
    hide ConnUsable;
  }

  /** The first match in scan order, and the indices of unusable connections met on the way. */
  method Scan(fifo: bool, s: Pool, target: Option<Ep>) returns (found: Option<nat>, stale: set<nat>)
    ensures var k, n := FindHit(fifo, s, target, 0), |s.idle|;
            found == (if k.Some? then Some(ScanAt(fifo, n, k.value)) else None)
            && stale == StaleBefore(fifo, s, if k.Some? then k.value else n)
  {
    hide FindHit, StaleBefore, ConnUsable;
    var n := |s.idle|;
    found, stale := None, {};
    StaleNone(fifo, s);
    for k := 0 to n
      invariant forall j :: 0 <= j < k ==> !Hit(s, target, s.idle[ScanAt(fifo, n, j)])
      invariant found.None? && stale == StaleBefore(fifo, s, k)
    {
      var i := ScanAt(fifo, n, k);
      StaleNext(fifo, s, k);
      if ConnUsable(s, s.idle[i]) {
        UsableLinked(s, s.idle[i]);
        if target.None? || target.value == s.links[s.idle[i]].member {
          found := Some(i);
          FindHitIs(fifo, s, target, k);
          return;
        }
      } else {
        stale := stale + {i};
      }
    }
    FindHitIs(fifo, s, target, n);
  }

  lemma StaleNone(fifo: bool, s: Pool)
    ensures StaleBefore(fifo, s, 0) == {}
  {}

  lemma UsableLinked(s: Pool, id: ConnId)
    requires ConnUsable(s, id)
    ensures id in s.links
  {}

  lemma {:induction false} WithoutNothing(idle: seq<ConnId>, gone: set<nat>)
    requires forall i :: 0 <= i < |idle| ==> i !in gone
    ensures Without(idle, gone) == idle
  {
    if idle != [] {
      WithoutNothing(idle[..|idle| - 1], gone);
      assert idle == idle[..|idle| - 1] + [idle[|idle| - 1]];
    }
  }

  lemma {:induction false} WithoutOne(idle: seq<ConnId>, i: nat)
    requires i < |idle|
    ensures Without(idle, {i}) == idle[..i] + idle[i + 1..]
  {
    var n := |idle| - 1;
    if i == n {
      WithoutNothing(idle[..n], {i});
    } else {
      WithoutOne(idle[..n], i);
      assert idle[..n][..i] == idle[..i];
      assert idle[i + 1..] == idle[..n][i + 1..] + [idle[n]];
      Assoc(idle[..i], idle[..n][i + 1..], [idle[n]]);
    }
  }

  lemma AtNext(idle: seq<ConnId>, gone: set<nat>, i: nat)
    requires i < |idle|
    ensures At(idle[..i + 1], gone) == At(idle[..i], gone) + (if i in gone then {idle[i]} else {})
  {
    assert forall j :: 0 <= j < i ==> idle[..i][j] == idle[..i + 1][j];
    assert idle[..i + 1][i] == idle[i];
  }

  /** Rebuilds the idle list without the pick and the stale connections. */
  method Rebuild(idle: seq<ConnId>, found: Option<nat>, stale: set<nat>)
    returns (picked: Option<ConnId>, dropped: set<ConnId>, kept: seq<ConnId>)
    requires found.Some? ==> found.value < |idle| && found.value !in stale
    ensures kept == Without(idle, stale + (if found.Some? then {found.value} else {}))
    ensures dropped == At(idle, stale)
    ensures picked == if found.Some? then Some(idle[found.value]) else None
  {
    picked, dropped, kept := None, {}, [];
    ghost var gone := stale + (if found.Some? then {found.value} else {});
    for i := 0 to |idle|
      invariant kept == Without(idle[..i], gone)
      invariant dropped == At(idle[..i], stale)
      invariant picked == if found.Some? && found.value < i then Some(idle[found.value]) else None
    {
      AtNext(idle, stale, i);
      assert idle[..i + 1][..i] == idle[..i];
      if found == Some(i) {
        picked := Some(idle[i]);
      } else if i in stale {
        dropped := dropped + {idle[i]};
      } else {
        kept := kept + [idle[i]];
      }
    }
    assert idle[..|idle|] == idle;
  }

  lemma AtNothing(idle: seq<ConnId>)
    ensures At(idle, {}) == {}
  {}

  /** `order[..i]` has been visited. */
  ghost predicate MarkedUpTo(was: Members, now: nat, order: seq<Ep>, i: nat, r: Members, due: seq<Ep>)
    requires i <= |order|
  {
    && r.Keys == was.Keys
    && (forall ep :: ep in r ==> r[ep] == Marked(was[ep], ep in order[..i] && Due(was[ep], now)))
    && (forall ep :: ep in due <==> ep in was && ep in order[..i] && Due(was[ep], now))
  }

  lemma MarkedNext(was: Members, now: nat, order: seq<Ep>, i: nat, r: Members, due: seq<Ep>)
    requires i < |order| && Ascending(order) && order[i] in was && MarkedUpTo(was, now, order, i, r, due)
    ensures order[i] in r && r[order[i]] == was[order[i]]
    ensures if Due(was[order[i]], now)
            then MarkedUpTo(was, now, order, i + 1, r[order[i] := r[order[i]].(probing := true)], due + [order[i]])
            else MarkedUpTo(was, now, order, i + 1, r, due)
  {
    NotEarlier(order, i);
    hide Due, Ascending;
    assert order[..i + 1] == order[..i] + [order[i]];
  }

  /** Marks the members due for a probe, in endpoint order. */
  method MarkDue(members: Members, now: nat) returns (r: Members, due: seq<Ep>)
    ensures r == map ep | ep in members :: if Due(members[ep], now) then members[ep].(probing := true) else members[ep]
    ensures forall ep :: ep in due <==> ep in DueMembers(members, now)
  {
    hide MarkedUpTo, Due, DueMembers;
    var order := KeysInOrder(members.Keys);
    r, due := members, [];
    MarkedNone(members, now, order);
    for i := 0 to |order|
      invariant MarkedUpTo(members, now, order, i, r, due)
    {
      var ep := order[i];
      assert ep in order;
      MarkedNext(members, now, order, i, r, due);
      if Due(r[ep], now) {
        r := r[ep := r[ep].(probing := true)];
        due := due + [ep];
      }
    }
    MarkedAll(members, now, order, r, due);
  }

  lemma MarkedNone(was: Members, now: nat, order: seq<Ep>)
    ensures MarkedUpTo(was, now, order, 0, was, [])
  {}

  lemma MarkedAll(was: Members, now: nat, order: seq<Ep>, r: Members, due: seq<Ep>)
    requires MarkedUpTo(was, now, order, |order|, r, due) && forall ep :: ep in order <==> ep in was
    ensures r == map ep | ep in was :: if Due(was[ep], now) then was[ep].(probing := true) else was[ep]
    ensures forall ep :: ep in due <==> ep in DueMembers(was, now)
  {
    hide Due;
    assert order[..|order|] == order;
  }

  class Balancer {
    const opts: Options
    var members: Members
    var idle: seq<ConnId>
    var rr: nat
    var affinity: map<Key, Pin>
    var closed: bool
    /** The links of the live connections, idle or in a caller's hands. */
    var links: map<ConnId, Link>

    ghost function State(): Pool
      reads this
    {
      Pool(members, idle, rr, affinity, closed, links)
    }

    constructor (opts: Options, seeds: set<Ep>)
      ensures this.opts == opts
      ensures members == map ep | ep in seeds :: NewMember(true)
      ensures seeds != {} ==> Initial(World(State(), {}, {}, 0))
    {
      this.opts := opts;
      members := map ep | ep in seeds :: NewMember(true);
      idle, rr, affinity, closed, links := [], USIZE_MAX, map[], false, map[];
      new;
      if seeds != {} {
        ghost var ep :| ep in seeds;
        assert ep in members;
      }
    }

    // -- checkout and return --

    /** A live pin to a usable member decides; a dead one is forgotten. */
    method PickPinned(key: Key, now: nat) returns (target: Option<Ep>)
      modifies this
      ensures Choice(State(), target) == P.PickPinned(opts, old(State()), key, now)
    {
      if opts.window != 0 && key in affinity {
        var pin := affinity[key];
        if pin.ep in members && now < pin.until {
          if members[pin.ep].Usable() { return Some(pin.ep); }
        } else {
          affinity := affinity - {key};
        }
      }
      return None;
    }

    method Pick(key: Key, now: nat, lucky: nat) returns (target: Option<Ep>)
      modifies this
      ensures Choice(State(), target) == P.Pick(opts, old(State()), key, now, lucky)
    {
      hide P.PickPinned, UsableList, NextRr;
      target := PickPinned(key, now);
      if target.Some? || opts.policy == Random { return; }
      var usable := CollectUsable(members);
      if usable == [] { return None; }
      if opts.policy == RoundRobin {
        rr := NextRr(rr, |usable|);
        return Some(usable[rr]);
      }
      return Some(usable[lucky % |usable|]);
    }

    method TakeIdle(target: Option<Ep>) returns (picked: Option<ConnId>, dropped: set<ConnId>)
      modifies this
      ensures Taken(State(), picked, dropped) == P.TakeIdle(opts, old(State()), target)
    {
      ghost var s := State();
      var found, stale := Scan(opts.fifo, P.Pool(members, idle, rr, affinity, closed, links), target);
      hide FindHit, StaleBefore, Without, At;
      ghost var gone := stale + (if found.Some? then {found.value} else {});
      if stale == {} {
        AtNothing(idle);
        picked, dropped := None, {};
        if found.Some? {
          WithoutOne(idle, found.value);
          assert gone == {found.value};
          picked := Some(idle[found.value]);
          idle := idle[..found.value] + idle[found.value + 1..];
        } else {
          WithoutNothing(idle, gone);
        }
        assert links - {} == links;
      } else {
        ghost var k := FindHit(opts.fifo, s, target, 0);
        if k.Some? { PoolAccounts.HitNotStale(opts, s, target, k.value); }
        var kept;
        picked, dropped, kept := Rebuild(idle, found, stale);
        idle, links := kept, links - dropped;
      }
    }

    /** The first critical section of a checkout. */
    method Choose(key: Key, now: nat, lucky: nat, draw: nat -> nat)
      returns (open: bool, picked: Option<ConnId>, order: seq<Ep>)
      modifies this
      ensures open == !old(closed)
      ensures var t := P.Choose(opts, old(State()), key, now, lucky);
              State() == t.pool && picked == t.picked
      ensures open && picked.None? ==>
                DialOrder.IsDialOrder(members, P.Pick(opts, old(State()), key, now, lucky).target, None, order)
    {
      picked, order := None, [];
      open := !closed;
      if open {
        var target := Pick(key, now, lucky);
        PickIsMember(opts, old(State()), key, now, lucky);
        hide P.Pick, P.TakeIdle;
        ghost var s := State();
        PoolAccounts.TakeIdleDrops(opts, s, target);
        var dropped;
        picked, dropped := TakeIdle(target);
        if picked.None? { order := DialOrder.Order(members, target, None, draw); }
      }
    }

    method HandOut(id: ConnId, key: Key)
      requires id in links
      modifies this
      ensures State() == P.HandOut(old(State()), id, key)
    {
      var l := links[id];
      if l.member in members {
        members := members[l.member := members[l.member].(inUse := members[l.member].inUse + 1)];
      }
      links := links[id := l.(out := true, affinity := key)];
    }

    method Checkin(id: ConnId)
      requires id in links
      modifies this
      ensures State() == P.Checkin(opts, old(State()), id)
    {
      var l := links[id];
      var usable := false;
      if l.member in members {
        if l.out { members := Unbump(members, l.member); }
        usable := members[l.member].Usable();
      }
      if !closed && !l.broken && usable && |idle| < opts.maxsize {
        idle := idle + [id];
        links := links[id := l.(out := false)];
      } else {
        links := links - {id};
      }
    }

    method DropConn(id: ConnId)
      requires id in links
      modifies this
      ensures State() == P.DropConn(old(State()), id)
    {
      if links[id].out && links[id].member in members {
        members := Unbump(members, links[id].member);
      }
      links := links - {id};
    }

    method Close()
      modifies this
      ensures State() == P.Close(old(State()))
    {
      closed := true;
      links := links - (set i | 0 <= i < |idle| :: idle[i]);
      idle := [];
    }

    // -- what connections report --

    method Reattribute(id: ConnId, ep: Ep)
      requires id in links
      modifies this
      ensures State() == P.Reattribute(old(State()), id, ep)
    {
      var l := links[id];
      if l.member == ep { return; }
      if l.out {
        if l.member in members { members := Unbump(members, l.member); }
        if ep in members { members := Bump(members, ep); }
      }
      links := links[id := l.(member := ep)];
    }

    method Eject(ep: Ep, now: nat)
      modifies this
      ensures State() == old(State()).(members := P.Eject(opts, old(members), ep, now))
    {
      var other := AnyOtherUsable(members, ep);
      if !other || ep !in members { return; }
      var m := members[ep];
      if m.readmittedAt.None? || now - m.readmittedAt.value > opts.backoffMax {
        m := m.(ejections := 0);
      }
      m := m.(ejections := SaturatingInc(m.ejections));
      m := m.(ejectedUntil := Some(now + BackoffFor(opts.backoff, opts.backoffMax, m.ejections)));
      members := members[ep := m];
    }

    method RoundTrip(id: ConnId, ep: Ep, slow: bool, now: nat)
      requires id in links
      modifies this
      ensures State() == P.RoundTrip(opts, old(State()), id, ep, slow, now)
    {
      links := links[id := links[id].(broken := false)];
      Reattribute(id, ep);
      if ep !in members { return; }
      members := members[ep := members[ep].(errors := 0)];
      if slow && members[ep].Usable() { Eject(ep, now); }
    }

    method Failed(ep: Ep, now: nat)
      modifies this
      ensures State() == P.Failed(opts, old(State()), ep, now)
    {
      if ep !in members { return; }
      members := members[ep := members[ep].(errors := SaturatingInc(members[ep].errors))];
      if members[ep].errors >= opts.ejectErrors && members[ep].ejectedUntil.None? { Eject(ep, now); }
    }

    method Wrote(key: Key, ep: Ep, now: nat)
      modifies this
      ensures State() == P.Wrote(opts, old(State()), key, ep, now)
    {
      if |affinity| >= AFFINITY_CAP {
        affinity := map k | k in affinity && affinity[k].until > now :: affinity[k];
      }
      affinity := affinity[key := Pin(ep, now + opts.window)];
    }

    // -- re-admission and discovery --

    method Tick(now: nat) returns (due: seq<Ep>)
      modifies this
      ensures State() == P.Tick(old(State()), now)
      ensures forall ep :: ep in due <==> !closed && ep in DueMembers(old(members), now)
    {
      due := [];
      if closed { return; }
      members, due := MarkDue(members, now);
    }

    method Probed(ep: Ep, ok: bool, id: ConnId, now: nat)
      modifies this
      ensures State() == P.Probed(opts, old(State()), ep, ok, id, now)
    {
      var room := |idle| < opts.maxsize;
      if ep !in members { return; }
      var m := members[ep].(probing := false);
      if ok && !closed {
        m := m.(ejectedUntil := None, errors := 0, readmittedAt := Some(now));
        members := members[ep := m];
        if room {
          links := links[id := Link(ep, false, None, false)];
          idle := idle + [id];
        }
      } else {
        m := m.(ejections := SaturatingInc(m.ejections));
        m := m.(ejectedUntil := Some(now + BackoffFor(opts.backoff, opts.backoffMax, m.ejections)));
        members := members[ep := m];
      }
    }

    method FoldListing(dialed: Ep, rows: seq<Row>)
      modifies this
      ensures State() == old(State()).(members := Folded(old(members), dialed, rows))
    {
      members := ApplyListing(members, dialed, rows);
    }
  }

  function Marked(m: Member, due: bool): Member {
    if due then m.(probing := true) else m
  }

  lemma NotEarlier(order: seq<Ep>, i: nat)
    requires Ascending(order) && i < |order|
    ensures order[i] !in order[..i]
  {
    if order[i] in order[..i] {
      var p :| 0 <= p < i && order[p] == order[i];
      CmpEqual(order[p], order[i]);
    }
  }

  lemma PickIsMember(opts: Options, s: Pool, key: Key, now: nat, lucky: nat)
    ensures var c := P.Pick(opts, s, key, now, lucky);
            c.pool.members == s.members && (c.target.Some? ==> c.target.value in s.members)
  {
    hide UsableList, NextRr;
  }
}
