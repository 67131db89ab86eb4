/** Which connection a checkout gets: the idle scan, and whose turn it is. */
module PoolChoice {
  import opened Bytes
  import opened SortedNames
  import opened PoolMembers
  import opened Discovery
  import opened Pool
  import opened Arithmetic
  import opened Sequences

  // ---- the idle scan ----

  ghost predicate Increasing(at: seq<nat>) {
    forall i, j :: 0 <= i < j < |at| ==> at[i] < at[j]
  }

  /** `kept` is `idle` at the increasing indices `at`, which are all those outside `gone`. */
  ghost predicate KeptAt(idle: seq<ConnId>, gone: set<nat>, at: seq<nat>, kept: seq<ConnId>) {
    && Increasing(at) && |at| == |kept|
    && (forall k :: 0 <= k < |at| ==> at[k] < |idle| && at[k] !in gone && kept[k] == idle[at[k]])
    && (forall i :: 0 <= i < |idle| && i !in gone ==> i in at)
  }

  lemma KeptGone(idle: seq<ConnId>, gone: set<nat>, at: seq<nat>, kept: seq<ConnId>, x: ConnId)
    requires KeptAt(idle, gone, at, kept) && |idle| in gone
    ensures KeptAt(idle + [x], gone, at, kept)
  {}

  lemma KeptStay(idle: seq<ConnId>, gone: set<nat>, at: seq<nat>, kept: seq<ConnId>, x: ConnId)
    requires KeptAt(idle, gone, at, kept) && |idle| !in gone
    ensures KeptAt(idle + [x], gone, at + [|idle|], kept + [x])
  {
    var n := |idle|;
    forall i | 0 <= i < n + 1 && i !in gone ensures i in at + [n] {
      if i < n { assert i in at; } else { assert (at + [n])[|at|] == n; }
    }
  }

  /** What is kept is exactly what is not gone, in its old order. */
  lemma {:induction false} WithoutInOrder(idle: seq<ConnId>, gone: set<nat>) returns (at: seq<nat>)
    ensures KeptAt(idle, gone, at, Without(idle, gone))
  {
    if idle == [] {
      at := [];
    } else {
      var n := |idle| - 1;
      at := WithoutInOrder(idle[..n], gone);
      assert idle[..n] + [idle[n]] == idle;
      hide KeptAt;
      if n in gone {
        KeptGone(idle[..n], gone, at, Without(idle[..n], gone), idle[n]);
      } else {
        KeptStay(idle[..n], gone, at, Without(idle[..n], gone), idle[n]);
        at := at + [n];
      }
    }
  }

  /** A take keeps, in order, every idle connection it neither picks nor drops. */
  lemma TakeIdleSplits(opts: Options, s: Pool, target: Option<Ep>) returns (at: seq<nat>)
    requires NoDup(s.idle)
    ensures Increasing(at)
    ensures var t := TakeIdle(opts, s, target);
            && |at| == |t.pool.idle|
            && (forall k :: 0 <= k < |at| ==> at[k] < |s.idle| && t.pool.idle[k] == s.idle[at[k]])
            && (forall i :: 0 <= i < |s.idle| ==>
                  (i in at <==> !(s.idle[i] in t.dropped) && t.picked != Some(s.idle[i])))
  {
    hide Without, FindHit, StaleBefore, Increasing, ConnUsable, Hit;
    var n := |s.idle|;
    var k := FindHit(opts.fifo, s, target, 0);
    var stale := StaleBefore(opts.fifo, s, if k.Some? then k.value else n);
    var found := if k.Some? then {ScanAt(opts.fifo, n, k.value)} else {};
    at := WithoutInOrder(s.idle, stale + found);
    var t := TakeIdle(opts, s, target);
    forall i | 0 <= i < n ensures s.idle[i] in t.dropped <==> i in stale { AtExact(s.idle, stale, i); }
    hide At;
    forall i | 0 <= i < n ensures i in at <==> !(s.idle[i] in t.dropped) && t.picked != Some(s.idle[i]) {
      assert t.picked == Some(s.idle[i]) <==> i in found;
    }
  }

  lemma AtExact(idle: seq<ConnId>, gone: set<nat>, i: nat)
    requires i < |idle| && NoDup(idle)
    ensures idle[i] in At(idle, gone) <==> i in gone
  {}

  /** The pick is the first match in scan order; without one there is no match at all. */
  lemma TakeIdleFirst(opts: Options, s: Pool, target: Option<Ep>)
    ensures var t, n := TakeIdle(opts, s, target), |s.idle|;
            match t.picked
            case None => forall i :: 0 <= i < n ==> !Hit(s, target, s.idle[i])
            case Some(id) =>
              exists k :: 0 <= k < n && s.idle[ScanAt(opts.fifo, n, k)] == id && Hit(s, target, id)
                && forall j :: 0 <= j < k ==> !Hit(s, target, s.idle[ScanAt(opts.fifo, n, j)])
  {
    hide Without, FindHit, StaleBefore, Hit, At;
    var n, k := |s.idle|, FindHit(opts.fifo, s, target, 0);
    if k.None? {
      forall i | 0 <= i < n ensures !Hit(s, target, s.idle[i]) {
        assert ScanAt(opts.fifo, n, ScanAt(opts.fifo, n, i)) == i;
      }
    }
  }

  /** Only connections to members out of rotation are dropped. */
  lemma TakeIdleDropsUnusable(opts: Options, s: Pool, target: Option<Ep>, id: ConnId)
    requires id in TakeIdle(opts, s, target).dropped
    ensures id in s.idle && !ConnUsable(s, id)
  {
    hide Without, FindHit, ConnUsable;
  }

  /** When nothing is picked, no connection to such a member stays idle. */
  lemma TakeIdleSweeps(opts: Options, s: Pool, target: Option<Ep>, id: ConnId)
    requires TakeIdle(opts, s, target).picked.None? && id in TakeIdle(opts, s, target).pool.idle
    ensures ConnUsable(s, id)
  {
    var n := |s.idle|;
    var stale := StaleBefore(opts.fifo, s, n);
    var at := WithoutInOrder(s.idle, stale);
    assert stale + {} == stale;
    hide Without, FindHit, ConnUsable;
    var k :| 0 <= k < |at| && TakeIdle(opts, s, target).pool.idle[k] == id;
    assert at[k] !in stale && s.idle[at[k]] == id;
  }

  // ---- which member ----

  /**
    Without a pin that decides, the random policy names no member, and the others name a usable one exactly when
    there is one.
   */
  lemma PickTargets(opts: Options, s: Pool, key: Key, now: nat, lucky: nat)
    requires PickPinned(opts, s, key, now).target == None
    ensures var t := Pick(opts, s, key, now, lucky).target;
            && (t.Some? ==> t.value in s.members && s.members[t.value].Usable())
            && (t.Some? <==> opts.policy != Random && SomeUsable(s.members))
  {
    hide PickPinned, NextRr;
    var c := PickPinned(opts, s, key, now);
    PinKeepsMembers(opts, s, key, now);
    if UsableList(s.members) != [] {
      assert UsableList(s.members)[0] in UsableList(s.members);
    }
    hide UsableList;
    forall i | 0 <= i < |UsableList(s.members)| ensures UsableList(s.members)[i] in UsableList(s.members) {}
  }

  lemma PinKeepsMembers(opts: Options, s: Pool, key: Key, now: nat)
    ensures PickPinned(opts, s, key, now).pool.members == s.members
  {}

  // ---- round robin ----

  /** A checkout that takes a turn: no pin decides it and some member is usable. */
  ghost predicate Turn(opts: Options, s: Pool, e: Event) {
    e.Choosing? && !s.closed && PickPinned(opts, s, e.key, e.now).target.None? && UsableList(s.members) != []
  }

  /** The members the turns of a run go to. */
  ghost function Targets(opts: Options, w: World, es: seq<Event>): seq<Ep>
    requires Runs(opts, w, es) && opts.policy == RoundRobin
    decreases |es|
  {
    if es == [] then []
    else
      (if Turn(opts, w.pool, es[0]) then [PickTurn(opts, w.pool, es[0])] else [])
      + Targets(opts, Step(opts, w, es[0]), es[1..])
  }

  ghost function PickTurn(opts: Options, s: Pool, e: Event): Ep
    requires Turn(opts, s, e) && opts.policy == RoundRobin
  {
    Pick(opts, s, e.key, e.now, e.lucky).target.value
  }

  /** The usable members are `u` whenever a turn is taken. */
  ghost predicate Steady(opts: Options, w: World, es: seq<Event>, u: seq<Ep>)
    requires Runs(opts, w, es)
    decreases |es|
  {
    es == [] || ((Turn(opts, w.pool, es[0]) ==> UsableList(w.pool.members) == u)
                 && Steady(opts, Step(opts, w, es[0]), es[1..], u))
  }

  lemma TurnAdvances(opts: Options, s: Pool, e: Event)
    requires Turn(opts, s, e) && opts.policy == RoundRobin
    ensures var u := UsableList(s.members);
            PickTurn(opts, s, e) == u[NextRr(s.rr, |u|)]
            && Pick(opts, s, e.key, e.now, e.lucky).pool.rr == NextRr(s.rr, |u|)
  {
    hide UsableList, NextRr;
  }

  lemma NoTurn(opts: Options, s: Pool, e: Event)
    requires e.Choosing? && !s.closed && !Turn(opts, s, e) && opts.policy == RoundRobin
    ensures Pick(opts, s, e.key, e.now, e.lucky).pool.rr == s.rr
  {
    hide UsableList, NextRr;
  }

  lemma TakeIdleRr(opts: Options, s: Pool, target: Option<Ep>)
    ensures TakeIdle(opts, s, target).pool.rr == s.rr
  {
    hide FindHit, StaleBefore, Without, At;
  }

  lemma RoundTripRr(opts: Options, s: Pool, id: ConnId, ep: Ep, slow: bool, now: nat)
    requires id in s.links
    ensures RoundTrip(opts, s, id, ep, slow, now).rr == s.rr
  {
    hide Bump, Unbump, Eject;
  }

  lemma ProbedRr(opts: Options, s: Pool, ep: Ep, ok: bool, id: ConnId, now: nat)
    ensures Probed(opts, s, ep, ok, id, now).rr == s.rr
  {
    hide BackoffFor;
  }

  lemma StepRr(opts: Options, w: World, e: Event)
    requires Enabled(w, e) && opts.policy == RoundRobin
    ensures Step(opts, w, e).pool.rr ==
              if Turn(opts, w.pool, e) then NextRr(w.pool.rr, |UsableList(w.pool.members)|) else w.pool.rr
  {
    hide Bump, Unbump, Eject, Folded, BackoffFor, RoundTrip, Probed, Pick, TakeIdle, UsableList, NextRr, RemovedBy;
    match e {
      case Choosing(key, now, lucky) =>
        if !w.pool.closed {
          var c := Pick(opts, w.pool, key, now, lucky);
          TakeIdleRr(opts, c.pool, c.target);
          if Turn(opts, w.pool, e) { TurnAdvances(opts, w.pool, e); } else { NoTurn(opts, w.pool, e); }
        }
      case RoundTripping(id, ep, slow, now) => RoundTripRr(opts, w.pool, id, ep, slow, now);
      case Probing(ep, ok, id, now) => ProbedRr(opts, w.pool, ep, ok, id, now);
      case _ =>
    }
  }

  lemma ModAdd(a: nat, b: nat, n: nat)
    requires n > 0
    ensures (a % n + b) % n == (a + b) % n
  {
    var c: nat := a % n + b;
    Distribute(a / n, -(c / n), n);
    var r: nat := c % n;
    DivModUnique(a + b, a / n + c / n, r, n);
  }

  /** From any starting position, turn `i` of a steady run goes to the `i`-th next usable member, cyclically. */
  lemma {:induction false} TurnsInOrder(opts: Options, w: World, es: seq<Event>, u: seq<Ep>, i: nat)
    requires Runs(opts, w, es) && opts.policy == RoundRobin && Steady(opts, w, es, u)
    requires i < |Targets(opts, w, es)| && 0 < |u| <= USIZE_MAX
    ensures Targets(opts, w, es)[i] == u[(NextRr(w.pool.rr, |u|) + i) % |u|]
    decreases |es|
  {
    hide Step, Turn, PickTurn, NextRr, UsableList;
    var v := Step(opts, w, es[0]);
    StepRr(opts, w, es[0]);
    if Turn(opts, w.pool, es[0]) {
      TurnAdvances(opts, w.pool, es[0]);
      FirstSmall(NextRr(w.pool.rr, |u|), |u|);
      if i > 0 {
        TurnsInOrder(opts, v, es[1..], u, i - 1);
        NextTwice(w.pool.rr, |u|, i);
      }
    } else {
      TurnsInOrder(opts, v, es[1..], u, i);
    }
  }

  lemma FirstSmall(r: nat, n: nat)
    requires r < n
    ensures (r + 0) % n == r
  {}

  lemma NextTwice(rr: nat, n: nat, i: nat)
    requires 0 < n <= USIZE_MAX && i > 0
    ensures (NextRr(NextRr(rr, n), n) + (i - 1)) % n == (NextRr(rr, n) + i) % n
  {
    ModAdd(NextRr(rr, n) + 1, i - 1, n);
  }

  /** A fresh pool's turns start with the first usable member. */
  lemma FreshTurns(opts: Options, w: World, es: seq<Event>, u: seq<Ep>, i: nat)
    requires Initial(w) && Runs(opts, w, es) && opts.policy == RoundRobin && Steady(opts, w, es, u)
    requires i < |Targets(opts, w, es)| && 0 < |u| <= USIZE_MAX
    ensures Targets(opts, w, es)[i] == u[i % |u|]
  {
    hide Targets, Runs, Steady;
    assert w.pool.rr == USIZE_MAX && NextRr(USIZE_MAX, |u|) == 0;
    TurnsInOrder(opts, w, es, u, i);
  }

  lemma ModDistinct(a: nat, b: nat, n: nat)
    requires n > 0 && a < b < a + n
    ensures a % n != b % n
  {
    var d := b / n - a / n;
    Distribute(b / n, a / n, n);
    MulAtLeast(d, n);
  }

  lemma {:induction false} FilteredAscending(order: seq<Ep>, members: Members)
    requires Ascending(order)
    ensures Ascending(Filtered(order, members))
    decreases |order|
  {
    if order != [] {
      var n := |order| - 1;
      FilteredAscending(order[..n], members);
      var r := Filtered(order[..n], members);
      forall k | 0 <= k < |r| ensures Cmp(r[k], order[n]) == Less {
        assert r[k] in order[..n];
        var p :| 0 <= p < n && order[..n][p] == r[k];
        assert order[p] == r[k];
      }
    }
  }

  /** Any |u| consecutive turns with the usable members `u` go to different members. */
  lemma RoundRobinFair(opts: Options, w: World, es: seq<Event>, i: nat, j: nat, members: Members)
    requires Runs(opts, w, es) && opts.policy == RoundRobin && Steady(opts, w, es, UsableList(members))
    requires 0 < |UsableList(members)| <= USIZE_MAX
    requires i < j < |Targets(opts, w, es)| && j < i + |UsableList(members)|
    ensures Targets(opts, w, es)[i] != Targets(opts, w, es)[j]
  {
    hide UsableList, Targets, Steady, Runs, NextRr;
    var u := UsableList(members);
    TurnsInOrder(opts, w, es, u, i);
    TurnsInOrder(opts, w, es, u, j);
    var r := NextRr(w.pool.rr, |u|);
    ModDistinct(r + i, r + j, |u|);
    UsableDistinct(members, (r + i) % |u|, (r + j) % |u|);
  }

  lemma UsableDistinct(members: Members, a: nat, b: nat)
    requires a < |UsableList(members)| && b < |UsableList(members)| && a != b
    ensures UsableList(members)[a] != UsableList(members)[b]
  {
    var u := UsableList(members);
    FilteredAscending(SortedKeys(members.Keys), members);
    if a < b { CmpEqual(u[a], u[b]); } else { CmpEqual(u[b], u[a]); }
  }
}
