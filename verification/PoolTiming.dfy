/** When things happen: probes not before their deadline, records cleared by success, pins dead after the window. */
module PoolTiming {
  import opened Bytes
  import opened Arithmetic
  import opened PoolMembers
  import opened Discovery
  import opened Pool
  import opened PoolHealth
  import opened PoolAffinity

  // ---- probes ----

  /** A tick marks a member exactly when the pool is open, the member out past its deadline, and no probe under way. */
  lemma TickMarks(s: Pool, now: nat, ep: Ep)
    requires ep in s.members
    ensures var m := s.members[ep];
            var marks := !s.closed && m.ejectedUntil.Some? && now >= m.ejectedUntil.value && !m.probing;
            ep in Tick(s, now).members && Tick(s, now).members[ep] == if marks then m.(probing := true) else m
  {}

  /** An event that sets the deadline of `ep`. */
  ghost predicate Sets(opts: Options, w: World, e: Event, ep: Ep)
    requires Enabled(w, e)
  {
    var members := Step(opts, w, e).pool.members;
    && ep in members && members[ep].ejectedUntil.Some?
    && (ep !in w.pool.members || members[ep].ejectedUntil != w.pool.members[ep].ejectedUntil)
  }

  /**
    After any event that ejects a member, over every run in which its probe does not end and no listing removes
    it, no tick before the shortest backoff has passed starts a probe of it.
   */
  lemma NoEarlyProbe(opts: Options, w: World, e: Event, es: seq<Event>, ep: Ep, t: nat)
    requires Enabled(w, e) && Sets(opts, w, e, ep)
    requires Runs(opts, Step(opts, w, e), es) && AllLeave(opts, Step(opts, w, e), es, ep)
    ensures e.RoundTripping? || e.Failing? || e.Probing?
    ensures var v := Run(opts, Step(opts, w, e), es).pool;
            ep in v.members && (t < e.now + Min(opts.backoff, opts.backoffMax) ==>
                                  Tick(v, t).members[ep] == v.members[ep])
  {
    StepDeadline(opts, w, e, ep);
    hide Step, AllLeave, Runs, Run;
    EjectionFrozen(opts, Step(opts, w, e), es, ep);
    TickMarks(Run(opts, Step(opts, w, e), es).pool, t, ep);
  }

  // ---- success clears the record ----

  lemma SameOthers(a: Members, b: Members, ep: Ep)
    requires SameElsewhere(a, b, ep)
    ensures OtherUsable(a, ep) <==> OtherUsable(b, ep)
  {
    if OtherUsable(a, ep) {
      var o :| o in a && o != ep && a[o].Usable();
      assert o in b && b[o].Usable();
    }
    if OtherUsable(b, ep) {
      var o :| o in b && o != ep && b[o].Usable();
      assert o in a && a[o].Usable();
    }
  }

  lemma EjectActs(opts: Options, members: Members, ep: Ep, now: nat)
    requires ep in members
    ensures var r := Eject(opts, members, ep, now);
            && ep in r && r[ep].errors == members[ep].errors && SameElsewhere(members, r, ep)
            && (if OtherUsable(members, ep) then r[ep].ejectedUntil.Some? else r == members)
  {
    hide BackoffFor, OtherUsable;
  }

  /** A round trip clears the error count, and ejects exactly a slow usable member that is not the last one. */
  lemma RoundTripClears(opts: Options, s: Pool, id: ConnId, ep: Ep, slow: bool, now: nat)
    requires id in s.links && ep in s.members
    ensures var m, t := s.members[ep], RoundTrip(opts, s, id, ep, slow, now);
            && ep in t.members && t.members[ep].errors == 0 && SameElsewhere(s.members, t.members, ep)
            && if slow && m.Usable() && OtherUsable(s.members, ep) then t.members[ep].ejectedUntil.Some?
               else t.members[ep].ejectedUntil == m.ejectedUntil
  {
    RelinkHealth(s, id, ep, false);
    hide Eject, Reattribute, SetBroken, OtherUsable;
    var u := Reattribute(SetBroken(s, id, false), id, ep);
    var reset := u.members[ep := u.members[ep].(errors := 0)];
    assert SameElsewhere(s.members, reset, ep);
    EjectActs(opts, reset, ep, now);
    SameOthers(s.members, reset, ep);
  }

  /** Failures before a round trip do not count: n failures after it eject exactly when n alone reach the threshold. */
  lemma RoundTripRestarts(opts: Options, w: World, id: ConnId, ep: Ep, now: nat, es: seq<Event>)
    requires Enabled(w, RoundTripping(id, ep, false, now)) && opts.ejectErrors <= U32_MAX
    requires ep in w.pool.members && w.pool.members[ep].ejectedUntil.None? && OtherUsable(w.pool.members, ep)
    requires Runs(opts, Step(opts, w, RoundTripping(id, ep, false, now)), es)
    requires es != [] && forall i :: 0 <= i < |es| ==> es[i].Failing? && es[i].ep == ep
    ensures var members := Run(opts, Step(opts, w, RoundTripping(id, ep, false, now)), es).pool.members;
            ep in members && (members[ep].ejectedUntil.Some? <==> |es| >= opts.ejectErrors)
  {
    hide Run, Runs, RoundTrip, OtherUsable;
    RoundTripClears(opts, w.pool, id, ep, false, now);
    var v := Step(opts, w, RoundTripping(id, ep, false, now));
    assert v.pool == RoundTrip(opts, w.pool, id, ep, false, now);
    hide Step;
    Restarts(opts, w, v, ep, es);
  }

  /** Nor do failures before a probe that re-admits. */
  lemma ProbeRestarts(opts: Options, w: World, ep: Ep, id: ConnId, now: nat, es: seq<Event>)
    requires Enabled(w, Probing(ep, true, id, now)) && !w.pool.closed && opts.ejectErrors <= U32_MAX
    requires ep in w.pool.members && OtherUsable(w.pool.members, ep)
    requires Runs(opts, Step(opts, w, Probing(ep, true, id, now)), es)
    requires es != [] && forall i :: 0 <= i < |es| ==> es[i].Failing? && es[i].ep == ep
    ensures var members := Run(opts, Step(opts, w, Probing(ep, true, id, now)), es).pool.members;
            ep in members && (members[ep].ejectedUntil.Some? <==> |es| >= opts.ejectErrors)
  {
    hide Run, Runs, Probed, OtherUsable;
    ProbeClears(opts, w.pool, ep, id, now);
    var v := Step(opts, w, Probing(ep, true, id, now));
    assert v.pool == Probed(opts, w.pool, ep, true, id, now);
    hide Step;
    Restarts(opts, w, v, ep, es);
  }

  lemma Restarts(opts: Options, w: World, v: World, ep: Ep, es: seq<Event>)
    requires SameElsewhere(w.pool.members, v.pool.members, ep) && OtherUsable(w.pool.members, ep)
    requires ep in v.pool.members && v.pool.members[ep].errors == 0 && v.pool.members[ep].ejectedUntil == None
    requires opts.ejectErrors <= U32_MAX && Runs(opts, v, es)
    requires es != [] && forall i :: 0 <= i < |es| ==> es[i].Failing? && es[i].ep == ep
    ensures var members := Run(opts, v, es).pool.members;
            ep in members && (members[ep].ejectedUntil.Some? <==> |es| >= opts.ejectErrors)
  {
    hide Run, Runs, OtherUsable;
    SameOthers(w.pool.members, v.pool.members, ep);
    FailuresEject(opts, v, es, ep);
  }

  lemma ProbeClears(opts: Options, s: Pool, ep: Ep, id: ConnId, now: nat)
    requires ep in s.members && !s.closed
    ensures var t := Probed(opts, s, ep, true, id, now);
            && ep in t.members && t.members[ep].errors == 0 && t.members[ep].ejectedUntil == None
            && SameElsewhere(s.members, t.members, ep)
  {}

  // ---- the read-your-writes window ends ----

  /** The key is pinned as given, or not at all. */
  ghost predicate PinnedAtMost(s: Pool, key: Key, pin: Pin) {
    key in s.affinity ==> s.affinity[key] == pin
  }

  lemma StepPinAtMost(opts: Options, w: World, e: Event, key: Key, pin: Pin)
    requires Enabled(w, e) && PinnedAtMost(w.pool, key, pin) && !(e.Writing? && e.key == key)
    ensures PinnedAtMost(Step(opts, w, e).pool, key, pin)
  {
    if e.Choosing? {
      ChoosePins(opts, w.pool, e.key, e.now, e.lucky);
      hide Choose;
    } else if e.Writing? {
    } else {
      AffinitySame(opts, w.pool, e);
      hide Next;
    }
  }

  /** A checkout adds no pin. */
  lemma ChoosePins(opts: Options, s: Pool, k: Key, now: nat, lucky: nat)
    ensures var t := Choose(opts, s, k, now, lucky).pool;
            forall key :: key in t.affinity ==> key in s.affinity && t.affinity[key] == s.affinity[key]
  {
    PickPins(opts, s, k, now, lucky);
    hide Pick, FindHit, StaleBefore, Without, At;
  }

  lemma PickPins(opts: Options, s: Pool, k: Key, now: nat, lucky: nat)
    ensures var t := Pick(opts, s, k, now, lucky).pool;
            forall key :: key in t.affinity ==> key in s.affinity && t.affinity[key] == s.affinity[key]
  {
    hide UsableList, NextRr;
  }

  lemma {:induction false} RunPinAtMost(opts: Options, w: World, es: seq<Event>, key: Key, pin: Pin)
    requires Runs(opts, w, es) && PinnedAtMost(w.pool, key, pin)
    requires forall i :: 0 <= i < |es| ==> !(es[i].Writing? && es[i].key == key)
    ensures PinnedAtMost(Run(opts, w, es).pool, key, pin)
    decreases |es|
  {
    hide Step, PinnedAtMost;
    if es != [] {
      StepPinAtMost(opts, w, es[0], key, pin);
      RunPinAtMost(opts, Step(opts, w, es[0]), es[1..], key, pin);
    }
  }

  /** Without a later write under the key, a checkout from the window's end on forgets the write and is not directed. */
  lemma WindowEnds(opts: Options, w: World, key: Key, ep: Ep, t: nat, es: seq<Event>, now: nat)
    requires Runs(opts, Step(opts, w, Writing(key, ep, t)), es) && now >= t + opts.window && opts.window > 0
    requires forall i :: 0 <= i < |es| ==> !(es[i].Writing? && es[i].key == key)
    ensures var c := PickPinned(opts, Run(opts, Step(opts, w, Writing(key, ep, t)), es).pool, key, now);
            c.target == None && key !in c.pool.affinity
  {
    hide Run, Runs, PickPinned;
    var v, pin := Step(opts, w, Writing(key, ep, t)), Pin(ep, t + opts.window);
    assert PinnedAtMost(v.pool, key, pin);
    hide Step;
    RunPinAtMost(opts, v, es, key, pin);
    DeadPin(opts, Run(opts, v, es).pool, key, pin, now);
  }

  lemma DeadPin(opts: Options, s: Pool, key: Key, pin: Pin, now: nat)
    requires PinnedAtMost(s, key, pin) && now >= pin.until && opts.window > 0
    ensures var c := PickPinned(opts, s, key, now);
            c.target == None && key !in c.pool.affinity
  {}

  /** A write at capacity sweeps exactly the pins that are over; below it none. */
  lemma SweepExact(opts: Options, s: Pool, k: Key, ep: Ep, now: nat, key: Key)
    ensures var t := Wrote(opts, s, k, ep, now);
            && k in t.affinity && t.affinity[k] == Pin(ep, now + opts.window)
            && (key != k ==> (key in t.affinity <==>
                                key in s.affinity && (|s.affinity| < 4096 || s.affinity[key].until > now))
                             && (key in t.affinity ==> t.affinity[key] == s.affinity[key]))
  {}
}
