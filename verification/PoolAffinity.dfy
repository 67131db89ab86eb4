/** Read-your-writes over every run: a key's checkouts go to the member that took its last write. */
module PoolAffinity {
  import opened Bytes
  import opened PoolMembers
  import opened Discovery
  import opened Pool
  import PoolHealth

  ghost predicate Pinned(s: Pool, key: Key, pin: Pin) {
    key in s.affinity && s.affinity[key] == pin
  }

  /** No later write under `key`, and `ep` a member whenever a checkout under `key` picks. */
  ghost predicate Undisturbed(s: Pool, e: Event, key: Key, ep: Ep) {
    !(e.Writing? && e.key == key) && (e.Choosing? && e.key == key && !s.closed ==> ep in s.members)
  }

  ghost predicate AllUndisturbed(opts: Options, w: World, es: seq<Event>, key: Key, ep: Ep)
    requires Runs(opts, w, es)
    decreases |es|
  {
    es == [] || (Undisturbed(w.pool, es[0], key, ep) && AllUndisturbed(opts, Step(opts, w, es[0]), es[1..], key, ep))
  }

  /** A checkout forgets its own key's pin when it is dead (and never another's). */
  lemma PickForgets(opts: Options, s: Pool, k: Key, now: nat, lucky: nat, key: Key, pin: Pin)
    requires Pinned(s, key, pin) && opts.window > 0
    ensures var t := Pick(opts, s, k, now, lucky).pool;
            Pinned(t, key, pin) <==> (k == key ==> pin.ep in s.members && now < pin.until)
  {
    hide UsableList, NextRr;
  }

  lemma ChooseKeepsPin(opts: Options, s: Pool, k: Key, now: nat, lucky: nat, key: Key, pin: Pin)
    requires Pinned(s, key, pin) && opts.window > 0
    requires k == key && !s.closed ==> pin.ep in s.members && now < pin.until
    ensures Pinned(Choose(opts, s, k, now, lucky).pool, key, pin)
  {
    PickForgets(opts, s, k, now, lucky, key, pin);
    hide Pick, FindHit, StaleBefore, Without, At;
  }

  /** Another key's write, sweep included, keeps a live pin. */
  lemma WroteKeepsPin(opts: Options, s: Pool, k: Key, ep: Ep, now: nat, key: Key, pin: Pin)
    requires Pinned(s, key, pin) && k != key && now < pin.until
    ensures Pinned(Wrote(opts, s, k, ep, now), key, pin)
  {}

  lemma StepKeepsPin(opts: Options, w: World, e: Event, key: Key, pin: Pin)
    requires Enabled(w, e) && Pinned(w.pool, key, pin) && opts.window > 0
    requires Undisturbed(w.pool, e, key, pin.ep) && Step(opts, w, e).clock < pin.until
    ensures Pinned(Step(opts, w, e).pool, key, pin)
  {
    if e.Choosing? {
      ChooseKeepsPin(opts, w.pool, e.key, e.now, e.lucky, key, pin);
      hide Choose;
    } else if e.Writing? {
      WroteKeepsPin(opts, w.pool, e.key, e.ep, e.now, key, pin);
      hide Wrote;
    } else {
      AffinitySame(opts, w.pool, e);
      hide Next;
    }
  }

  lemma AffinitySame(opts: Options, s: Pool, e: Event)
    requires Concerns(s, e) && !e.Choosing? && !e.Writing?
    ensures Next(opts, s, e).affinity == s.affinity
  {
    hide Bump, Unbump, Eject, Folded, BackoffFor, RoundTrip, Probed;
    match e {
      case RoundTripping(id, ep, slow, now) => RoundTripAffinity(opts, s, id, ep, slow, now);
      case Probing(ep, ok, id, now) => ProbedAffinity(opts, s, ep, ok, id, now);
      case _ =>
    }
  }

  lemma RoundTripAffinity(opts: Options, s: Pool, id: ConnId, ep: Ep, slow: bool, now: nat)
    requires id in s.links
    ensures RoundTrip(opts, s, id, ep, slow, now).affinity == s.affinity
  {
    hide Bump, Unbump, Eject;
  }

  lemma ProbedAffinity(opts: Options, s: Pool, ep: Ep, ok: bool, id: ConnId, now: nat)
    ensures Probed(opts, s, ep, ok, id, now).affinity == s.affinity
  {
    hide BackoffFor;
  }

  lemma {:induction false} ClockRises(opts: Options, w: World, es: seq<Event>)
    requires Runs(opts, w, es)
    ensures Run(opts, w, es).clock >= w.clock
    decreases |es|
  {
    hide Step;
    if es != [] {
      PoolHealth.ClockAdvances(opts, w, es[0]);
      ClockRises(opts, Step(opts, w, es[0]), es[1..]);
    }
  }

  /** A live pin survives every undisturbed run. */
  lemma {:induction false} RunKeepsPin(opts: Options, w: World, es: seq<Event>, key: Key, pin: Pin)
    requires Runs(opts, w, es) && AllUndisturbed(opts, w, es, key, pin.ep)
    requires Pinned(w.pool, key, pin) && opts.window > 0 && Run(opts, w, es).clock < pin.until
    ensures Pinned(Run(opts, w, es).pool, key, pin)
    decreases |es|
  {
    hide Step, Pinned, Undisturbed;
    if es != [] {
      ClockRises(opts, Step(opts, w, es[0]), es[1..]);
      StepKeepsPin(opts, w, es[0], key, pin);
      RunKeepsPin(opts, Step(opts, w, es[0]), es[1..], key, pin);
    }
  }

  lemma PinnedPick(opts: Options, s: Pool, key: Key, now: nat, lucky: nat, pin: Pin)
    requires Pinned(s, key, pin) && opts.window > 0 && now < pin.until
    requires pin.ep in s.members && s.members[pin.ep].Usable()
    ensures Pick(opts, s, key, now, lucky) == Choice(s, Some(pin.ep))
  {
    hide UsableList, NextRr;
  }

  lemma TakenAt(opts: Options, s: Pool, ep: Ep)
    ensures var t := TakeIdle(opts, s, Some(ep));
            t.picked.Some? ==> t.picked.value in s.links && s.links[t.picked.value].member == ep
  {
    hide FindHit, StaleBefore, Without, At;
  }

  /**
    After a write under `key` at `t`, every checkout under that key within the window is directed at the
    member that took it, and an idle connection it gets is to that member.
   */
  lemma ReadYourWrites(opts: Options, w: World, key: Key, ep: Ep, t: nat, es: seq<Event>, now: nat, lucky: nat)
    requires opts.window > 0 && Runs(opts, w, [Writing(key, ep, t)] + es)
    requires AllUndisturbed(opts, Step(opts, w, Writing(key, ep, t)), es, key, ep)
    requires var v := Run(opts, w, [Writing(key, ep, t)] + es);
             Enabled(v, Choosing(key, now, lucky)) && now < t + opts.window
             && ep in v.pool.members && v.pool.members[ep].Usable()
    ensures var s := Run(opts, w, [Writing(key, ep, t)] + es).pool;
            && Pick(opts, s, key, now, lucky).target == Some(ep)
            && (var c := Choose(opts, s, key, now, lucky);
                c.picked.Some? ==> c.picked.value in s.links && s.links[c.picked.value].member == ep)
  {
    var e := Writing(key, ep, t);
    assert ([e] + es)[1..] == es;
    var v := Step(opts, w, e);
    var pin := Pin(ep, t + opts.window);
    assert Pinned(v.pool, key, pin);
    RunKeepsPin(opts, v, es, key, pin);
    var s := Run(opts, w, [e] + es).pool;
    assert s == Run(opts, v, es).pool;
    hide Run, Runs, Step, Pick, TakeIdle;
    PinnedPick(opts, s, key, now, lucky, pin);
    TakenAt(opts, s, ep);
  }
}
