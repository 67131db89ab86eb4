/** Configured endpoints over every run: there is always one left to dial. */
module PoolSeeds {
  import opened PoolMembers
  import opened Discovery
  import opened Pool
  import opened PoolHealth

  ghost predicate SameSeeds(a: Members, b: Members) {
    a.Keys == b.Keys && forall ep :: ep in a ==> a[ep].seed == b[ep].seed
  }

  lemma SeedsCarry(a: Members, b: Members)
    requires SameSeeds(a, b) && HasSeed(a)
    ensures HasSeed(b)
  {
    var ep :| ep in a && a[ep].seed;
    assert ep in b && b[ep].seed;
  }

  /** Only a listing changes which members are configured. */
  lemma StepSeeds(opts: Options, w: World, e: Event)
    requires Enabled(w, e) && !e.Folding?
    ensures SameSeeds(w.pool.members, Next(opts, w.pool, e).members)
  {
    hide Next, HealthStep;
    StepHealth(opts, w, e);
    HealthSeeds(opts, w.pool, Next(opts, w.pool, e), e);
  }

  lemma HealthSeeds(opts: Options, s: Pool, t: Pool, e: Event)
    requires HealthStep(opts, s, t, e)
    ensures SameSeeds(s.members, t.members)
  {
    hide OtherUsable, OutFor, Quiet;
  }

  lemma StepKeepsSeed(opts: Options, w: World, e: Event)
    requires Enabled(w, e) && HasSeed(w.pool.members)
    ensures HasSeed(Step(opts, w, e).pool.members)
  {
    hide Choose, HandOut, Checkin, DropConn, Moved, RoundTrip, SetBroken, Failed, Wrote, Tick, Probed, Close;
    hide Folded, RemovedBy, HasSeed, SameSeeds;
    if e.Folding? {
      FoldNotEmpty(w.pool.members, e.dialed, e.rows);
    } else {
      StepSeeds(opts, w, e);
      SeedsCarry(w.pool.members, Next(opts, w.pool, e).members);
    }
  }

  /** Over every run a pool with a seed keeps one: there is always a member. */
  lemma {:induction false} RunKeepsSeed(opts: Options, w: World, es: seq<Event>)
    requires Runs(opts, w, es) && HasSeed(w.pool.members)
    ensures HasSeed(Run(opts, w, es).pool.members) && Run(opts, w, es).pool.members != map[]
    decreases |es|
  {
    hide Step;
    if es != [] {
      StepKeepsSeed(opts, w, es[0]);
      hide HasSeed;
      RunKeepsSeed(opts, Step(opts, w, es[0]), es[1..]);
    }
  }

  lemma FreshNeverEmpty(opts: Options, w: World, es: seq<Event>)
    requires Initial(w) && Runs(opts, w, es)
    ensures HasSeed(Run(opts, w, es).pool.members) && Run(opts, w, es).pool.members != map[]
  {
    hide Run, Runs;
    var ep :| ep in w.pool.members;
    assert w.pool.members[ep].seed;
    RunKeepsSeed(opts, w, es);
  }

  /** The event is a listing after which a later seed goes by the name of `ep`. */
  ghost predicate Displaces(w: World, e: Event, ep: Ep) {
    e.Folding? && LaterSeed(NameDialed(w.pool.members, e.dialed, LocalName(e.rows)), ep)
  }

  /** No listing of the run displaces the seed `ep`. */
  ghost predicate NeverDisplaced(opts: Options, w: World, es: seq<Event>, ep: Ep)
    requires Runs(opts, w, es)
    decreases |es|
  {
    es == [] || (!Displaces(w, es[0], ep) && NeverDisplaced(opts, Step(opts, w, es[0]), es[1..], ep))
  }

  /** A seed stays a member, and a seed, over every run in which no later seed turns out to go by its name. */
  lemma {:induction false} SeedStays(opts: Options, w: World, es: seq<Event>, ep: Ep)
    requires Runs(opts, w, es) && NeverDisplaced(opts, w, es, ep)
    requires ep in w.pool.members && w.pool.members[ep].seed
    ensures ep in Run(opts, w, es).pool.members && Run(opts, w, es).pool.members[ep].seed
    decreases |es|
  {
    hide LaterSeed, NameDialed, Folded, RemovedBy;
    if es != [] {
      if es[0].Folding? {
        SeedDisplaced(w.pool.members, es[0].dialed, es[0].rows, ep);
        var heir := FoldKeepsSeeds(w.pool.members, es[0].dialed, es[0].rows, ep);
      } else {
        StepSeeds(opts, w, es[0]);
      }
      hide Next;
      SeedStays(opts, Step(opts, w, es[0]), es[1..], ep);
    }
  }
}
