/** Ejection safety over every run: some member stays usable, ejections are bounded and left alone. */
module PoolHealth {
  import opened Bytes
  import opened Arithmetic
  import opened PoolMembers
  import opened Discovery
  import opened Pool
  import PoolAccounts

  /** What rotation depends on, and being configured. */
  predicate SameHealthAt(a: Member, b: Member) {
    a.ejectedUntil == b.ejectedUntil && a.ejections == b.ejections && a.listed == b.listed
    && a.readmittedAt == b.readmittedAt && a.probing == b.probing && a.seed == b.seed
  }

  ghost predicate SameHealth(a: Members, b: Members) {
    a.Keys == b.Keys && forall ep :: ep in a ==> SameHealthAt(a[ep], b[ep])
  }

  ghost predicate SameElsewhere(a: Members, b: Members, ep: Ep) {
    a.Keys == b.Keys && forall o :: o in a && o != ep ==> SameHealthAt(a[o], b[o])
  }

  /** Out for the backoff of the `n`-th ejection from `now`. */
  predicate OutFor(opts: Options, m: Member, n: nat, now: nat) {
    m.ejections == n && m.ejectedUntil == Some(now + BackoffFor(opts.backoff, opts.backoffMax, n))
  }

  /** Admitted long enough ago, or never ejected: the backoff starts over. */
  predicate Quiet(opts: Options, m: Member, now: nat) {
    m.readmittedAt.None? || now - m.readmittedAt.value > opts.backoffMax
  }

  /** `ep` went from admitted to ejected while another member stayed usable. */
  ghost predicate EjectedNow(opts: Options, a: Members, b: Members, ep: Ep, now: nat) {
    && SameElsewhere(a, b, ep) && ep in a && OtherUsable(a, ep) && a[ep].ejectedUntil.None?
    && OutFor(opts, b[ep], SaturatingInc(if Quiet(opts, a[ep], now) then 0 else a[ep].ejections), now)
    && a[ep].probing == b[ep].probing && a[ep].seed == b[ep].seed
  }

  /** A tick starts probes and does nothing else. */
  ghost predicate TickedNow(a: Members, b: Members) {
    a.Keys == b.Keys
    && forall ep :: ep in a ==>
         SameHealthAt(a[ep].(probing := b[ep].probing), b[ep]) && (a[ep].probing ==> b[ep].probing)
  }

  /** A probe re-admits `ep` or ejects it afresh. */
  ghost predicate ProbedNow(opts: Options, a: Members, b: Members, ep: Ep, good: bool, now: nat) {
    && SameElsewhere(a, b, ep) && ep in a && a[ep].listed == b[ep].listed && a[ep].seed == b[ep].seed && !b[ep].probing
    && if good then b[ep].ejectedUntil.None? && b[ep].readmittedAt == Some(now) && b[ep].ejections == a[ep].ejections
       else OutFor(opts, b[ep], SaturatingInc(a[ep].ejections), now)
  }

  /** Everything an event can do to the health of the members. */
  ghost predicate HealthStep(opts: Options, s: Pool, t: Pool, e: Event) {
    || SameHealth(s.members, t.members)
    || (e.Ticking? && TickedNow(s.members, t.members))
    || ((e.RoundTripping? || e.Failing?) && EjectedNow(opts, s.members, t.members, e.ep, e.now))
    || (e.Probing? && ProbedNow(opts, s.members, t.members, e.ep, e.ok && !s.closed, e.now))
  }

  lemma SameHealthTrans(a: Members, b: Members, c: Members)
    requires SameHealth(a, b) && SameHealth(b, c)
    ensures SameHealth(a, c)
  {}

  lemma BumpHealth(members: Members, ep: Ep)
    ensures SameHealth(members, Bump(members, ep)) && SameHealth(members, Unbump(members, ep))
  {}

  lemma RelinkHealth(s: Pool, id: ConnId, ep: Ep, broken: bool)
    requires id in s.links
    ensures SameHealth(s.members, Reattribute(SetBroken(s, id, broken), id, ep).members)
  {
    hide Bump, Unbump, SameHealth;
    BumpHealth(s.members, s.links[id].member);
    BumpHealth(Unbump(s.members, s.links[id].member), ep);
    SameHealthTrans(s.members, Unbump(s.members, s.links[id].member), Bump(Unbump(s.members, s.links[id].member), ep));
    SameHealthRefl(s.members);
  }

  lemma SameHealthRefl(a: Members)
    ensures SameHealth(a, a)
  {}

  lemma SameOther(a: Members, b: Members, ep: Ep)
    requires SameHealth(a, b) && OtherUsable(b, ep)
    ensures OtherUsable(a, ep)
  {
    var o :| o in b && o != ep && b[o].Usable();
    assert o in a && a[o].Usable();
  }

  /** What `eject` does when it is reached with the member admitted. */
  lemma EjectHealth(opts: Options, a: Members, b: Members, ep: Ep, now: nat)
    requires SameHealth(a, b) && ep in b && b[ep].ejectedUntil.None?
    ensures var c := Eject(opts, b, ep, now);
            SameHealth(a, c) || EjectedNow(opts, a, c, ep, now)
  {
    hide BackoffFor;
    if OtherUsable(b, ep) {
      SameOther(a, b, ep);
      hide OtherUsable;
    }
  }

  lemma ErrorsHealth(a: Members, ep: Ep, n: nat)
    requires ep in a
    ensures SameHealth(a, a[ep := a[ep].(errors := n)])
  {}

  lemma RoundTripHealth(opts: Options, s: Pool, id: ConnId, ep: Ep, slow: bool, now: nat)
    requires id in s.links
    ensures var t := RoundTrip(opts, s, id, ep, slow, now);
            SameHealth(s.members, t.members) || EjectedNow(opts, s.members, t.members, ep, now)
  {
    RelinkHealth(s, id, ep, false);
    hide Reattribute, Eject, SameHealth, EjectedNow;
    var t := Reattribute(SetBroken(s, id, false), id, ep);
    if ep in t.members {
      var members := t.members[ep := t.members[ep].(errors := 0)];
      ErrorsHealth(t.members, ep, 0);
      SameHealthTrans(s.members, t.members, members);
      if slow && members[ep].Usable() { EjectHealth(opts, s.members, members, ep, now); }
    }
  }

  lemma FailedHealth(opts: Options, s: Pool, ep: Ep, now: nat)
    ensures var t := Failed(opts, s, ep, now);
            SameHealth(s.members, t.members) || EjectedNow(opts, s.members, t.members, ep, now)
  {
    hide Eject, SameHealth, EjectedNow;
    SameHealthRefl(s.members);
    if ep in s.members {
      var n := SaturatingInc(s.members[ep].errors);
      ErrorsHealth(s.members, ep, n);
      var members := s.members[ep := s.members[ep].(errors := n)];
      if members[ep].errors >= opts.ejectErrors && members[ep].ejectedUntil.None? {
        EjectHealth(opts, s.members, members, ep, now);
      }
    }
  }

  lemma TickHealth(s: Pool, now: nat)
    ensures TickedNow(s.members, Tick(s, now).members)
    ensures !s.closed ==> forall ep :: ep in DueMembers(s.members, now) ==>
              Tick(s, now).members[ep].probing && Tick(s, now).members[ep].ejectedUntil.Some?
  {}

  lemma ProbedHealth(opts: Options, s: Pool, ep: Ep, ok: bool, id: ConnId, now: nat)
    ensures var t := Probed(opts, s, ep, ok, id, now);
            if ep in s.members then ProbedNow(opts, s.members, t.members, ep, ok && !s.closed, now)
            else t == s
  {
    hide BackoffFor;
  }

  lemma ChooseMembers(opts: Options, s: Pool, key: Key, now: nat, lucky: nat)
    ensures Choose(opts, s, key, now, lucky).pool.members == s.members
  {
    hide Pick, TakeIdle;
    var c := Pick(opts, s, key, now, lucky);
    PoolAccounts.PickKeeps(opts, s, key, now, lucky);
    PoolAccounts.TakeIdleDrops(opts, c.pool, c.target);
  }

  lemma StepHealth(opts: Options, w: World, e: Event)
    requires Enabled(w, e) && !e.Folding?
    ensures HealthStep(opts, w.pool, Next(opts, w.pool, e), e)
  {
    hide Choose, RoundTrip, Probed, Tick, Failed, Reattribute, Bump, Unbump;
    hide SameHealth, EjectedNow, ProbedNow, TickedNow;
    SameHealthRefl(w.pool.members);
    match e {
      case Choosing(key, now, lucky) => ChooseMembers(opts, w.pool, key, now, lucky);
      case HandingOut(id, _) => BumpHealth(w.pool.members, w.pool.links[id].member);
      case CheckingIn(id) => BumpHealth(w.pool.members, w.pool.links[id].member);
      case Dropping(id) => BumpHealth(w.pool.members, w.pool.links[id].member);
      case Moving(id, ep) => RelinkHealth(w.pool, id, ep, false);
      case RoundTripping(id, ep, slow, now) => RoundTripHealth(opts, w.pool, id, ep, slow, now);
      case Failing(ep, now) => FailedHealth(opts, w.pool, ep, now);
      case Ticking(now) => TickHealth(w.pool, now);
      case Probing(ep, ok, id, now) => ProbedHealth(opts, w.pool, ep, ok, id, now);
      case _ =>
    }
  }

  // ---- some member stays usable ----

  /** A failed probe of the only usable member. */
  ghost predicate StaleProbe(s: Pool, e: Event) {
    e.Probing? && !(e.ok && !s.closed) && e.ep in s.members && !OtherUsable(s.members, e.ep)
  }

  lemma UsableCarries(a: Members, b: Members, ep: Ep)
    requires SameElsewhere(a, b, ep) && OtherUsable(a, ep)
    ensures SomeUsable(b)
  {
    var o :| o in a && o != ep && a[o].Usable();
    assert o in b && b[o].Usable();
  }

  lemma SameUsable(a: Members, b: Members)
    requires (SameHealth(a, b) || TickedNow(a, b)) && SomeUsable(a)
    ensures SomeUsable(b)
  {
    var o :| o in a && a[o].Usable();
    assert o in b && b[o].Usable();
  }

  /** A step other than a fold takes the last usable member away exactly when it is a stale failed probe. */
  lemma StepKeepsUsable(opts: Options, w: World, e: Event)
    requires Enabled(w, e) && !e.Folding? && SomeUsable(w.pool.members)
    ensures SomeUsable(Step(opts, w, e).pool.members) <==> !StaleProbe(w.pool, e)
  {
    hide Choose, HandOut, Checkin, DropConn, Moved, RoundTrip, SetBroken, Failed, Wrote, Tick, Probed, Close;
    hide Folded, RemovedBy;
    StepHealth(opts, w, e);
    var a, t := w.pool.members, Next(opts, w.pool, e);
    if e.Probing? {
      ProbedHealth(opts, w.pool, e.ep, e.ok, e.id, e.now);
      hide Next;
      ProbeUsable(opts, w.pool, t, e);
    } else {
      hide Next;
      if SameHealth(a, t.members) || TickedNow(a, t.members) {
        SameUsable(a, t.members);
      } else {
        UsableCarries(a, t.members, e.ep);
      }
    }
  }

  lemma ProbeUsable(opts: Options, s: Pool, t: Pool, e: Event)
    requires e.Probing? && SomeUsable(s.members)
    requires if e.ep in s.members then ProbedNow(opts, s.members, t.members, e.ep, e.ok && !s.closed, e.now) else t == s
    ensures SomeUsable(t.members) <==> !StaleProbe(s, e)
  {
    var a, b := s.members, t.members;
    if e.ep in a {
      if OtherUsable(a, e.ep) {
        UsableCarries(a, b, e.ep);
      } else {
        var o :| o in a && a[o].Usable();
        assert o == e.ep;
        if e.ok && !s.closed {
          assert b[e.ep].Usable();
        } else {
          forall x | x in b ensures !b[x].Usable() {
            if x != e.ep { assert SameHealthAt(a[x], b[x]); }
          }
        }
      }
    }
  }

  /** A probe in flight is of an ejected member that knows it. */
  ghost predicate FreshIn(members: Members, inFlight: set<Ep>) {
    forall ep :: ep in inFlight && ep in members ==> members[ep].ejectedUntil.Some? && members[ep].probing
  }

  ghost predicate ProbesFresh(w: World) {
    FreshIn(w.pool.members, w.inFlight)
  }

  lemma FreshSame(opts: Options, s: Pool, t: Pool, e: Event, inFlight: set<Ep>)
    requires HealthStep(opts, s, t, e) && !e.Ticking? && FreshIn(s.members, inFlight)
    ensures FreshIn(t.members, if e.Probing? then inFlight - {e.ep} else inFlight)
  {
    hide OtherUsable;
  }

  lemma FreshTick(s: Pool, now: nat, inFlight: set<Ep>)
    requires FreshIn(s.members, inFlight)
    ensures FreshIn(Tick(s, now).members, if s.closed then inFlight else inFlight + DueMembers(s.members, now))
  {
    TickHealth(s, now);
    hide Tick, DueMembers;
  }

  lemma StepFresh(opts: Options, w: World, e: Event)
    requires Enabled(w, e) && !e.Folding? && ProbesFresh(w)
    ensures ProbesFresh(Step(opts, w, e)) && !(SomeUsable(w.pool.members) && StaleProbe(w.pool, e))
  {
    FreshNotStale(w, e);
    StepHealth(opts, w, e);
    hide FreshIn, HealthStep, StaleProbe;
    hide Choose, HandOut, Checkin, DropConn, Moved, RoundTrip, SetBroken, Failed, Wrote, Tick, Probed, Close;
    hide Folded, RemovedBy;
    if e.Ticking? {
      FreshTick(w.pool, e.now, w.inFlight);
    } else {
      FreshSame(opts, w.pool, Next(opts, w.pool, e), e, w.inFlight);
    }
  }

  lemma FreshNotStale(w: World, e: Event)
    requires Enabled(w, e) && ProbesFresh(w)
    ensures !(SomeUsable(w.pool.members) && StaleProbe(w.pool, e))
  {
    if e.Probing? && SomeUsable(w.pool.members) && e.ep in w.pool.members { OnlyStale(w.pool, e.ep); }
    hide SomeUsable, OtherUsable;
  }

  lemma OnlyStale(s: Pool, ep: Ep)
    requires SomeUsable(s.members) && ep in s.members && s.members[ep].ejectedUntil.Some?
    ensures OtherUsable(s.members, ep)
  {
    var o :| o in s.members && s.members[o].Usable();
    assert o != ep;
  }

  /** No run of checkouts, returns, round trips, failures, ticks and probes leaves no member usable. */
  lemma {:induction false} RunKeepsUsable(opts: Options, w: World, es: seq<Event>)
    requires Runs(opts, w, es) && ProbesFresh(w) && SomeUsable(w.pool.members)
    requires forall i :: 0 <= i < |es| ==> !es[i].Folding?
    ensures SomeUsable(Run(opts, w, es).pool.members) && ProbesFresh(Run(opts, w, es))
    decreases |es|
  {
    hide Step, ProbesFresh, SomeUsable, StaleProbe;
    if es != [] {
      StepFresh(opts, w, es[0]);
      StepKeepsUsable(opts, w, es[0]);
      RunKeepsUsable(opts, Step(opts, w, es[0]), es[1..]);
    }
  }

  // ---- and with listings folded in ----

  /** Every probe in flight is of a member, ejected and marked. */
  ghost predicate Tracked(w: World) {
    ProbesFresh(w) && w.inFlight <= w.pool.members.Keys
  }

  /** The event does not fold away a member whose probe is in flight. */
  ghost predicate Spares(w: World, e: Event) {
    e.Folding? ==> RemovedBy(w.pool.members, e.dialed, e.rows) !! w.inFlight
  }

  lemma FoldTracked(members: Members, dialed: Ep, rows: seq<Row>, inFlight: set<Ep>)
    requires FreshIn(members, inFlight) && inFlight <= members.Keys && RemovedBy(members, dialed, rows) !! inFlight
    ensures FreshIn(Folded(members, dialed, rows), inFlight) && inFlight <= Folded(members, dialed, rows).Keys
  {
    hide Folded, RemovedBy;
    forall ep | ep in inFlight
      ensures ep in Folded(members, dialed, rows)
      ensures Folded(members, dialed, rows)[ep].ejectedUntil.Some? && Folded(members, dialed, rows)[ep].probing
    {
      FoldStays(members, dialed, rows, ep);
      FoldKeepsAccounts(members, dialed, rows, ep);
    }
  }

  lemma StepTracked(opts: Options, w: World, e: Event)
    requires Enabled(w, e) && Tracked(w) && Spares(w, e)
    ensures Tracked(Step(opts, w, e))
  {
    hide Choose, HandOut, Checkin, DropConn, Moved, RoundTrip, SetBroken, Failed, Wrote, Tick, Probed, Close;
    hide Folded, RemovedBy, FreshIn, HealthStep;
    if e.Folding? {
      FoldTracked(w.pool.members, e.dialed, e.rows, w.inFlight);
    } else {
      StepFresh(opts, w, e);
      StepHealth(opts, w, e);
      HealthKeys(opts, w.pool, Next(opts, w.pool, e), e);
    }
  }

  lemma HealthKeys(opts: Options, s: Pool, t: Pool, e: Event)
    requires HealthStep(opts, s, t, e)
    ensures t.members.Keys == s.members.Keys
  {
    hide OtherUsable, OutFor, Quiet;
  }

  ghost predicate AllSpare(opts: Options, w: World, es: seq<Event>)
    requires Runs(opts, w, es)
    decreases |es|
  {
    es == [] || (Spares(w, es[0]) && AllSpare(opts, Step(opts, w, es[0]), es[1..]))
  }

  /** The event takes the last usable member out of rotation. */
  ghost predicate TakesLast(opts: Options, w: World, e: Event)
    requires Enabled(w, e)
  {
    SomeUsable(w.pool.members) && !SomeUsable(Step(opts, w, e).pool.members)
  }

  /** Nothing but a listing ever does. */
  ghost predicate OnlyFoldsTakeLast(opts: Options, w: World, es: seq<Event>)
    requires Runs(opts, w, es)
    decreases |es|
  {
    es == [] || ((TakesLast(opts, w, es[0]) ==> es[0].Folding?)
                 && OnlyFoldsTakeLast(opts, Step(opts, w, es[0]), es[1..]))
  }

  /** No probe that fails was of the only usable member. */
  ghost predicate NoneStale(opts: Options, w: World, es: seq<Event>)
    requires Runs(opts, w, es)
    decreases |es|
  {
    es == [] || (!(SomeUsable(w.pool.members) && StaleProbe(w.pool, es[0]))
                 && NoneStale(opts, Step(opts, w, es[0]), es[1..]))
  }

  /** Over every run: only listings take the last usable member exactly when no probe is stale. */
  lemma {:induction false} RunTakesLast(opts: Options, w: World, es: seq<Event>)
    requires Runs(opts, w, es)
    ensures OnlyFoldsTakeLast(opts, w, es) <==> NoneStale(opts, w, es)
    decreases |es|
  {
    hide Step, SomeUsable;
    if es != [] {
      if !es[0].Folding? && SomeUsable(w.pool.members) { StepKeepsUsable(opts, w, es[0]); }
      RunTakesLast(opts, Step(opts, w, es[0]), es[1..]);
    }
  }

  /** Over every run in which no listing removes a member being probed, only a listing takes the last usable member. */
  lemma {:induction false} RunTakesNone(opts: Options, w: World, es: seq<Event>)
    requires Runs(opts, w, es) && Tracked(w) && AllSpare(opts, w, es)
    ensures Tracked(Run(opts, w, es)) && OnlyFoldsTakeLast(opts, w, es)
    decreases |es|
  {
    hide Step, ProbesFresh, SomeUsable, StaleProbe, Spares;
    if es != [] {
      StepTracked(opts, w, es[0]);
      if !es[0].Folding? && SomeUsable(w.pool.members) {
        FreshNotStale(w, es[0]);
        StepKeepsUsable(opts, w, es[0]);
      }
      RunTakesNone(opts, Step(opts, w, es[0]), es[1..]);
    }
  }

  lemma InitialUsable(w: World)
    requires Initial(w)
    ensures Tracked(w) && SomeUsable(w.pool.members)
  {
    var ep :| ep in w.pool.members;
    assert w.pool.members[ep].Usable();
  }

  // ---- an ejection is left alone ----

  /** The event neither folds `ep` away nor ends a probe of it. */
  ghost predicate Leaves(w: World, e: Event, ep: Ep) {
    !(e.Probing? && e.ep == ep) && !(e.Folding? && ep in RemovedBy(w.pool.members, e.dialed, e.rows))
  }

  ghost predicate AllLeave(opts: Options, w: World, es: seq<Event>, ep: Ep)
    requires Runs(opts, w, es)
    decreases |es|
  {
    es == [] || (Leaves(w, es[0], ep) && AllLeave(opts, Step(opts, w, es[0]), es[1..], ep))
  }

  lemma StepFrozen(opts: Options, w: World, e: Event, ep: Ep)
    requires Enabled(w, e) && Leaves(w, e, ep)
    requires ep in w.pool.members && w.pool.members[ep].ejectedUntil.Some?
    ensures var members := Step(opts, w, e).pool.members;
            ep in members && members[ep].ejectedUntil == w.pool.members[ep].ejectedUntil
            && members[ep].ejections == w.pool.members[ep].ejections
  {
    hide Choose, HandOut, Checkin, DropConn, Moved, RoundTrip, SetBroken, Failed, Wrote, Tick, Probed, Close;
    hide Folded, RemovedBy;
    if e.Folding? {
      FoldStays(w.pool.members, e.dialed, e.rows, ep);
      FoldKeepsAccounts(w.pool.members, e.dialed, e.rows, ep);
      hide Folded, RemovedBy;
    } else {
      StepHealth(opts, w, e);
      hide Next;
    }
  }

  lemma FoldStays(members: Members, dialed: Ep, rows: seq<Row>, ep: Ep)
    requires ep in members && ep !in RemovedBy(members, dialed, rows)
    ensures ep in Folded(members, dialed, rows)
  {
    hide Folded, Index0, Deduped, NameDialed;
  }

  /** While a member is out, nothing but its own probe (or its removal) touches its count or deadline. */
  lemma {:induction false} EjectionFrozen(opts: Options, w: World, es: seq<Event>, ep: Ep)
    requires Runs(opts, w, es) && AllLeave(opts, w, es, ep)
    requires ep in w.pool.members && w.pool.members[ep].ejectedUntil.Some?
    ensures var members := Run(opts, w, es).pool.members;
            ep in members && members[ep].ejectedUntil == w.pool.members[ep].ejectedUntil
            && members[ep].ejections == w.pool.members[ep].ejections
    decreases |es|
  {
    hide Step, Leaves;
    if es != [] {
      StepFrozen(opts, w, es[0], ep);
      EjectionFrozen(opts, Step(opts, w, es[0]), es[1..], ep);
    }
  }

  // ---- deadlines ----

  /** Every deadline is within one longest backoff of the clock. */
  ghost predicate DeadlinesBounded(opts: Options, w: World) {
    forall ep :: ep in w.pool.members && w.pool.members[ep].ejectedUntil.Some? ==>
      w.pool.members[ep].ejectedUntil.value <= w.clock + opts.backoffMax
  }

  /**
    A deadline an event sets is its clock reading plus the backoff of the new ejection count, so within one
    longest backoff; the count goes up by one, or restarts at one for a member admitted and quiet.
   */
  lemma StepDeadline(opts: Options, w: World, e: Event, ep: Ep)
    requires Enabled(w, e)
    ensures var s := Step(opts, w, e).pool;
            ep in s.members && s.members[ep].ejectedUntil.Some?
            && (ep !in w.pool.members || s.members[ep].ejectedUntil != w.pool.members[ep].ejectedUntil) ==>
              (e.RoundTripping? || e.Failing? || e.Probing?) && e.ep == ep
              && e.now == Step(opts, w, e).clock
              && e.now + Min(opts.backoff, opts.backoffMax) <= s.members[ep].ejectedUntil.value
              && s.members[ep].ejectedUntil.value <= e.now + opts.backoffMax
              && ep in w.pool.members
              && OutFor(opts, s.members[ep], NextCount(opts, w.pool.members[ep], e), e.now)
  {
    hide Choose, HandOut, Checkin, DropConn, Moved, RoundTrip, SetBroken, Failed, Wrote, Tick, Probed, Close;
    hide Folded, RemovedBy;
    if e.Folding? {
      if ep in Folded(w.pool.members, e.dialed, e.rows) {
        FoldKeepsAccounts(w.pool.members, e.dialed, e.rows, ep);
      }
      hide Folded, RemovedBy;
    } else {
      StepHealth(opts, w, e);
      hide Next;
      if e.RoundTripping? || e.Failing? || e.Probing? {
        if e.ep in w.pool.members {
          BackoffAtLeast(opts.backoff, opts.backoffMax, NextCount(opts, w.pool.members[e.ep], e));
        }
      }
    }
  }

  /** The ejection count after `e` ejects `m`. */
  function NextCount(opts: Options, m: Member, e: Event): (n: nat)
    requires e.RoundTripping? || e.Failing? || e.Probing?
    ensures n >= 1
  {
    SaturatingInc(if !e.Probing? && Quiet(opts, m, e.now) then 0 else m.ejections)
  }

  /** A failed probe puts the member out for at least as long as its last ejection. */
  lemma FailedProbeLonger(opts: Options, w: World, e: Event)
    requires Enabled(w, e) && e.Probing? && !e.ok && e.ep in w.pool.members
    requires w.pool.members[e.ep].ejections <= U32_MAX
    ensures var m := Step(opts, w, e).pool.members[e.ep];
            && m.ejectedUntil.Some?
            && m.ejectedUntil.value >= e.now + BackoffFor(opts.backoff, opts.backoffMax, w.pool.members[e.ep].ejections)
  {
    ProbedHealth(opts, w.pool, e.ep, e.ok, e.id, e.now);
    hide Probed, BackoffFor;
    var n := w.pool.members[e.ep].ejections;
    BackoffMonotone(opts.backoff, opts.backoffMax, n, SaturatingInc(n));
  }

  // ---- failures in a row ----

  lemma FailedOnce(opts: Options, s: Pool, ep: Ep, now: nat)
    requires ep in s.members && s.members[ep].ejectedUntil.None? && OtherUsable(s.members, ep)
    requires opts.ejectErrors <= U32_MAX
    ensures var t := Failed(opts, s, ep, now);
            && ep in t.members && OtherUsable(t.members, ep)
            && if s.members[ep].errors + 1 >= opts.ejectErrors then t.members[ep].ejectedUntil.Some?
               else t.members[ep].ejectedUntil.None? && t.members[ep].errors == s.members[ep].errors + 1
  {
    var m := s.members[ep].(errors := SaturatingInc(s.members[ep].errors));
    var members := s.members[ep := m];
    var o :| o in s.members && o != ep && s.members[o].Usable();
    assert members[o].Usable();
    assert OtherUsable(members, ep);
    hide BackoffFor;
    assert Failed(opts, s, ep, now).members[o].Usable();
  }

  /** With another member usable, n failures in a row eject an admitted member exactly when they reach the threshold. */
  lemma {:induction false} FailuresEject(opts: Options, w: World, es: seq<Event>, ep: Ep)
    requires Runs(opts, w, es) && es != [] && forall i :: 0 <= i < |es| ==> es[i].Failing? && es[i].ep == ep
    requires ep in w.pool.members && w.pool.members[ep].ejectedUntil.None? && OtherUsable(w.pool.members, ep)
    requires opts.ejectErrors <= U32_MAX
    ensures var members := Run(opts, w, es).pool.members;
            ep in members && (members[ep].ejectedUntil.Some? <==> w.pool.members[ep].errors + |es| >= opts.ejectErrors)
    decreases |es|
  {
    hide Failed, OtherUsable;
    FailedOnce(opts, w.pool, ep, es[0].now);
    var v := Step(opts, w, es[0]);
    assert v.pool == Failed(opts, w.pool, ep, es[0].now);
    if |es| > 1 {
      if v.pool.members[ep].ejectedUntil.None? {
        FailuresEject(opts, v, es[1..], ep);
      } else {
        OnlyFailures(opts, v, es[1..], ep);
        EjectionFrozen(opts, v, es[1..], ep);
      }
    } else {
      assert es[1..] == [];
    }
  }

  lemma {:induction false} OnlyFailures(opts: Options, w: World, es: seq<Event>, ep: Ep)
    requires Runs(opts, w, es) && forall i :: 0 <= i < |es| ==> es[i].Failing?
    ensures AllLeave(opts, w, es, ep)
    decreases |es|
  {
    hide Step;
    if es != [] { OnlyFailures(opts, Step(opts, w, es[0]), es[1..], ep); }
  }

  lemma ClockAdvances(opts: Options, w: World, e: Event)
    requires Enabled(w, e)
    ensures Step(opts, w, e).clock >= w.clock
  {
    hide Next, RemovedBy, DueMembers;
  }

  lemma StepBounded(opts: Options, w: World, e: Event)
    requires Enabled(w, e) && DeadlinesBounded(opts, w)
    ensures DeadlinesBounded(opts, Step(opts, w, e))
  {
    ClockAdvances(opts, w, e);
    hide Step;
    var t := Step(opts, w, e);
    forall ep | ep in t.pool.members && t.pool.members[ep].ejectedUntil.Some?
      ensures t.pool.members[ep].ejectedUntil.value <= t.clock + opts.backoffMax
    {
      StepDeadline(opts, w, e, ep);
    }
  }

  /** Over every run, folds included: no member is out for longer than one longest backoff from now. */
  lemma {:induction false} RunBounded(opts: Options, w: World, es: seq<Event>)
    requires Runs(opts, w, es) && DeadlinesBounded(opts, w)
    ensures DeadlinesBounded(opts, Run(opts, w, es))
    decreases |es|
  {
    hide Step, DeadlinesBounded;
    if es != [] {
      StepBounded(opts, w, es[0]);
      RunBounded(opts, Step(opts, w, es[0]), es[1..]);
    }
  }

  /**
    Ejection safety from a fresh pool: deadlines are bounded over every run; while no listing removes a member
    being probed, no step but a listing takes the last usable member; without listings some member is usable.
   */
  lemma EjectionSafety(opts: Options, w: World, es: seq<Event>)
    requires Initial(w) && Runs(opts, w, es)
    ensures DeadlinesBounded(opts, Run(opts, w, es))
    ensures AllSpare(opts, w, es) ==> OnlyFoldsTakeLast(opts, w, es)
    ensures (forall i :: 0 <= i < |es| ==> !es[i].Folding?) ==> SomeUsable(Run(opts, w, es).pool.members)
  {
    InitialUsable(w);
    RunBounded(opts, w, es);
    hide SomeUsable, DeadlinesBounded, Run, Runs, AllSpare, OnlyFoldsTakeLast;
    if AllSpare(opts, w, es) { RunTakesNone(opts, w, es); }
    if forall i :: 0 <= i < |es| ==> !es[i].Folding? { RunKeepsUsable(opts, w, es); }
  }
}
