/** What becomes of a connection that comes back: when it is kept, and that the next checkout gets it. */
module PoolReturn {
  import opened Bytes
  import opened PoolMembers
  import opened Pool

  /** The member is admitted and last listed ready. */
  predicate InRotation(s: Pool, ep: Ep) {
    ep in s.members && s.members[ep].ejectedUntil == None && s.members[ep].listed == Ready
  }

  /** Whether a connection has a place: open pool, sound connection, member in rotation, room. */
  predicate Keepable(opts: Options, s: Pool, id: ConnId)
    requires id in s.links
  {
    !s.closed && !s.links[id].broken && InRotation(s, s.links[id].member) && |s.idle| < opts.maxsize
  }

  lemma UnbumpRotation(members: Members, ep: Ep, o: Ep)
    ensures var r := Unbump(members, ep);
            (o in r <==> o in members) && (o in r ==> (r[o].Usable() <==> members[o].Usable()))
  {}

  /** A returned connection is kept, as the newest idle one, exactly when it has a place; else it is gone. */
  lemma ReturnKept(opts: Options, w: World, id: ConnId)
    requires InHand(w, id)
    ensures var s, t := w.pool, Checkin(opts, w.pool, id);
            && (id in t.idle <==> Keepable(opts, s, id))
            && t.idle == s.idle + (if Keepable(opts, s, id) then [id] else [])
            && (id in t.links <==> Keepable(opts, s, id))
            && (Keepable(opts, s, id) ==> t.links[id] == s.links[id].(out := false))
            && (forall o :: o in s.links && o != id ==> o in t.links && t.links[o] == s.links[o])
  {
    hide Unbump;
    UnbumpRotation(w.pool.members, w.pool.links[id].member, w.pool.links[id].member);
    assert w.pool.idle + [] == w.pool.idle;
  }

  /** Handing a connection out and taking it back leaves the members as they were. */
  lemma ReturnUndoesHandOut(opts: Options, w: World, id: ConnId, key: Key)
    requires InHand(w, id) && !w.pool.links[id].out
    ensures var out := HandOut(w.pool, id, key);
            && out.links[id].out && out.links[id].affinity == key
            && Checkin(opts, out, id).members == w.pool.members
  {
    var s := w.pool;
    var ep := s.links[id].member;
    assert Unbump(Bump(s.members, ep), ep) == s.members;
  }

  /** A connection that reaches another member is sound again and counts as that member's. */
  lemma MovedSound(s: Pool, id: ConnId, ep: Ep)
    requires id in s.links
    ensures var l := Moved(s, id, ep).links[id];
            l.member == ep && !l.broken && l.out == s.links[id].out && l.affinity == s.links[id].affinity
  {
    hide Bump, Unbump;
  }

  /** A link to a member in rotation, at the end of the idle list. */
  ghost predicate Newest(s: Pool, before: seq<ConnId>, id: ConnId, ep: Ep) {
    s.idle == before + [id] && id in s.links && s.links[id].member == ep && InRotation(s, ep)
  }

  lemma WithoutLast(before: seq<ConnId>, id: ConnId, n: nat)
    requires n <= |before|
    ensures Without(before[..n], {|before|}) == before[..n]
    decreases n
  {
    if n > 0 {
      WithoutLast(before, id, n - 1);
      assert before[..n][..n - 1] == before[..n - 1];
      assert before[..n] == before[..n - 1] + [before[n - 1]];
    } else {
      assert before[..0] == [];
    }
  }

  /** Last in, first out: the newest connection that suits is what a take gets, and the rest stays as it was. */
  lemma TakeNewest(opts: Options, s: Pool, before: seq<ConnId>, id: ConnId, ep: Ep, target: Option<Ep>)
    requires Newest(s, before, id, ep) && !opts.fifo && (target == None || target == Some(ep))
    ensures TakeIdle(opts, s, target) == Taken(s.(idle := before), Some(id), {})
  {
    var n := |s.idle|;
    assert ScanAt(false, n, 0) == n - 1 && s.idle[n - 1] == id;
    assert Hit(s, target, id);
    assert FindHit(false, s, target, 0) == Some(0);
    NoneStale(s);
    hide FindHit, StaleBefore, Hit;
    assert {} + {n - 1} == {n - 1};
    WithoutLast(before, id, |before|);
    assert before[..|before|] == before && s.idle[..n - 1] == before;
    assert Without(s.idle, {n - 1}) == before by { assert before + [] == before; }
    assert At(s.idle, {}) == {};
    assert s.links - {} == s.links;
  }

  lemma NoneStale(s: Pool)
    ensures StaleBefore(false, s, 0) == {}
  {}

  /** A returned connection is the next one out. */
  lemma ReturnReused(opts: Options, w: World, id: ConnId, target: Option<Ep>)
    requires InHand(w, id) && Keepable(opts, w.pool, id) && !opts.fifo
    requires target == None || target == Some(w.pool.links[id].member)
    ensures var t := Checkin(opts, w.pool, id);
            TakeIdle(opts, t, target) == Taken(t.(idle := w.pool.idle), Some(id), {})
  {
    ReturnKept(opts, w, id);
    CheckinRotation(opts, w.pool, id);
    hide Checkin, TakeIdle;
    TakeNewest(opts, Checkin(opts, w.pool, id), w.pool.idle, id, w.pool.links[id].member, target);
  }

  lemma CheckinRotation(opts: Options, s: Pool, id: ConnId)
    requires id in s.links && Keepable(opts, s, id)
    ensures InRotation(Checkin(opts, s, id), s.links[id].member)
  {}

  /** So is the connection of a probe that re-admits a ready member, if there is room. */
  lemma ProbeReused(opts: Options, w: World, ep: Ep, id: ConnId, now: nat, target: Option<Ep>)
    requires Enabled(w, Probing(ep, true, id, now)) && !w.pool.closed && !opts.fifo
    requires ep in w.pool.members && w.pool.members[ep].listed == Ready
    requires target == None || target == Some(ep)
    ensures var t := Probed(opts, w.pool, ep, true, id, now);
            && InRotation(t, ep) && (id in t.links <==> |w.pool.idle| < opts.maxsize)
            && t.idle == w.pool.idle + (if |w.pool.idle| < opts.maxsize then [id] else [])
            && (|w.pool.idle| < opts.maxsize ==>
                  t.links[id] == Link(ep, false, None, false)
                  && TakeIdle(opts, t, target) == Taken(t.(idle := w.pool.idle), Some(id), {}))
  {
    hide BackoffFor, TakeIdle;
    var t := Probed(opts, w.pool, ep, true, id, now);
    assert w.pool.idle + [] == w.pool.idle;
    if |w.pool.idle| < opts.maxsize { TakeNewest(opts, t, w.pool.idle, id, ep, target); }
  }

  /** A connection whose transport failed is thrown away on return. */
  lemma BrokenDropped(opts: Options, w: World, id: ConnId)
    requires InHand(w, id)
    ensures var t := Checkin(opts, SetBroken(w.pool, id, true), id);
            id !in t.links && t.idle == w.pool.idle
  {
    hide Unbump;
  }

  // ---- a whole checkout ----

  /** A pool with one member that nothing has used yet. */
  function One(ep: Ep, rr: nat): Pool {
    Pool(map[ep := NewMember(true)], [], rr, map[], false, map[])
  }

  lemma ChooseNothing(opts: Options, ep: Ep, rr: nat, key: Key, now: nat, lucky: nat) returns (r: nat)
    ensures Choose(opts, One(ep, rr), key, now, lucky) == Taken(One(ep, r), None, {})
  {
    var s := One(ep, rr);
    assert PickPinned(opts, s, key, now) == Choice(s, None);
    hide PickPinned, UsableList, NextRr;
    var c := Pick(opts, s, key, now, lucky);
    r := c.pool.rr;
    assert c.pool == One(ep, r);
    hide Pick;
    assert c.pool.links - {} == c.pool.links;
    assert FindHit(opts.fifo, c.pool, c.target, 0) == None;
    assert StaleBefore(opts.fifo, c.pool, 0) == {} && At([], {}) == {};
  }

  /**
    Checked out from a fresh pool, dialed, handed out and returned, a connection is the pool's idle one, and the
    next checkout gets it.
   */
  lemma CheckoutCycle(opts: Options, ep: Ep, id: ConnId, key: Key, lucky: nat) returns (w: World, es: seq<Event>)
    requires opts.maxsize > 0
    ensures Initial(w) && w.pool.members.Keys == {ep} && Runs(opts, w, es)
    ensures var v := Run(opts, w, es).pool;
            && v.idle == [id] && v.links == map[id := Link(ep, false, key, false)] && v.members == w.pool.members
            && TakeIdle(opts, v, Some(ep)).picked == Some(id)
  {
    w := World(One(ep, USIZE_MAX), {}, {}, 0);
    assert ep in w.pool.members;
    es := [Choosing(key, 0, lucky), Dialed(id, ep), HandingOut(id, key), CheckingIn(id)];
    var r := ChooseNothing(opts, ep, USIZE_MAX, key, 0, lucky);
    hide Choose, Bump, Unbump;
    var one := Step(opts, w, es[0]);
    assert one == World(One(ep, r), {}, {}, 0);
    var two := Step(opts, one, es[1]);
    var three := Step(opts, two, es[2]);
    assert three.pool.links == map[id := Link(ep, true, key, false)];
    var four := Step(opts, three, es[3]);
    ReturnKept(opts, three, id);
    ReturnUndoesHandOut(opts, two, id, key);
    HandOutKeepsRotation(two.pool, id, key);
    assert four.pool.links == map[id := Link(ep, false, key, false)];
    FourSteps(opts, w, es, one, two, three, four);
    hide Step, Checkin, HandOut;
    assert four.pool.idle[ScanAt(opts.fifo, 1, 0)] == id;
    assert FindHit(opts.fifo, four.pool, Some(ep), 0) == Some(0);
  }

  lemma HandOutKeepsRotation(s: Pool, id: ConnId, key: Key)
    requires id in s.links && InRotation(s, s.links[id].member)
    ensures InRotation(HandOut(s, id, key), s.links[id].member)
  {}

  lemma FourSteps(opts: Options, w: World, es: seq<Event>, one: World, two: World, three: World, four: World)
    requires |es| == 4
    requires Enabled(w, es[0]) && one == Step(opts, w, es[0]) && Enabled(one, es[1]) && two == Step(opts, one, es[1])
    requires Enabled(two, es[2]) && three == Step(opts, two, es[2])
    requires Enabled(three, es[3]) && four == Step(opts, three, es[3])
    ensures Runs(opts, w, es) && Run(opts, w, es) == four
  {
    hide Step, Enabled;
    assert es[1..][0] == es[1] && es[1..][1..] == es[2..];
    assert es[2..][0] == es[2] && es[2..][1..] == es[3..];
    assert es[3..][0] == es[3] && es[3..][1..] == [];
    assert Runs(opts, three, es[3..]) && Run(opts, three, es[3..]) == four;
    assert Runs(opts, two, es[2..]) && Run(opts, two, es[2..]) == four;
    assert Runs(opts, one, es[1..]) && Run(opts, one, es[1..]) == four;
  }
}
