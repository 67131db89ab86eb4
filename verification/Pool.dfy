/**
  The balanced pool as a state machine: one function per critical section (everything the driver does
  between taking and releasing the pool's lock), over the pool's state and the links of live connections.
 */
module Pool {
  import opened Bytes
  import opened SortedNames
  import opened PoolMembers
  import opened Discovery

  type ConnId = nat

  /** An affinity key; `None` is the key of checkouts made without one. */
  type Key = Option<Name>

  datatype Policy = Random | RoundRobin | LeastLatency

  datatype Options = Options(
    maxsize: nat,
    policy: Policy,
    fifo: bool,
    window: nat,
    ejectErrors: nat,
    backoff: nat,
    backoffMax: nat
  )

  const AFFINITY_CAP: nat := 4096
  const USIZE_MAX: nat := 0xFFFF_FFFF_FFFF_FFFF

  /** A pooled connection's tie to the pool. */
  datatype Link = Link(member: Ep, out: bool, affinity: Key, broken: bool)

  /** Read-your-writes: the member that took a write, and when the window ends. */
  datatype Pin = Pin(ep: Ep, until: nat)

  datatype Pool = Pool(
    members: Members,
    idle: seq<ConnId>,
    rr: nat,
    affinity: map<Key, Pin>,
    closed: bool,
    links: map<ConnId, Link>
  )

  // ---- choosing a member ----

  ghost function Filtered(order: seq<Ep>, members: Members): (r: seq<Ep>)
    ensures forall ep :: ep in r <==> ep in order && ep in members && members[ep].Usable()
  {
    if order == [] then []
    else
      var ep := order[|order| - 1];
      Filtered(order[..|order| - 1], members) + (if ep in members && members[ep].Usable() then [ep] else [])
  }

  /** The usable members in endpoint order. */
  ghost function UsableList(members: Members): (r: seq<Ep>)
    ensures forall ep :: ep in r <==> ep in members && members[ep].Usable()
  {
    Filtered(SortedKeys(members.Keys), members)
  }

  function NextRr(rr: nat, n: nat): (r: nat)
    requires n > 0
    ensures r < n
  {
    (if rr >= USIZE_MAX then 0 else rr + 1) % n
  }

  datatype Choice = Choice(pool: Pool, target: Option<Ep>)

  /** The affinity part of `pick`: a live pin to a usable member wins, a dead one is forgotten. */
  function PickPinned(opts: Options, s: Pool, key: Key, now: nat): Choice {
    if opts.window == 0 || key !in s.affinity then Choice(s, None)
    else
      var pin := s.affinity[key];
      if pin.ep in s.members && now < pin.until then
        Choice(s, if s.members[pin.ep].Usable() then Some(pin.ep) else None)
      else Choice(s.(affinity := s.affinity - {key}), None)
  }

  /** `pick`; `lucky` stands for the random draws and latency scores of the least-latency policy. */
  ghost function Pick(opts: Options, s: Pool, key: Key, now: nat, lucky: nat): Choice {
    var c := PickPinned(opts, s, key, now);
    if c.target.Some? || opts.policy == Random then c
    else
      var usable := UsableList(c.pool.members);
      if usable == [] then c
      else if opts.policy == RoundRobin then
        var rr := NextRr(c.pool.rr, |usable|);
        Choice(c.pool.(rr := rr), Some(usable[rr]))
      else Choice(c.pool, Some(usable[lucky % |usable|]))
  }

  // ---- taking an idle connection ----

  predicate ConnUsable(s: Pool, id: ConnId) {
    id in s.links && s.links[id].member in s.members && s.members[s.links[id].member].Usable()
  }

  predicate Hit(s: Pool, target: Option<Ep>, id: ConnId) {
    ConnUsable(s, id) && (target.None? || target.value == s.links[id].member)
  }

  /** The k-th idle index looked at (and, being an involution, when an index is looked at). */
  function ScanAt(fifo: bool, n: nat, k: nat): (i: nat)
    requires k < n
    ensures i < n && (if fifo then i == k else i == n - 1 - k)
  {
    if fifo then k else n - 1 - k
  }

  /** The first scan position from `k` on that hits. */
  function FindHit(fifo: bool, s: Pool, target: Option<Ep>, k: nat): (r: Option<nat>)
    requires k <= |s.idle|
    ensures r.Some? ==> k <= r.value < |s.idle| && Hit(s, target, s.idle[ScanAt(fifo, |s.idle|, r.value)])
    ensures forall j :: k <= j < (if r.Some? then r.value else |s.idle|) ==>
              !Hit(s, target, s.idle[ScanAt(fifo, |s.idle|, j)])
    decreases |s.idle| - k
  {
    if k == |s.idle| then None
    else if Hit(s, target, s.idle[ScanAt(fifo, |s.idle|, k)]) then Some(k)
    else FindHit(fifo, s, target, k + 1)
  }

  /** Indices scanned before `limit` whose member is no longer usable. */
  function StaleBefore(fifo: bool, s: Pool, limit: nat): set<nat>
    requires limit <= |s.idle|
  {
    set i | 0 <= i < |s.idle| && ScanAt(fifo, |s.idle|, i) < limit && !ConnUsable(s, s.idle[i])
  }

  /** The elements at indices outside `gone`, in order. */
  function Without(idle: seq<ConnId>, gone: set<nat>): seq<ConnId> {
    if idle == [] then []
    else Without(idle[..|idle| - 1], gone) + (if |idle| - 1 in gone then [] else [idle[|idle| - 1]])
  }

  function At(idle: seq<ConnId>, gone: set<nat>): set<ConnId> {
    set i | i in gone && i < |idle| :: idle[i]
  }

  datatype Taken = Taken(pool: Pool, picked: Option<ConnId>, dropped: set<ConnId>)

  function TakeIdle(opts: Options, s: Pool, target: Option<Ep>): Taken {
    var n := |s.idle|;
    var k := FindHit(opts.fifo, s, target, 0);
    var stale := StaleBefore(opts.fifo, s, if k.Some? then k.value else n);
    var found := if k.Some? then {ScanAt(opts.fifo, n, k.value)} else {};
    var dropped := At(s.idle, stale);
    Taken(s.(idle := Without(s.idle, stale + found), links := s.links - dropped),
          if k.Some? then Some(s.idle[ScanAt(opts.fifo, n, k.value)]) else None,
          dropped)
  }

  // ---- checkout and return ----

  /** The first critical section of a checkout. */
  ghost function Choose(opts: Options, s: Pool, key: Key, now: nat, lucky: nat): Taken {
    if s.closed then Taken(s, None, {})
    else
      var c := Pick(opts, s, key, now, lucky);
      TakeIdle(opts, c.pool, c.target)
  }

  function Bump(members: Members, ep: Ep): Members {
    if ep in members then members[ep := members[ep].(inUse := members[ep].inUse + 1)] else members
  }

  function Unbump(members: Members, ep: Ep): Members {
    if ep in members then members[ep := members[ep].(inUse := SaturatingDec(members[ep].inUse))] else members
  }

  /** The last critical section of a checkout: the connection is out. */
  function HandOut(s: Pool, id: ConnId, key: Key): Pool
    requires id in s.links
  {
    var l := s.links[id];
    s.(members := Bump(s.members, l.member), links := s.links[id := l.(out := true, affinity := key)])
  }

  function Checkin(opts: Options, s: Pool, id: ConnId): Pool
    requires id in s.links
  {
    var l := s.links[id];
    var members := if l.out then Unbump(s.members, l.member) else s.members;
    var keep := !s.closed && !l.broken && l.member in members && members[l.member].Usable() && |s.idle| < opts.maxsize;
    if keep then s.(members := members, idle := s.idle + [id], links := s.links[id := l.(out := false)])
    else s.(members := members, links := s.links - {id})
  }

  /** A connection dropped instead of returned. */
  function DropConn(s: Pool, id: ConnId): Pool
    requires id in s.links
  {
    var l := s.links[id];
    s.(members := if l.out then Unbump(s.members, l.member) else s.members, links := s.links - {id})
  }

  function Close(s: Pool): Pool {
    s.(closed := true, idle := [], links := s.links - (set i | 0 <= i < |s.idle| :: s.idle[i]))
  }

  // ---- what connections report ----

  /** The connection reached `ep`: a re-dial mid-checkout moves its count. */
  function Reattribute(s: Pool, id: ConnId, ep: Ep): Pool
    requires id in s.links
  {
    var l := s.links[id];
    if l.member == ep then s
    else s.(members := if l.out then Bump(Unbump(s.members, l.member), ep) else s.members,
            links := s.links[id := l.(member := ep)])
  }

  function SetBroken(s: Pool, id: ConnId, broken: bool): Pool
    requires id in s.links
  {
    s.(links := s.links[id := s.links[id].(broken := broken)])
  }

  function Moved(s: Pool, id: ConnId, ep: Ep): Pool
    requires id in s.links
  {
    Reattribute(SetBroken(s, id, false), id, ep)
  }

  /** Take `ep` out of rotation unless it is the last usable member. */
  function Eject(opts: Options, members: Members, ep: Ep, now: nat): Members {
    if !OtherUsable(members, ep) || ep !in members then members
    else
      var m := members[ep];
      var quiet := m.readmittedAt.None? || now - m.readmittedAt.value > opts.backoffMax;
      var n := SaturatingInc(if quiet then 0 else m.ejections);
      members[ep := m.(ejections := n, ejectedUntil := Some(now + BackoffFor(opts.backoff, opts.backoffMax, n)))]
  }

  /** A round trip on `ep` ended; `slow` is the verdict of the latency averages. */
  function RoundTrip(opts: Options, s: Pool, id: ConnId, ep: Ep, slow: bool, now: nat): Pool
    requires id in s.links
  {
    var t := Reattribute(SetBroken(s, id, false), id, ep);
    if ep !in t.members then t
    else
      var members := t.members[ep := t.members[ep].(errors := 0)];
      t.(members := if slow && members[ep].Usable() then Eject(opts, members, ep, now) else members)
  }

  function Failed(opts: Options, s: Pool, ep: Ep, now: nat): Pool {
    if ep !in s.members then s
    else
      var m := s.members[ep].(errors := SaturatingInc(s.members[ep].errors));
      var members := s.members[ep := m];
      var out := m.errors >= opts.ejectErrors && m.ejectedUntil.None?;
      s.(members := if out then Eject(opts, members, ep, now) else members)
  }

  /** Expired pins are swept once the table is full. */
  function Wrote(opts: Options, s: Pool, key: Key, ep: Ep, now: nat): Pool {
    var pins := if |s.affinity| >= AFFINITY_CAP
      then map k | k in s.affinity && s.affinity[k].until > now :: s.affinity[k] else s.affinity;
    s.(affinity := pins[key := Pin(ep, now + opts.window)])
  }

  // ---- re-admission ----

  predicate Due(m: Member, now: nat) {
    m.ejectedUntil.Some? && now >= m.ejectedUntil.value && !m.probing
  }

  function DueMembers(members: Members, now: nat): set<Ep> {
    set ep | ep in members && Due(members[ep], now)
  }

  /** One pass of the background thread marks the members it will probe. */
  function Tick(s: Pool, now: nat): Pool {
    if s.closed then s
    else s.(members := map ep | ep in s.members ::
              if Due(s.members[ep], now) then s.members[ep].(probing := true) else s.members[ep])
  }

  /** A probe of `ep` ended; on success its connection `id` joins the idle set if there is room. */
  function Probed(opts: Options, s: Pool, ep: Ep, ok: bool, id: ConnId, now: nat): Pool {
    if ep !in s.members then s
    else
      var m := s.members[ep].(probing := false);
      if ok && !s.closed then
        var t := s.(members := s.members[ep := m.(ejectedUntil := None, errors := 0, readmittedAt := Some(now))]);
        if |s.idle| < opts.maxsize
        then t.(idle := t.idle + [id], links := t.links[id := Link(ep, false, None, false)]) else t
      else
        var n := SaturatingInc(m.ejections);
        s.(members := s.members[ep := m.(ejections := n,
             ejectedUntil := Some(now + BackoffFor(opts.backoff, opts.backoffMax, n)))])
  }

  // ---- runs ----

  datatype Event =
    | Choosing(key: Key, now: nat, lucky: nat)
    | Dialed(id: ConnId, ep: Ep)
    | HandingOut(id: ConnId, key: Key)
    | CheckingIn(id: ConnId)
    | Dropping(id: ConnId)
    | Moving(id: ConnId, ep: Ep)
    | RoundTripping(id: ConnId, ep: Ep, slow: bool, now: nat)
    | Breaking(id: ConnId)
    | Failing(ep: Ep, now: nat)
    | Writing(key: Key, ep: Ep, now: nat)
    | Ticking(now: nat)
    | Probing(ep: Ep, ok: bool, id: ConnId, now: nat)
    | Folding(dialed: Ep, rows: seq<Row>)
    | Closing

  /**
    The pool with the history its theorems speak of: endpoints some listing removed, members with a
    probe in flight, and the latest clock reading so far.
   */
  datatype World = World(pool: Pool, removed: set<Ep>, inFlight: set<Ep>, clock: nat)

  /** Endpoints that are or were members: the only ones a dial order ever names. */
  function Ever(w: World): set<Ep> {
    w.pool.members.Keys + w.removed
  }

  /** A live connection in some caller's hands. */
  predicate InHand(w: World, id: ConnId) {
    id in w.pool.links && id !in w.pool.idle
  }

  /** Clock readings made under the lock are in lock order; `Writing` and `Ticking` read theirs before it. */
  predicate Enabled(w: World, e: Event) {
    match e
    case Choosing(_, now, _) => now >= w.clock
    case Dialed(id, ep) => id !in w.pool.links && ep in Ever(w)
    case HandingOut(id, _) => InHand(w, id) && !w.pool.links[id].out
    case CheckingIn(id) => InHand(w, id)
    case Dropping(id) => InHand(w, id)
    case Moving(id, ep) => InHand(w, id) && ep in Ever(w)
    case RoundTripping(id, ep, _, now) => InHand(w, id) && ep in Ever(w) && now >= w.clock
    case Breaking(id) => InHand(w, id)
    case Failing(_, now) => now >= w.clock
    case Writing(_, _, _) => true
    case Ticking(_) => true
    case Probing(ep, _, id, now) => ep in w.inFlight && id !in w.pool.links && now >= w.clock
    case Folding(_, _) => true
    case Closing => true
  }

  function Max(a: nat, b: nat): nat {
    if a < b then b else a
  }

  function Clock(w: World, e: Event): nat {
    match e
    case Choosing(_, now, _) => now
    case RoundTripping(_, _, _, now) => now
    case Failing(_, now) => now
    case Writing(_, _, now) => Max(w.clock, now)
    case Ticking(now) => Max(w.clock, now)
    case Probing(_, _, _, now) => now
    case _ => w.clock
  }

  /** An event about a connection is about a live one. */
  predicate Concerns(s: Pool, e: Event) {
    (e.HandingOut? || e.CheckingIn? || e.Dropping? || e.Moving? || e.RoundTripping? || e.Breaking?) ==>
      e.id in s.links
  }

  ghost function Next(opts: Options, s: Pool, e: Event): Pool
    requires Concerns(s, e)
  {
    match e
    case Choosing(key, now, lucky) => Choose(opts, s, key, now, lucky).pool
    case Dialed(id, ep) => s.(links := s.links[id := Link(ep, false, None, false)])
    case HandingOut(id, key) => HandOut(s, id, key)
    case CheckingIn(id) => Checkin(opts, s, id)
    case Dropping(id) => DropConn(s, id)
    case Moving(id, ep) => Moved(s, id, ep)
    case RoundTripping(id, ep, slow, now) => RoundTrip(opts, s, id, ep, slow, now)
    case Breaking(id) => SetBroken(s, id, true)
    case Failing(ep, now) => Failed(opts, s, ep, now)
    case Writing(key, ep, now) => Wrote(opts, s, key, ep, now)
    case Ticking(now) => Tick(s, now)
    case Probing(ep, ok, id, now) => Probed(opts, s, ep, ok, id, now)
    case Folding(dialed, rows) => s.(members := Folded(s.members, dialed, rows))
    case Closing => Close(s)
  }

  ghost function Step(opts: Options, w: World, e: Event): World
    requires Enabled(w, e)
  {
    World(
      Next(opts, w.pool, e),
      if e.Folding? then w.removed + RemovedBy(w.pool.members, e.dialed, e.rows) else w.removed,
      if e.Ticking? && !w.pool.closed then w.inFlight + DueMembers(w.pool.members, e.now)
      else if e.Probing? then w.inFlight - {e.ep} else w.inFlight,
      Clock(w, e))
  }

  /** The events can happen one after the other. */
  ghost predicate Runs(opts: Options, w: World, es: seq<Event>)
    decreases |es|
  {
    es == [] || (Enabled(w, es[0]) && Runs(opts, Step(opts, w, es[0]), es[1..]))
  }

  ghost function Run(opts: Options, w: World, es: seq<Event>): World
    requires Runs(opts, w, es)
    decreases |es|
  {
    if es == [] then w else Run(opts, Step(opts, w, es[0]), es[1..])
  }

  /** A freshly built pool: the seeds, nothing dialed. */
  ghost predicate Initial(w: World) {
    && w.pool.idle == [] && w.pool.links == map[] && w.pool.affinity == map[] && !w.pool.closed
    && w.pool.rr == USIZE_MAX && w.removed == {} && w.inFlight == {}
    && w.pool.members != map[]
    && forall ep :: ep in w.pool.members ==> w.pool.members[ep] == NewMember(true)
  }
}
