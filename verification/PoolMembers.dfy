/** One member of a balanced pool, its health, and the ejection backoff. */
module PoolMembers {
  import opened Bytes
  import opened Arithmetic

  /** An endpoint `host:port`. */
  type Ep = Name

  const U32_MAX: nat := 0xFFFF_FFFF

  /** What discovery last said. */
  datatype Listed = Ready | Resyncing | Unreachable | Unlisted

  datatype Member = Member(
    seed: bool,
    canonical: Option<Ep>,
    listed: Listed,
    errors: nat,
    ejectedUntil: Option<nat>,
    ejections: nat,
    readmittedAt: Option<nat>,
    inUse: nat,
    probing: bool
  ) {
    /** New connections may go to it. */
    predicate Usable() {
      ejectedUntil.None? && listed == Ready
    }
  }

  type Members = map<Ep, Member>

  function NewMember(seed: bool): Member {
    Member(seed, None, Ready, 0, None, 0, None, 0, false)
  }

  predicate SomeUsable(members: Members) {
    exists ep :: ep in members && members[ep].Usable()
  }

  predicate OtherUsable(members: Members, ep: Ep) {
    exists o :: o in members && o != ep && members[o].Usable()
  }

  function SaturatingInc(n: nat): nat {
    if n >= U32_MAX then U32_MAX else n + 1
  }

  function SaturatingDec(n: nat): nat {
    if n == 0 then 0 else n - 1
  }

  // ---- backoff ----

  function Pow2(n: nat): (r: nat)
    ensures r > 0
  {
    if n == 0 then 1 else 2 * Pow2(n - 1)
  }

  /** `2u32.saturating_pow(ejections - 1)`. */
  function Doublings(ejections: nat): (r: nat)
    ensures 0 < r <= U32_MAX
  {
    var p := Pow2(SaturatingDec(ejections));
    if p > U32_MAX then U32_MAX else p
  }

  function BackoffFor(base: nat, max: nat, ejections: nat): (d: nat)
    ensures d <= max
  {
    var d := base * Doublings(ejections);
    if d > max then max else d
  }

  lemma {:induction false} Pow2Monotone(m: nat, n: nat)
    requires m <= n
    ensures Pow2(m) <= Pow2(n)
    decreases n - m
  {
    if m < n { Pow2Monotone(m + 1, n); }
  }

  lemma MulMonotone(x: nat, a: nat, b: nat)
    requires a <= b
    ensures x * a <= x * b
  {}

  /** A repeat ejection never lasts less than the one before. */
  lemma BackoffMonotone(base: nat, max: nat, m: nat, n: nat)
    requires m <= n
    ensures BackoffFor(base, max, m) <= BackoffFor(base, max, n)
  {
    Pow2Monotone(SaturatingDec(m), SaturatingDec(n));
    MulMonotone(base, Doublings(m), Doublings(n));
  }

  /** Each repeat doubles the stay until the cap: the n-th lasts `base * 2^(n-1)` unless a cap is hit. */
  lemma BackoffDoubles(base: nat, max: nat, n: nat)
    requires n >= 1 && base * Doublings(n + 1) <= max && Pow2(n) <= U32_MAX
    ensures BackoffFor(base, max, n + 1) == 2 * BackoffFor(base, max, n)
  {
    assert Doublings(n + 1) == 2 * Doublings(n);
    assert base * Doublings(n + 1) == 2 * (base * Doublings(n));
  }

  lemma Pow2Values()
    ensures Pow2(0) == 1 && Pow2(1) == 2 && Pow2(2) == 4 && Pow2(16) == 0x1_0000 && Pow2(31) == 0x8000_0000
    ensures Pow2(32) == 0x1_0000_0000
  {
    assert Pow2(4) == 16 && Pow2(3) == 8;
    assert Pow2(8) == 2 * Pow2(7) && Pow2(7) == 2 * Pow2(6) && Pow2(6) == 2 * Pow2(5);
    assert Pow2(12) == 2 * Pow2(11) && Pow2(11) == 2 * Pow2(10) && Pow2(10) == 2 * Pow2(9);
    assert Pow2(16) == 2 * Pow2(15) && Pow2(15) == 2 * Pow2(14) && Pow2(14) == 2 * Pow2(13);
    assert Pow2(20) == 2 * Pow2(19) && Pow2(19) == 2 * Pow2(18) && Pow2(18) == 2 * Pow2(17);
    assert Pow2(24) == 2 * Pow2(23) && Pow2(23) == 2 * Pow2(22) && Pow2(22) == 2 * Pow2(21);
    assert Pow2(28) == 2 * Pow2(27) && Pow2(27) == 2 * Pow2(26) && Pow2(26) == 2 * Pow2(25);
    assert Pow2(32) == 2 * Pow2(31) && Pow2(31) == 2 * Pow2(30) && Pow2(30) == 2 * Pow2(29);
  }

  /** The n-th ejection lasts `base * 2^(n-1)`, its factor capped as a 32-bit number, and never over `max`. */
  lemma BackoffExact(base: nat, max: nat, n: nat)
    requires n >= 1
    ensures n <= 32 ==> BackoffFor(base, max, n) == Min(max, base * Pow2(n - 1))
    ensures n > 32 ==> BackoffFor(base, max, n) == Min(max, base * 0xFFFF_FFFF)
    ensures BackoffFor(base, max, 1) == Min(max, base)
  {
    Pow2Values();
    if n <= 32 { Pow2Monotone(n - 1, 31); } else { Pow2Monotone(32, n - 1); }
    assert base * Pow2(0) == base;
  }

  /** So no ejection is shorter than the first one. */
  lemma BackoffAtLeast(base: nat, max: nat, n: nat)
    requires n >= 1
    ensures BackoffFor(base, max, n) >= Min(max, base)
  {
    BackoffExact(base, max, 1);
    BackoffMonotone(base, max, 1, n);
  }

  /** A new member is in rotation, with a clean record. */
  lemma NewMemberFresh(seed: bool)
    ensures var m := NewMember(seed);
            && m.seed == seed && m.Usable() && m.listed == Ready && m.ejectedUntil == None && m.canonical == None
            && m.errors == 0 && m.ejections == 0 && m.inUse == 0 && !m.probing && m.readmittedAt == None
  {}
}
