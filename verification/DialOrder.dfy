/** The order in which a checkout or a re-dial tries the members. */
module DialOrder {
  import opened Bytes
  import opened SortedNames
  import opened PoolMembers
  import opened Sequences

  // ---- shuffling ----

  function Swapped<T>(s: seq<T>, i: nat, j: nat): (r: seq<T>)
    requires i < |s| && j < |s|
    ensures |r| == |s|
  {
    s[i := s[j]][j := s[i]]
  }

  /** Fisher-Yates: settle the last position, then the ones before it; `draw(i)` is the random word for position `i`. */
  function Shuffled<T>(s: seq<T>, draw: nat -> nat): (r: seq<T>)
    ensures |r| == |s|
    decreases |s|
  {
    if |s| <= 1 then s
    else
      var last := |s| - 1;
      var u := Swapped(s, last, draw(last) % |s|);
      Shuffled(u[..last], draw) + [u[last]]
  }

  lemma ShuffledStep<T>(s: seq<T>, draw: nat -> nat, tail: seq<T>)
    requires |s| > 1
    ensures var u := Swapped(s, |s| - 1, draw(|s| - 1) % |s|);
            Shuffled(s, draw) + tail == Shuffled(u[..|s| - 1], draw) + ([u[|s| - 1]] + tail)
  {
    hide Swapped;
    var u := Swapped(s, |s| - 1, draw(|s| - 1) % |s|);
    Assoc(Shuffled(u[..|s| - 1], draw), [u[|s| - 1]], tail);
  }

  lemma ShuffledShort<T>(s: seq<T>, draw: nat -> nat)
    requires |s| <= 1
    ensures Shuffled(s, draw) == s
  {}

  /** Settling position `last` in the whole sequence is settling it in the part still open. */
  lemma SwapSlices<T>(whole: seq<T>, last: nat, j: nat)
    requires j <= last < |whole|
    ensures var r, u := Swapped(whole, last, j), Swapped(whole[..last + 1], last, j);
            r[..last] == u[..last] && r[last..] == [u[last]] + whole[last + 1..]
  {}

  method SwapAt<T>(a: array<T>, i: nat, j: nat)
    requires i < a.Length && j < a.Length
    modifies a
    ensures a[..] == Swapped(old(a[..]), i, j)
  {
    a[i], a[j] := a[j], a[i];
  }

  method Shuffle<T>(a: array<T>, draw: nat -> nat)
    modifies a
    ensures a[..] == Shuffled(old(a[..]), draw)
  {
    hide Shuffled, Swapped;
    var n := a.Length;
    assert a[..][..n] == a[..] && a[..][n..] == [] && Shuffled(a[..], draw) + [] == Shuffled(a[..], draw);
    while n > 1
      invariant 0 <= n <= a.Length
      invariant Shuffled(a[..][..n], draw) + a[..][n..] == Shuffled(old(a[..]), draw)
    {
      var last := n - 1;
      var j := draw(last) % n;
      ghost var whole := a[..];
      ShuffledStep(whole[..n], draw, whole[n..]);
      SwapSlices(whole, last, j);
      SwapAt(a, last, j);
      n := last;
    }
    ShuffledShort(a[..][..n], draw);
    assert a[..] == a[..][..n] + a[..][n..];
  }

  lemma SwappedSame<T>(s: seq<T>, i: nat, j: nat)
    requires i < |s| && j < |s|
    ensures multiset(Swapped(s, i, j)) == multiset(s)
  {}

  /** A shuffle loses and repeats nothing. */
  lemma {:induction false} ShuffledPermutes<T>(s: seq<T>, draw: nat -> nat)
    ensures multiset(Shuffled(s, draw)) == multiset(s)
    decreases |s|
  {
    hide Shuffled, Swapped;
    if |s| <= 1 {
      ShuffledShort(s, draw);
    } else {
      var last := |s| - 1;
      var j := draw(last) % |s|;
      SwappedSame(s, last, j);
      var u := Swapped(s, last, j);
      ShuffledPermutes(u[..last], draw);
      assert u == u[..last] + [u[last]];
      ShuffledStep(s, draw, []);
      assert Shuffled(s, draw) + [] == Shuffled(s, draw) && [u[last]] + [] == [u[last]];
    }
  }

  lemma {:induction false} ShuffledAgree<T>(s: seq<T>, d: nat -> nat, e: nat -> nat)
    requires forall i :: 0 <= i < |s| ==> d(i) == e(i)
    ensures Shuffled(s, d) == Shuffled(s, e)
    decreases |s|
  {
    if |s| > 1 { ShuffledAgree(Swapped(s, |s| - 1, d(|s| - 1) % |s|)[..|s| - 1], d, e); }
  }

  lemma Find<T>(a: seq<T>, b: seq<T>, i: nat) returns (j: nat)
    requires multiset(a) == multiset(b) && i < |b|
    ensures j < |a| && a[j] == b[i]
  {
    assert b[i] in multiset(a);
    j :| 0 <= j < |a| && a[j] == b[i];
  }

  lemma CancelLast<T>(a: seq<T>, b: seq<T>, x: T)
    requires multiset(a + [x]) == multiset(b + [x])
    ensures multiset(a) == multiset(b)
  {
    assert multiset(a) == multiset(a + [x]) - multiset{x};
    assert multiset(b) == multiset(b + [x]) - multiset{x};
  }

  lemma SmallMod(j: nat, n: nat)
    requires j < n
    ensures j % n == j
  {}

  /** One swap brings the last element of `t` into place. */
  lemma SettleLast<T>(s: seq<T>, t: seq<T>) returns (j: nat)
    requires multiset(s) == multiset(t) && |s| == |t| > 1
    ensures j < |s|
    ensures var u, last := Swapped(s, |s| - 1, j), |s| - 1;
            u[last] == t[last] && multiset(u[..last]) == multiset(t[..last])
  {
    var last := |s| - 1;
    j := Find(s, t, last);
    var u := Swapped(s, last, j);
    SwappedSame(s, last, j);
    assert u[last] == t[last];
    hide Swapped;
    assert u == u[..last] + [t[last]] && t == t[..last] + [t[last]];
    CancelLast(u[..last], t[..last], t[last]);
  }

  /** Every order of the elements comes out of some draws. */
  lemma {:induction false} ShuffledReaches<T>(s: seq<T>, t: seq<T>) returns (draw: nat -> nat)
    requires multiset(s) == multiset(t)
    ensures Shuffled(s, draw) == t
    decreases |s|
  {
    hide Shuffled, Swapped;
    SameSize(s, t);
    if |s| <= 1 {
      draw := i => 0;
      ShuffledShort(s, draw);
      if |s| == 1 { var _ := Find(s, t, 0); }
    } else {
      var last := |s| - 1;
      var j := SettleLast(s, t);
      var u := Swapped(s, last, j);
      var d := ShuffledReaches(u[..last], t[..last]);
      draw := i => if i == last then j else d(i);
      ShuffledAgree(u[..last], draw, d);
      SmallMod(j, |s|);
      ShuffledStep(s, draw, []);
      assert Shuffled(s, draw) + [] == Shuffled(s, draw) && [u[last]] + [] == [t[last]];
      assert t == t[..last] + [t[last]];
    }
  }

  lemma SameSize<T>(s: seq<T>, t: seq<T>)
    requires multiset(s) == multiset(t)
    ensures |s| == |t|
  {
    assert |multiset(s)| == |s| && |multiset(t)| == |t|;
  }

  // ---- the dial order ----

  /** The target, then usable members, then resyncing or unreachable ones, then ejected ones by deadline. */
  function Rank(members: Members, first: Option<Ep>, ep: Ep): nat
    requires ep in members
  {
    if first == Some(ep) then 0
    else if members[ep].Usable() then 1
    else match members[ep].ejectedUntil
      case None => 2
      case Some(deadline) => 3 + deadline
  }

  /** `a` may be tried before `b`: members out of rotation that tie go in endpoint order. */
  ghost predicate Before(members: Members, first: Option<Ep>, a: Ep, b: Ep) {
    a in members && b in members
    && var (x, y) := (Rank(members, first, a), Rank(members, first, b));
       x < y || (x == y && (x == 1 || Cmp(a, b) == Less))
  }

  ghost predicate InOrder(members: Members, first: Option<Ep>, eps: seq<Ep>) {
    forall i, j :: 0 <= i < j < |eps| ==> Before(members, first, eps[i], eps[j])
  }

  /** Every member once, in rank order, except that `exclude` goes last. */
  ghost predicate IsDialOrder(members: Members, first: Option<Ep>, exclude: Option<Ep>, eps: seq<Ep>) {
    && NoDup(eps) && (forall ep :: ep in eps <==> ep in members)
    && if exclude.Some? && exclude.value in members
       then eps[|eps| - 1] == exclude.value && InOrder(members, first, eps[..|eps| - 1])
       else InOrder(members, first, eps)
  }

  /**
    What a dial order with nothing excluded says: the target first; then members in rotation; then those out of it
    but not ejected; then the ejected ones, soonest deadline first.
   */
  lemma DialOrderMeans(members: Members, first: Option<Ep>, eps: seq<Ep>, i: nat, j: nat)
    requires IsDialOrder(members, first, None, eps) && i < j < |eps|
    requires first.Some? ==> first.value in members
    ensures first.Some? ==> eps[0] == first.value && eps[j] != first.value
    ensures eps[i] in members && eps[j] in members
    ensures members[eps[j]].Usable() ==> members[eps[i]].Usable() || first == Some(eps[i])
    ensures members[eps[i]].ejectedUntil.Some? && first != Some(eps[i]) ==>
              members[eps[j]].ejectedUntil.Some?
              && members[eps[i]].ejectedUntil.value <= members[eps[j]].ejectedUntil.value
  {
    assert Before(members, first, eps[i], eps[j]);
    assert eps[i] in eps && eps[j] in eps;
    forall k | 0 < k < |eps| ensures first != Some(eps[k]) {
      assert Before(members, first, eps[0], eps[k]);
      CmpEqual(eps[0], eps[k]);
    }
    if first.Some? { assert first.value in eps; }
  }

  /** With one excluded it is last, and the others are in that order. */
  lemma ExcludedLast(members: Members, first: Option<Ep>, x: Ep, eps: seq<Ep>)
    requires IsDialOrder(members, first, Some(x), eps) && x in members
    ensures eps != [] && eps[|eps| - 1] == x && x !in eps[..|eps| - 1] && |eps| == |members|
    ensures InOrder(members, first, eps[..|eps| - 1])
  {
    assert x in eps;
    NoDupCount(eps, members.Keys);
    forall i | 0 <= i < |eps| - 1 ensures eps[i] != x {}
  }

  lemma {:induction false} NoDupCount(eps: seq<Ep>, names: set<Ep>)
    requires NoDup(eps) && forall ep :: ep in eps <==> ep in names
    ensures |eps| == |names|
    decreases |eps|
  {
    if eps == [] {
      assert names == {};
    } else {
      var n := |eps| - 1;
      assert eps[n] in eps;
      forall ep ensures ep in eps[..n] <==> ep in names - {eps[n]} {
        if ep in names - {eps[n]} {
          var i :| 0 <= i < |eps| && eps[i] == ep;
          assert eps[..n][i] == ep;
        }
      }
      NoDupCount(eps[..n], names - {eps[n]});
    }
  }

  ghost predicate OutOfRotation(members: Members, first: Option<Ep>, eps: seq<Ep>) {
    forall ep :: ep in eps ==> ep in members && first != Some(ep) && !members[ep].Usable()
  }

  /** Where the stable sort puts `x` among `r`. */
  method Slot(members: Members, first: Option<Ep>, r: seq<Ep>, x: Ep) returns (k: nat)
    requires OutOfRotation(members, first, r) && OutOfRotation(members, first, [x]) && InOrder(members, first, r)
    requires forall j :: 0 <= j < |r| ==> Cmp(r[j], x) == Less
    ensures k <= |r|
    ensures forall j :: 0 <= j < k ==> Before(members, first, r[j], x)
    ensures forall j :: k <= j < |r| ==> Before(members, first, x, r[j])
  {
    hide Cmp;
    assert x in [x];
    k := |r|;
    while k > 0 && Rank(members, first, r[k - 1]) > Rank(members, first, x)
      invariant 0 <= k <= |r|
      invariant forall j :: k <= j < |r| ==> Before(members, first, x, r[j])
    {
      assert r[k - 1] in r;
      k := k - 1;
    }
    forall j | 0 <= j < k ensures Before(members, first, r[j], x) {
      assert r[j] in r && r[k - 1] in r;
      assert j < k - 1 ==> Before(members, first, r[j], r[k - 1]);
    }
  }

  /** The stable sort; `rest` arrives in endpoint order. */
  method SortRest(members: Members, first: Option<Ep>, rest: seq<Ep>) returns (r: seq<Ep>)
    requires Ascending(rest) && OutOfRotation(members, first, rest)
    ensures InOrder(members, first, r) && forall ep :: ep in r <==> ep in rest
  {
    r := [];
    for i := 0 to |rest|
      invariant InOrder(members, first, r) && forall ep :: ep in r <==> ep in rest[..i]
    {
      hide InOrder, Before;
      var x := rest[i];
      assert x in rest && forall ep :: ep in r ==> ep in rest;
      forall j | 0 <= j < |r| ensures Cmp(r[j], x) == Less { EarlierLess(rest, i, r, j); }
      var k := Slot(members, first, r, x);
      InsertInOrder(members, first, r, x, k);
      assert rest[..i + 1] == rest[..i] + [x];
      assert forall ep :: ep in r <==> ep in r[..k] || ep in r[k..] by { assert r == r[..k] + r[k..]; }
      r := r[..k] + [x] + r[k..];
    }
    assert rest[..|rest|] == rest;
  }

  lemma InsertInOrder(members: Members, first: Option<Ep>, r: seq<Ep>, x: Ep, k: nat)
    requires k <= |r| && x in members && InOrder(members, first, r)
    requires forall j :: 0 <= j < k ==> Before(members, first, r[j], x)
    requires forall j :: k <= j < |r| ==> Before(members, first, x, r[j])
    ensures InOrder(members, first, r[..k] + [x] + r[k..])
  {
    hide Before;
  }

  lemma JoinInOrder(members: Members, first: Option<Ep>, a: seq<Ep>, b: seq<Ep>)
    requires InOrder(members, first, a) && InOrder(members, first, b)
    requires forall i, j :: 0 <= i < |a| && 0 <= j < |b| ==> Before(members, first, a[i], b[j])
    ensures InOrder(members, first, a + b)
  {
    hide Before;
    var c := a + b;
    forall i, j | 0 <= i < j < |c| ensures Before(members, first, c[i], c[j]) {
      if j < |a| {
      } else if i < |a| {
        assert c[j] == b[j - |a|];
      } else {
        assert c[i] == b[i - |a|] && c[j] == b[j - |a|];
      }
    }
  }

  ghost predicate PartOf(order: seq<Ep>, wanted: set<Ep>, part: seq<Ep>) {
    Ascending(part) && forall ep :: ep in part <==> ep in order && ep in wanted
  }

  lemma PartStep(order: seq<Ep>, i: nat, wanted: set<Ep>, part: seq<Ep>)
    requires Ascending(order) && i < |order| && PartOf(order[..i], wanted, part)
    ensures PartOf(order[..i + 1], wanted, if order[i] in wanted then part + [order[i]] else part)
  {
    forall k | 0 <= k < |part| ensures Cmp(part[k], order[i]) == Less { EarlierLess(order, i, part, k); }
    assert order[..i + 1] == order[..i] + [order[i]];
  }

  ghost function UsableBut(members: Members, first: Option<Ep>): set<Ep> {
    set ep | ep in members && first != Some(ep) && members[ep].Usable()
  }

  ghost function RestBut(members: Members, first: Option<Ep>): set<Ep> {
    set ep | ep in members && first != Some(ep) && !members[ep].Usable()
  }

  /** Splits the members other than `first`, in endpoint order. */
  method Split(members: Members, first: Option<Ep>) returns (usable: seq<Ep>, rest: seq<Ep>)
    ensures Ascending(usable) && (forall ep :: ep in usable <==> ep in UsableBut(members, first))
    ensures Ascending(rest) && (forall ep :: ep in rest <==> ep in RestBut(members, first))
  {
    var order := KeysInOrder(members.Keys);
    usable, rest := [], [];
    assert PartOf(order[..0], UsableBut(members, first), []) && PartOf(order[..0], RestBut(members, first), []);
    hide PartOf;
    for i := 0 to |order|
      invariant PartOf(order[..i], UsableBut(members, first), usable)
      invariant PartOf(order[..i], RestBut(members, first), rest)
    {
      var ep := order[i];
      assert ep in order;
      PartStep(order, i, UsableBut(members, first), usable);
      PartStep(order, i, RestBut(members, first), rest);
      if first != Some(ep) {
        if members[ep].Usable() { usable := usable + [ep]; } else { rest := rest + [ep]; }
      }
    }
    assert order[..|order|] == order;
    PartAll(members.Keys, order, UsableBut(members, first), usable);
    PartAll(members.Keys, order, RestBut(members, first), rest);
  }

  lemma PartAll(names: set<Ep>, order: seq<Ep>, wanted: set<Ep>, part: seq<Ep>)
    requires PartOf(order, wanted, part) && wanted <= names && forall ep :: ep in order <==> ep in names
    ensures Ascending(part) && forall ep :: ep in part <==> ep in wanted
  {}

  lemma EarlierLess(order: seq<Ep>, i: nat, part: seq<Ep>, k: nat)
    requires Ascending(order) && i < |order| && k < |part| && forall ep :: ep in part ==> ep in order[..i]
    ensures Cmp(part[k], order[i]) == Less
  {
    assert part[k] in order[..i];
    var p :| 0 <= p < i && order[p] == part[k];
  }

  lemma AscendingNoDup(eps: seq<Ep>)
    requires Ascending(eps)
    ensures NoDup(eps)
  {
    forall i, j | 0 <= i < j < |eps| ensures eps[i] != eps[j] { CmpEqual(eps[i], eps[j]); }
  }

  lemma {:induction false} NoDupMultiset(a: seq<Ep>)
    ensures NoDup(a) <==> forall ep :: multiset(a)[ep] <= 1
  {
    if a != [] {
      var b, x := a[..|a| - 1], a[|a| - 1];
      assert a == b + [x];
      NoDupMultiset(b);
      if NoDup(a) {
        assert NoDup(b);
        assert x !in b;
        assert x !in multiset(b);
      } else if NoDup(b) {
        var i, j :| 0 <= i < j < |a| && a[i] == a[j];
        assert j == |b| && b[i] == x;
        assert multiset(a)[x] == multiset(b)[x] + 1;
        assert x in multiset(b);
      } else {
        var ep :| multiset(b)[ep] > 1;
        assert multiset(a)[ep] > 1;
      }
    }
  }

  lemma ShuffledNoDup(s: seq<Ep>, draw: nat -> nat)
    requires NoDup(s)
    ensures var r := Shuffled(s, draw); NoDup(r) && forall ep :: ep in r <==> ep in s
  {
    var r := Shuffled(s, draw);
    ShuffledPermutes(s, draw);
    hide Shuffled;
    NoDupMultiset(s);
    NoDupMultiset(r);
    assert forall ep :: ep in r <==> ep in multiset(r);
    assert forall ep :: ep in s <==> ep in multiset(s);
  }

  /** Target, shuffled usable members and sorted rest make a dial order with nothing excluded. */
  lemma Assembled(members: Members, first: Option<Ep>, usable: seq<Ep>, rest: seq<Ep>)
    requires first.Some? ==> first.value in members
    requires NoDup(usable) && InOrder(members, first, rest)
    requires forall ep :: ep in usable <==> ep in UsableBut(members, first)
    requires forall ep :: ep in rest <==> ep in RestBut(members, first)
    ensures var head := if first.Some? then [first.value] else [];
            InOrder(members, first, head + usable + rest)
            && forall ep :: ep in head + usable + rest <==> ep in members
  {
    var head := if first.Some? then [first.value] else [];
    forall i | 0 <= i < |usable| ensures Before(members, first, usable[i], usable[i]) { assert usable[i] in usable; }
    forall i, j | 0 <= i < |head + usable| && 0 <= j < |rest|
      ensures Before(members, first, (head + usable)[i], rest[j])
    {
      assert rest[j] in rest;
      if i >= |head| { assert (head + usable)[i] in usable; }
    }
    forall i, j | 0 <= i < |head| && 0 <= j < |usable| ensures Before(members, first, head[i], usable[j]) {
      assert usable[j] in usable;
    }
    assert InOrder(members, first, usable) by {
      forall i, j | 0 <= i < j < |usable| ensures Before(members, first, usable[i], usable[j]) {
        assert usable[i] in usable && usable[j] in usable;
      }
    }
    assert InOrder(members, first, head);
    hide InOrder, Before;
    JoinInOrder(members, first, head, usable);
    JoinInOrder(members, first, head + usable, rest);
  }

  lemma InOrderNoDup(members: Members, first: Option<Ep>, head: seq<Ep>, usable: seq<Ep>, rest: seq<Ep>)
    requires InOrder(members, first, head + usable + rest) && NoDup(usable)
    requires forall ep :: ep in head ==> first == Some(ep)
    requires forall ep :: ep in rest ==> ep in RestBut(members, first)
    ensures NoDup(head + usable + rest)
  {
    var eps := head + usable + rest;
    forall i, j | 0 <= i < j < |eps| ensures eps[i] != eps[j] {
      assert Before(members, first, eps[i], eps[j]);
      CmpEqual(eps[i], eps[j]);
      if i < |head| {
        assert eps[i] in head;
      } else if j < |head| + |usable| {
        assert eps[i] == usable[i - |head|] && eps[j] == usable[j - |head|];
      } else {
        assert eps[j] == rest[j - |head| - |usable|];
        assert eps[j] in rest;
      }
    }
  }

  // ---- as the driver runs it ----

  function MovedLast<T>(s: seq<T>, i: nat): (r: seq<T>)
    requires i < |s|
    ensures |r| == |s|
  {
    s[..i] + s[i + 1..] + [s[i]]
  }

  lemma MovedAt<T(!new)>(s: seq<T>, i: nat, k: nat)
    requires i < |s| && k < |s|
    ensures MovedLast(s, i)[k] == s[if k < i then k else if k < |s| - 1 then k + 1 else i]
  {}

  lemma MovedElements<T(!new)>(s: seq<T>, i: nat)
    requires i < |s|
    ensures forall x :: x in MovedLast(s, i) <==> x in s
    ensures NoDup(s) ==> NoDup(MovedLast(s, i))
  {
    var r := MovedLast(s, i);
    forall k | 0 <= k < |s| ensures r[k] == s[if k < i then k else if k < |s| - 1 then k + 1 else i] {
      MovedAt(s, i, k);
    }
    hide MovedLast;
    forall x ensures x in r <==> x in s {
      if x in s {
        var k :| 0 <= k < |s| && s[k] == x;
        assert r[if k < i then k else if k == i then |s| - 1 else k - 1] == x;
      }
    }
  }

  lemma MovedInOrder(members: Members, first: Option<Ep>, eps: seq<Ep>, i: nat)
    requires i < |eps| && InOrder(members, first, eps)
    ensures InOrder(members, first, MovedLast(eps, i)[..|eps| - 1])
  {
    hide MovedLast, Before;
    var front := MovedLast(eps, i)[..|eps| - 1];
    forall a, b | 0 <= a < b < |front| ensures Before(members, first, front[a], front[b]) {
      MovedAt(eps, i, a);
      MovedAt(eps, i, b);
    }
  }

  lemma MoveLast(members: Members, first: Option<Ep>, eps: seq<Ep>, i: nat)
    requires i < |eps| && IsDialOrder(members, first, None, eps)
    ensures IsDialOrder(members, first, Some(eps[i]), MovedLast(eps, i))
  {
    MovedElements(eps, i);
    MovedAt(eps, i, |eps| - 1);
    MovedInOrder(members, first, eps, i);
    assert eps[i] in eps;
    hide MovedLast, InOrder, NoDup;
  }

  lemma AlreadyLast(members: Members, first: Option<Ep>, eps: seq<Ep>, x: Ep)
    requires IsDialOrder(members, first, None, eps) && (|eps| <= 1 || x !in eps)
    ensures IsDialOrder(members, first, Some(x), eps)
  {
    if x in members {
      assert x in eps;
    }
  }

  method ShuffledCopy(usable: seq<Ep>, draw: nat -> nat) returns (r: seq<Ep>)
    requires Ascending(usable)
    ensures NoDup(r) && forall ep :: ep in r <==> ep in usable
  {
    var a := new Ep[|usable|](i requires 0 <= i < |usable| => usable[i]);
    assert a[..] == usable;
    AscendingNoDup(usable);
    hide Shuffled, Ascending, NoDup;
    Shuffle(a, draw);
    ShuffledNoDup(usable, draw);
    r := a[..];
  }

  /** The lost member goes last, if there is another one. */
  method Exclude(members: Members, first: Option<Ep>, exclude: Option<Ep>, eps: seq<Ep>) returns (r: seq<Ep>)
    requires IsDialOrder(members, first, None, eps)
    ensures IsDialOrder(members, first, exclude, r)
  {
    hide IsDialOrder;
    r := eps;
    if exclude.Some? {
      if |eps| > 1 {
        var p := Position(eps, exclude.value);
        if p.Some? {
          MoveLast(members, first, eps, p.value);
          return MovedLast(eps, p.value);
        }
      }
      AlreadyLast(members, first, eps, exclude.value);
    }
  }

  /** `order`: the target comes from the members it was picked from. */
  method Order(members: Members, first: Option<Ep>, exclude: Option<Ep>, draw: nat -> nat) returns (eps: seq<Ep>)
    requires first.Some? ==> first.value in members
    ensures IsDialOrder(members, first, exclude, eps)
  {
    hide InOrder, NoDup, Ascending;
    var usable, rest := Split(members, first);
    usable := ShuffledCopy(usable, draw);
    rest := SortRest(members, first, rest);
    Assembled(members, first, usable, rest);
    var head := if first.Some? then [first.value] else [];
    InOrderNoDup(members, first, head, usable, rest);
    eps := Exclude(members, first, exclude, head + usable + rest);
  }
}
