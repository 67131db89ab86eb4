/** Counted lists on the wire, for any element encoding that can be read back. */
module WireLists {
  import opened Bytes
  import opened Codec

  function Join<T>(write: T -> seq<Byte>, xs: seq<T>): seq<Byte> {
    if xs == [] then [] else write(xs[0]) + Join(write, xs[1..])
  }

  function ParseN<T>(read: seq<Byte> -> Parsed<T>, s: seq<Byte>, n: nat): (p: Parsed<seq<T>>)
    ensures p.Ok? ==> |p.value| == n
    decreases n
  {
    if n == 0 then Ok([], s)
    else
      var (v, r) :- read(s);
      var (vs, r2) :- ParseN(read, r, n - 1);
      Ok([v] + vs, r2)
  }

  function ReadLe(s: seq<Byte>, k: nat): Parsed<nat> {
    var (b, r) :- Take(s, k);
    Ok(FromLe(b), r)
  }

  /** A `k`-byte count, then the elements; a count that does not fit is cut to its low bytes. */
  function Counted<T>(k: nat, write: T -> seq<Byte>, xs: seq<T>): seq<Byte> {
    Le(|xs|, k) + Join(write, xs)
  }

  function ReadCounted<T>(k: nat, read: seq<Byte> -> Parsed<T>, s: seq<Byte>): Parsed<seq<T>> {
    var (n, r) :- ReadLe(s, k);
    ParseN(read, r, n)
  }

  /** `x` is read back whatever follows it. */
  ghost predicate ReadsBack<T>(read: seq<Byte> -> Parsed<T>, bytes: seq<Byte>, x: T) {
    forall y :: read(bytes + y) == Ok(x, y)
  }

  lemma {:induction false} ListReadsBack<T>(
    read: seq<Byte> -> Parsed<T>, write: T -> seq<Byte>, xs: seq<T>, y: seq<Byte>)
    requires forall i :: 0 <= i < |xs| ==> ReadsBack(read, write(xs[i]), xs[i])
    ensures ParseN(read, Join(write, xs) + y, |xs|) == Ok(xs, y)
    decreases |xs|
  {
    if xs == [] {
      assert [] + y == y;
    } else {
      var head, tail := write(xs[0]), Join(write, xs[1..]);
      ListReadsBack(read, write, xs[1..], y);
      Assoc(head, tail, y);
      assert read(head + (tail + y)) == Ok(xs[0], tail + y);
      assert [xs[0]] + xs[1..] == xs;
    }
  }

  lemma ReadLeOf(n: nat, k: nat, y: seq<Byte>)
    requires n < Pow256(k)
    ensures ReadLe(Le(n, k) + y, k) == Ok(n, y)
  {
    TakeOf(Le(n, k), y);
    LeRoundTrip(n, k);
  }

  /** A list whose count fits is read back when each element is. */
  lemma CountedReadsBack<T>(k: nat, read: seq<Byte> -> Parsed<T>, write: T -> seq<Byte>, xs: seq<T>, y: seq<Byte>)
    requires |xs| < Pow256(k) && forall i :: 0 <= i < |xs| ==> ReadsBack(read, write(xs[i]), xs[i])
    ensures ReadCounted(k, read, Counted(k, write, xs) + y) == Ok(xs, y)
  {
    hide Le, FromLe, Pow256, Join, ParseN, ReadLe;
    Assoc(Le(|xs|, k), Join(write, xs), y);
    ReadLeOf(|xs|, k, Join(write, xs) + y);
    ListReadsBack(read, write, xs, y);
  }

  // ---- for the loops ----

  lemma {:induction false} JoinNext<T>(write: T -> seq<Byte>, xs: seq<T>, i: nat)
    requires i < |xs|
    ensures Join(write, xs[..i + 1]) == Join(write, xs[..i]) + write(xs[i])
    decreases i
  {
    var f := xs[..i + 1];
    if i == 0 {
      assert f[1..] == [] && xs[..0] == [];
      assert write(xs[0]) + [] == write(xs[0]) && [] + write(xs[0]) == write(xs[0]);
    } else {
      JoinNext(write, xs[1..], i - 1);
      assert f[1..] == xs[1..][..i] && xs[..i][1..] == xs[1..][..i - 1];
      Assoc(write(xs[0]), Join(write, xs[1..][..i - 1]), write(xs[i]));
    }
  }

  lemma PrependNone<T>(p: Parsed<seq<T>>)
    ensures Prepend([], p) == p
  {
    if p.Ok? { assert [] + p.value == p.value; }
  }

  lemma PrependAll<T>(done: seq<T>, read: seq<Byte> -> Parsed<T>, s: seq<Byte>)
    ensures Prepend(done, ParseN(read, s, 0)) == Ok(done, s)
  {
    assert done + [] == done;
  }

  /** One turn of a reading loop. */
  lemma PrependNext<T>(done: seq<T>, read: seq<Byte> -> Parsed<T>, s: seq<Byte>, n: nat)
    requires n > 0
    ensures match read(s)
            case Ok(v, r) => Prepend(done, ParseN(read, s, n)) == Prepend(done + [v], ParseN(read, r, n - 1))
            case Err => Prepend(done, ParseN(read, s, n)) == Err
  {
    match read(s)
    case Err =>
    case Ok(v, r) =>
      var p := ParseN(read, r, n - 1);
      if p.Ok? { Assoc(done, [v], p.value); }
  }
}
