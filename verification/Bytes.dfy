/** Bytes, their lexicographic order, and fixed-width integer layouts. */
module Bytes {

  type Byte = x: int | 0 <= x < 256

  /** A string's bytes, or any name compared as bytes. */
  type Name = seq<Byte>

  datatype Option<+T> = None | Some(value: T)

  datatype Ordering = Less | Equal | Greater {
    function Reverse(): Ordering {
      match this
      case Less => Greater
      case Equal => Equal
      case Greater => Less
    }

    /** This comparison, refined by `next` when it is a tie. */
    function Then(next: Ordering): Ordering {
      if this == Equal then next else this
    }
  }

  function CmpInt(a: int, b: int): Ordering {
    if a < b then Less else if a == b then Equal else Greater
  }

  /** Byte-string comparison as slices compare: first difference decides, a proper prefix is smaller. */
  function Cmp(a: seq<Byte>, b: seq<Byte>): Ordering {
    if a == [] then (if b == [] then Equal else Less)
    else if b == [] then Greater
    else CmpInt(a[0], b[0]).Then(Cmp(a[1..], b[1..]))
  }

  lemma Assoc<T>(a: seq<T>, b: seq<T>, c: seq<T>)
    ensures (a + b) + c == a + (b + c)
  {}

  lemma CmpCons(h: Byte, s: seq<Byte>, g: Byte, t: seq<Byte>)
    ensures Cmp([h] + s, [g] + t) == CmpInt(h, g).Then(Cmp(s, t))
  {
    assert ([h] + s)[1..] == s && ([g] + t)[1..] == t;
  }

  lemma {:induction false} CmpEqual(a: seq<Byte>, b: seq<Byte>)
    ensures Cmp(a, b) == Equal <==> a == b
  {
    if a != [] && b != [] {
      CmpEqual(a[1..], b[1..]);
      assert a == [a[0]] + a[1..] && b == [b[0]] + b[1..];
    }
  }

  lemma {:induction false} CmpReverse(a: seq<Byte>, b: seq<Byte>)
    ensures Cmp(b, a) == Cmp(a, b).Reverse()
  {
    if a != [] && b != [] { CmpReverse(a[1..], b[1..]); }
  }

  lemma {:induction false} CmpTransitive(a: seq<Byte>, b: seq<Byte>, c: seq<Byte>)
    requires Cmp(a, b) == Less && Cmp(b, c) == Less
    ensures Cmp(a, c) == Less
  {
    if a != [] && a[0] == b[0] && b[0] == c[0] { CmpTransitive(a[1..], b[1..], c[1..]); }
  }

  /** Equal-length heads decide before the tails are looked at. */
  lemma {:induction false} CmpFixed(a: seq<Byte>, b: seq<Byte>, x: seq<Byte>, y: seq<Byte>)
    requires |a| == |b|
    ensures Cmp(a + x, b + y) == Cmp(a, b).Then(Cmp(x, y))
  {
    if a == [] {
      assert a + x == x && b + y == y;
    } else {
      CmpFixed(a[1..], b[1..], x, y);
      assert a + x == [a[0]] + (a[1..] + x) && b + y == [b[0]] + (b[1..] + y);
      CmpCons(a[0], a[1..] + x, b[0], b[1..] + y);
    }
  }

  function Pow256(k: nat): (r: nat)
    ensures r > 0
  {
    if k == 0 then 1 else 256 * Pow256(k - 1)
  }

  lemma Pow256Values()
    ensures Pow256(2) == 0x1_0000
    ensures Pow256(4) == 0x1_0000_0000
    ensures Pow256(8) == 0x1_0000_0000_0000_0000
    ensures Pow256(16) == 0x1_0000_0000_0000_0000_0000_0000_0000_0000
  {
    assert Pow256(2) == 256 * Pow256(1);
    assert Pow256(4) == 256 * Pow256(3) && Pow256(3) == 256 * Pow256(2);
    assert Pow256(6) == 256 * Pow256(5) && Pow256(5) == 256 * Pow256(4);
    assert Pow256(8) == 256 * Pow256(7) && Pow256(7) == 256 * Pow256(6);
    assert Pow256(10) == 256 * Pow256(9) && Pow256(9) == 256 * Pow256(8);
    assert Pow256(12) == 256 * Pow256(11) && Pow256(11) == 256 * Pow256(10);
    assert Pow256(14) == 256 * Pow256(13) && Pow256(13) == 256 * Pow256(12);
    assert Pow256(16) == 256 * Pow256(15) && Pow256(15) == 256 * Pow256(14);
  }

  /** `n` in `k` big-endian bytes. */
  function Be(n: nat, k: nat): (s: seq<Byte>)
    ensures |s| == k
  {
    if k == 0 then [] else Be(n / 256, k - 1) + [n % 256]
  }

  /** Big-endian bytes of one width order as the numbers do. */
  lemma {:induction false} BeOrder(n: nat, m: nat, k: nat)
    requires n < Pow256(k) && m < Pow256(k)
    ensures Cmp(Be(n, k), Be(m, k)) == CmpInt(n, m)
  {
    if k > 0 {
      BeOrder(n / 256, m / 256, k - 1);
      CmpFixed(Be(n / 256, k - 1), Be(m / 256, k - 1), [n % 256], [m % 256]);
      CmpCons(n % 256, [], m % 256, []);
    }
  }

  function FromBe(s: seq<Byte>): (n: nat)
    ensures n < Pow256(|s|)
  {
    if s == [] then 0 else 256 * FromBe(s[..|s| - 1]) + s[|s| - 1]
  }

  lemma {:induction false} BeRoundTrip(n: nat, k: nat)
    requires n < Pow256(k)
    ensures FromBe(Be(n, k)) == n
  {
    if k > 0 {
      BeRoundTrip(n / 256, k - 1);
      assert Be(n, k)[..k - 1] == Be(n / 256, k - 1);
    }
  }

  /** `n` in `k` little-endian bytes. */
  function Le(n: nat, k: nat): (s: seq<Byte>)
    ensures |s| == k
  {
    if k == 0 then [] else [n % 256] + Le(n / 256, k - 1)
  }

  function FromLe(s: seq<Byte>): (n: nat)
    ensures n < Pow256(|s|)
  {
    if s == [] then 0 else s[0] + 256 * FromLe(s[1..])
  }

  lemma {:induction false} LeRoundTrip(n: nat, k: nat)
    requires n < Pow256(k)
    ensures FromLe(Le(n, k)) == n
  {
    if k > 0 {
      LeRoundTrip(n / 256, k - 1);
      assert Le(n, k)[1..] == Le(n / 256, k - 1);
    }
  }

  lemma BeUnfold(n: nat, k: nat)
    requires k > 0
    ensures Be(n, k) == Be(n / 256, k - 1) + [n % 256]
  {}

  lemma LeUnfold(n: nat, k: nat)
    requires k > 0
    ensures Le(n, k) == [n % 256] + Le(n / 256, k - 1)
  {}

  lemma LastByte(n: nat, b: Byte)
    ensures (256 * n + b) / 256 == n && (256 * n + b) % 256 == b
  {}

  /** The buffer an encoder appends to. */
  class Buffer {
    var bytes: seq<Byte>

    constructor ()
      ensures bytes == []
    {
      bytes := [];
    }

    method Push(b: Byte)
      modifies this
      ensures bytes == old(bytes) + [b]
    {
      bytes := bytes + [b];
    }

    method Extend(s: seq<Byte>)
      modifies this
      ensures bytes == old(bytes) + s
    {
      bytes := bytes + s;
    }

    /** Overwrite the bytes at `at` in place (a backfilled length or count). */
    method Patch(at: nat, s: seq<Byte>)
      requires at + |s| <= |bytes|
      modifies this
      ensures bytes == old(bytes)[..at] + s + old(bytes)[at + |s|..]
    {
      bytes := bytes[..at] + s + bytes[at + |s|..];
    }
  }
}
