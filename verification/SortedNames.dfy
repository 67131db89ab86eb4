/** Names in byte order: the iteration order of the driver's ordered maps and sets. */
module SortedNames {
  import opened Bytes

  predicate Ascending(names: seq<Name>) {
    forall i, j :: 0 <= i < j < |names| ==> Cmp(names[i], names[j]) == Less
  }

  function InsertName(names: seq<Name>, x: Name): seq<Name> {
    if names == [] then [x]
    else match Cmp(x, names[0])
      case Less => [x] + names
      case Equal => names
      case Greater => [names[0]] + InsertName(names[1..], x)
  }

  lemma {:induction false} InsertNameKeeps(names: seq<Name>, x: Name)
    requires Ascending(names)
    ensures Ascending(InsertName(names, x))
    ensures forall n :: n in InsertName(names, x) <==> n == x || n in names
  {
    if names != [] {
      CmpEqual(x, names[0]);
      match Cmp(x, names[0]) {
        case Less =>
          forall j | 0 < j < |names| ensures Cmp(x, names[j]) == Less { CmpTransitive(x, names[0], names[j]); }
        case Equal =>
        case Greater =>
          var rest := names[1..];
          InsertNameKeeps(rest, x);
          CmpReverse(x, names[0]);
          var r := InsertName(rest, x);
          assert forall n :: n in names <==> n == names[0] || n in rest;
          forall j | 0 <= j < |r| ensures Cmp(names[0], r[j]) == Less {
            assert r[j] in r;
            if r[j] != x {
              var k :| 0 <= k < |rest| && rest[k] == r[j];
              assert rest[k] == names[k + 1];
            }
          }
      }
    }
  }

  method SortDedup(names: seq<Name>) returns (r: seq<Name>)
    ensures Ascending(r) && forall n :: n in r <==> n in names
  {
    r := [];
    for i := 0 to |names|
      invariant Ascending(r) && forall n :: n in r <==> n in names[..i]
    {
      InsertNameKeeps(r, names[i]);
      r := InsertName(r, names[i]);
      assert names[..i + 1] == names[..i] + [names[i]];
    }
    assert names[..|names|] == names;
  }

  /** The names of a set in ascending order. */
  ghost function SortedKeys(names: set<Name>): (r: seq<Name>)
    ensures Ascending(r) && forall n :: n in r <==> n in names
    decreases |names|
  {
    if names == {} then []
    else
      var x :| x in names;
      var rest := SortedKeys(names - {x});
      InsertNameKeeps(rest, x);
      InsertName(rest, x)
  }

  /** An ascending sequence is determined by its elements. */
  lemma {:induction false} AscendingUnique(a: seq<Name>, b: seq<Name>)
    requires Ascending(a) && Ascending(b) && forall n :: n in a <==> n in b
    ensures a == b
    decreases |a|
  {
    if b != [] { assert b[0] in b; }
    if a != [] {
      assert a[0] in a;
      SameHead(a, b);
      SameRest(a, b);
      AscendingUnique(a[1..], b[1..]);
    }
  }

  lemma SameHead(a: seq<Name>, b: seq<Name>)
    requires Ascending(a) && Ascending(b) && a != [] && b != [] && a[0] in b && b[0] in a
    ensures a[0] == b[0]
  {
    var i :| 0 <= i < |b| && b[i] == a[0];
    var j :| 0 <= j < |a| && a[j] == b[0];
    if i > 0 && j > 0 {
      CmpReverse(b[0], b[i]);
    }
  }

  lemma SameRest(a: seq<Name>, b: seq<Name>)
    requires Ascending(a) && Ascending(b) && a != [] && b != [] && a[0] == b[0]
    requires forall n :: n in a <==> n in b
    ensures forall n :: n in a[1..] <==> n in b[1..]
  {
    RestOf(a);
    RestOf(b);
  }

  lemma RestOf(a: seq<Name>)
    requires Ascending(a) && a != []
    ensures forall n :: n in a[1..] <==> n in a && n != a[0]
  {
    forall n ensures n in a[1..] <==> n in a && n != a[0] {
      if n in a[1..] {
        var i :| 0 <= i < |a[1..]| && a[1..][i] == n;
        assert a[i + 1] == n;
        CmpEqual(a[0], n);
      }
      if n in a && n != a[0] {
        var i :| 0 <= i < |a| && a[i] == n;
        assert a[1..][i - 1] == n;
      }
    }
  }

  /** The keys of a map in order, as its iterator visits them. */
  method KeysInOrder(names: set<Name>) returns (r: seq<Name>)
    ensures r == SortedKeys(names)
  {
    r := [];
    var todo := names;
    while todo != {}
      invariant todo <= names && Ascending(r) && forall n :: n in r <==> n in names - todo
      decreases todo
    {
      var x :| x in todo;
      InsertNameKeeps(r, x);
      r := InsertName(r, x);
      todo := todo - {x};
    }
    AscendingUnique(r, SortedKeys(names));
  }
}
