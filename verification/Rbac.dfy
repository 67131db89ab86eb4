/** Role-based access control: privileges, and what a role reaches through inheritance. */
module Rbac {
  import opened Bytes
  import opened SortedNames

  datatype Privilege =
    | Select | Insert | Update | Delete | Create | Drop | Grant | Monitor | Advisor
    | Publish | Subscribe | Execute | Bi | Admin

  datatype Object =
    | Global
    | Table(name: Name)
    | Database(name: Name)
    | MqttTopic(filter: Name)
    | Procedure(name: Name)
    | Column(table: Name, column: Name)

  datatype Role = Role(grants: map<Object, set<Privilege>>, inherits: set<Name>)

  type Roles = map<Name, Role>

  const NoRole := Role(map[], {})

  predicate Holds(r: Role, o: Object, p: Privilege) {
    o in r.grants && p in r.grants[o]
  }

  /** A role's own grants authorise `p` on `o`. */
  predicate Satisfies(r: Role, p: Privilege, o: Object) {
    Holds(r, Global, Admin) || Holds(r, o, p) || Holds(r, Global, p) || Holds(r, o, Admin)
  }

  function ColumnGrants(r: Role, p: Privilege, table: Name): set<Name> {
    set o | o in r.grants && o.Column? && o.table == table && p in r.grants[o] :: o.column
  }

  function TopicGrants(r: Role, p: Privilege): set<Name> {
    set o | o in r.grants && o.MqttTopic? && p in r.grants[o] :: o.filter
  }

  // ---- reachability ----

  predicate Edge(roles: Roles, a: Name, b: Name) {
    a in roles && b in roles[a].inherits
  }

  /** A walk along inheritance edges; every role left must exist, the last name may dangle. */
  predicate Walk(roles: Roles, w: seq<Name>) {
    |w| > 0 && forall i :: 0 <= i < |w| - 1 ==> Edge(roles, w[i], w[i + 1])
  }

  ghost predicate Reach(roles: Roles, a: Name, b: Name) {
    exists w :: Walk(roles, w) && w[0] == a && w[|w| - 1] == b
  }

  lemma ReachSelf(roles: Roles, a: Name)
    ensures Reach(roles, a, a)
  {
    assert Walk(roles, [a]);
    assert [a][0] == a;
  }

  lemma ReachVia(roles: Roles, a: Name, b: Name, c: Name)
    requires Edge(roles, a, b) && Reach(roles, b, c)
    ensures Reach(roles, a, c)
  {
    var w :| Walk(roles, w) && w[0] == b && w[|w| - 1] == c;
    var v := [a] + w;
    assert forall i :: 0 < i < |v| ==> v[i] == w[i - 1];
    assert Walk(roles, v);
  }

  /** Nothing leaves a set closed under the edges of the roles in it. */
  predicate ClosedUnder(roles: Roles, names: set<Name>) {
    forall a :: a in names && a in roles ==> roles[a].inherits <= names
  }

  lemma {:induction false} WalkStays(roles: Roles, names: set<Name>, w: seq<Name>)
    requires ClosedUnder(roles, names) && Walk(roles, w) && w[0] in names
    ensures w[|w| - 1] in names
    decreases |w|
  {
    if |w| > 1 {
      assert Edge(roles, w[0], w[1]);
      assert forall i :: 0 <= i < |w| - 1 ==> w[1..][i] == w[i + 1];
      WalkStays(roles, names, w[1..]);
    }
  }

  lemma ReachStays(roles: Roles, names: set<Name>, a: Name, b: Name)
    requires ClosedUnder(roles, names) && a in names && Reach(roles, a, b)
    ensures b in names
  {
    var w :| Walk(roles, w) && w[0] == a && w[|w| - 1] == b;
    WalkStays(roles, names, w);
  }

  /** Some existing role reachable from `role` authorises the privilege. */
  ghost predicate Authorised(roles: Roles, role: Name, p: Privilege, o: Object) {
    exists r :: r in roles && Reach(roles, role, r) && Satisfies(roles[r], p, o)
  }

  /** Column `c` is granted to some reachable role. */
  ghost predicate ColumnReachable(roles: Roles, role: Name, p: Privilege, table: Name, c: Name) {
    exists r :: r in roles && Reach(roles, role, r) && c in ColumnGrants(roles[r], p, table)
  }

  ghost predicate TopicReachable(roles: Roles, role: Name, p: Privilege, f: Name) {
    exists r :: r in roles && Reach(roles, role, r) && f in TopicGrants(roles[r], p)
  }

  // ---- the visited set of a depth-first search ----

  /** Roles first seen between two visited sets have all their parents visited; `open` is still being expanded. */
  predicate Expanded(roles: Roles, before: set<Name>, after: set<Name>, open: set<Name>) {
    before <= after && forall a :: a in after - before - open && a in roles ==> roles[a].inherits <= after
  }

  ghost predicate AllReachable(roles: Roles, role: Name, names: set<Name>) {
    forall a :: a in names ==> Reach(roles, role, a)
  }

  lemma ExpandedStep(roles: Roles, before: set<Name>, mid: set<Name>, after: set<Name>, open: set<Name>)
    requires Expanded(roles, before, mid, open) && Expanded(roles, mid, after, {})
    ensures Expanded(roles, before, after, open)
  {}

  lemma ReachableStep(roles: Roles, role: Name, parent: Name, before: set<Name>, mid: set<Name>, after: set<Name>)
    requires Edge(roles, role, parent) && AllReachable(roles, role, mid - before)
    requires AllReachable(roles, parent, after - mid)
    ensures AllReachable(roles, role, after - before)
  {
    forall a | a in after - before ensures Reach(roles, role, a) {
      if a !in mid { ReachVia(roles, role, parent, a); }
    }
  }

  /** A finished search from nothing visited exactly the reachable names. */
  lemma SearchExact(roles: Roles, role: Name, after: set<Name>)
    requires role in after && Expanded(roles, {}, after, {}) && AllReachable(roles, role, after)
    ensures forall a :: a in after <==> Reach(roles, role, a)
  {
    forall a | Reach(roles, role, a) ensures a in after {
      ReachStays(roles, after, role, a);
    }
  }

  // ---- monotonicity ----

  ghost predicate AtMost(r: Role, s: Role) {
    r.inherits <= s.inherits && forall o, p :: Holds(r, o, p) ==> Holds(s, o, p)
  }

  ghost predicate RolesAtMost(a: Roles, b: Roles) {
    forall n :: n in a ==> n in b && AtMost(a[n], b[n])
  }

  lemma ReachMonotone(a: Roles, b: Roles, x: Name, y: Name)
    requires RolesAtMost(a, b) && Reach(a, x, y)
    ensures Reach(b, x, y)
  {
    var w :| Walk(a, w) && w[0] == x && w[|w| - 1] == y;
    forall i | 0 <= i < |w| - 1 ensures Edge(b, w[i], w[i + 1]) {
      assert Edge(a, w[i], w[i + 1]);
    }
    assert Walk(b, w);
  }

  /** More grants and more inheritance never take an authorisation away. */
  lemma AuthorisedMonotone(a: Roles, b: Roles, role: Name, p: Privilege, o: Object)
    requires RolesAtMost(a, b) && Authorised(a, role, p, o)
    ensures Authorised(b, role, p, o)
  {
    var r :| r in a && Reach(a, role, r) && Satisfies(a[r], p, o);
    ReachMonotone(a, b, role, r);
    assert AtMost(a[r], b[r]);
  }

  class RoleStore {
    var roles: Roles

    constructor ()
      ensures roles == map[]
    {
      roles := map[];
    }

    method CreateRole(name: Name) returns (ok: bool)
      modifies this
      ensures ok == (name !in old(roles))
      ensures roles == if ok then old(roles)[name := NoRole] else old(roles)
    {
      if name in roles { return false; }
      roles := roles[name := NoRole];
      return true;
    }

    method CreateSuperuser(name: Name)
      modifies this
      ensures RolesAtMost(old(roles), roles)
      ensures forall p, o :: Authorised(roles, name, p, o)
      ensures forall r, p, o :: Authorised(roles, r, p, o) <==>
                Authorised(old(roles), r, p, o) || Reach(old(roles), r, name)
      ensures var was := if name in old(roles) then old(roles)[name] else NoRole;
              roles == old(roles)[name := WithGrant(was, Global, Admin)]
    {
      var r := if name in roles then roles[name] else NoRole;
      forall a, p, o
        ensures Authorised(roles[name := WithGrant(r, Global, Admin)], a, p, o) <==>
                  Authorised(roles, a, p, o) || Reach(roles, a, name)
      {
        SuperAuthorises(roles, name, a, p, o);
      }
      roles := roles[name := WithGrant(r, Global, Admin)];
      ReachSelf(roles, name);
    }

    method DropRole(name: Name) returns (ok: bool)
      modifies this
      ensures ok == (name in old(roles)) && roles == old(roles) - {name}
      ensures RolesAtMost(roles, old(roles))
    {
      ok := name in roles;
      roles := roles - {name};
    }

    method GrantPrivilege(role: Name, p: Privilege, o: Object) returns (ok: bool)
      modifies this
      ensures ok == (role in old(roles)) && (!ok ==> roles == old(roles))
      ensures RolesAtMost(old(roles), roles)
      ensures ok ==> Authorised(roles, role, p, o) && roles == old(roles)[role := WithGrant(old(roles)[role], o, p)]
      ensures ok ==> forall r, q, x :: Authorised(roles, r, q, x) <==>
                       Authorised(old(roles), r, q, x) || (Reach(old(roles), r, role) && Covers(p, o, q, x))
    {
      if role !in roles { return false; }
      forall r, q, x
        ensures Authorised(roles[role := WithGrant(roles[role], o, p)], r, q, x) <==>
                  Authorised(roles, r, q, x) || (Reach(roles, r, role) && Covers(p, o, q, x))
      {
        GrantAuthorises(roles, role, p, o, r, q, x);
      }
      roles := roles[role := WithGrant(roles[role], o, p)];
      ReachSelf(roles, role);
      return true;
    }

    /** Direct grants only. */
    method Revoke(role: Name, p: Privilege, o: Object) returns (ok: bool)
      modifies this
      ensures ok == (role in old(roles)) && (!ok ==> roles == old(roles))
      ensures RolesAtMost(roles, old(roles))
      ensures ok ==> roles == old(roles)[role := WithoutGrant(old(roles)[role], o, p)]
      ensures ok ==> forall r, q, x :: Authorised(roles, r, q, x) <==> AuthorisedBut(old(roles), role, p, o, r, q, x)
    {
      if role !in roles { return false; }
      forall r, q, x
        ensures Authorised(roles[role := WithoutGrant(roles[role], o, p)], r, q, x) <==>
                  AuthorisedBut(roles, role, p, o, r, q, x)
      {
        RevokeAuthorises(roles, role, p, o, r, q, x);
      }
      RevokeExact(roles[role], o, p);
      roles := roles[role := WithoutGrant(roles[role], o, p)];
      return true;
    }

    /** `member` inherits everything `parent` can do. */
    method GrantRole(member: Name, parent: Name) returns (ok: bool)
      modifies this
      ensures ok == (parent in old(roles) && member in old(roles)) && (!ok ==> roles == old(roles))
      ensures RolesAtMost(old(roles), roles)
      ensures ok ==> forall p, o :: Authorised(roles, parent, p, o) ==> Authorised(roles, member, p, o)
      ensures ok ==> forall r, p, o :: Authorised(roles, r, p, o) <==>
                       Authorised(old(roles), r, p, o)
                       || (Reach(old(roles), r, member) && Authorised(old(roles), parent, p, o))
      ensures ok ==> var was := old(roles)[member];
                     roles == old(roles)[member := was.(inherits := was.inherits + {parent})]
    {
      if parent !in roles || member !in roles { return false; }
      var m := roles[member];
      roles := roles[member := m.(inherits := m.inherits + {parent})];
      forall p, o | Authorised(roles, parent, p, o) ensures Authorised(roles, member, p, o) {
        var r :| r in roles && Reach(roles, parent, r) && Satisfies(roles[r], p, o);
        ReachVia(roles, member, parent, r);
      }
      forall r, p, o
        ensures Authorised(roles, r, p, o) <==>
                  Authorised(old(roles), r, p, o)
                  || (Reach(old(roles), r, member) && Authorised(old(roles), parent, p, o))
      {
        EdgeAuthorises(old(roles), member, parent, r, p, o);
      }
      return true;
    }

    method RevokeRole(member: Name, parent: Name)
      modifies this
      ensures RolesAtMost(roles, old(roles)) && !Edge(roles, member, parent)
      ensures roles == if member in old(roles)
                then old(roles)[member := Role(old(roles)[member].grants, old(roles)[member].inherits - {parent})]
                else old(roles)
    {
      if member in roles {
        roles := roles[member := roles[member].(inherits := roles[member].inherits - {parent})];
      }
    }

    /** `check`: depth-first with one visited set shared by the whole search. */
    method Check(role: Name, p: Privilege, o: Object, visited: set<Name>) returns (ok: bool, seen: set<Name>)
      ensures visited <= seen
      ensures ok ==> Authorised(roles, role, p, o)
      ensures !ok ==> role in seen && Expanded(roles, visited, seen, {}) && Refused(roles, p, o, seen - visited)
      ensures AllReachable(roles, role, seen - visited)
      decreases roles.Keys - visited
    {
      if role in visited { return false, visited; }
      seen := visited + {role};
      ReachSelf(roles, role);
      if role !in roles { return false, seen; }
      var r := roles[role];
      if Satisfies(r, p, o) { return true, seen; }
      var todo := r.inherits;
      while todo != {}
        invariant todo <= r.inherits && r.inherits - todo <= seen
        invariant visited + {role} <= seen && Expanded(roles, visited, seen, {role})
        invariant Refused(roles, p, o, seen - visited)
        invariant AllReachable(roles, role, seen - visited)
        decreases todo
      {
        var parent :| parent in todo;
        ghost var mid := seen;
        var hit, more := Check(parent, p, o, seen);
        ReachableStep(roles, role, parent, visited, mid, more);
        seen := more;
        if hit {
          AuthorisedVia(roles, role, parent, p, o);
          return true, seen;
        }
        ExpandedStep(roles, visited, mid, seen, {role});
        todo := todo - {parent};
      }
      return false, seen;
    }

    /** `has_privilege`: exactly reachability of an authorising role, for any role graph. */
    method HasPrivilege(role: Name, p: Privilege, o: Object) returns (ok: bool)
      ensures ok <==> Authorised(roles, role, p, o)
    {
      var seen: set<Name>;
      ok, seen := Check(role, p, o, {});
      if !ok {
        assert seen - {} == seen;
        SearchExact(roles, role, seen);
      }
    }

    /** `collect_columns`. */
    method CollectColumns(role: Name, p: Privilege, table: Name, visited: set<Name>, out: set<Name>)
      returns (seen: set<Name>, cols: set<Name>)
      ensures role in seen && Expanded(roles, visited, seen, {}) && AllReachable(roles, role, seen - visited)
      ensures cols == out + ColumnUnion(roles, p, table, seen - visited)
      decreases roles.Keys - visited
    {
      hide Reach;
      seen, cols := visited, out;
      if role in visited {
        assert seen - visited == {};
        return;
      }
      seen := visited + {role};
      ReachSelf(roles, role);
      assert seen - visited == {role};
      if role !in roles { return; }
      var r := roles[role];
      var own := DirectColumns(r, p, table);
      cols := cols + own;
      var todo := r.inherits;
      while todo != {}
        invariant todo <= r.inherits && r.inherits - todo <= seen
        invariant visited + {role} <= seen && Expanded(roles, visited, seen, {role})
        invariant AllReachable(roles, role, seen - visited)
        invariant cols == out + ColumnUnion(roles, p, table, seen - visited)
        decreases todo
      {
        var parent :| parent in todo;
        ghost var mid := seen;
        var more, wider := CollectColumns(parent, p, table, seen, cols);
        ReachableStep(roles, role, parent, visited, mid, more);
        ExpandedStep(roles, visited, mid, more, {role});
        ColumnUnionSplit(roles, p, table, visited, mid, more);
        UnionGrows(out, ColumnUnion(roles, p, table, mid - visited), ColumnUnion(roles, p, table, more - mid));
        seen, cols := more, wider;
        todo := todo - {parent};
      }
    }

    /** `columns`: exactly the columns granted to some reachable role. */
    method Columns(role: Name, p: Privilege, table: Name) returns (cols: set<Name>)
      ensures forall c :: c in cols <==> ColumnReachable(roles, role, p, table, c)
    {
      var seen: set<Name>;
      seen, cols := CollectColumns(role, p, table, {}, {});
      assert seen - {} == seen;
      SearchExact(roles, role, seen);
    }

    /** `collect_mqtt_filters`. */
    method CollectTopics(role: Name, p: Privilege, visited: set<Name>, out: seq<Name>)
      returns (seen: set<Name>, topics: seq<Name>)
      ensures role in seen && Expanded(roles, visited, seen, {}) && AllReachable(roles, role, seen - visited)
      ensures forall f :: f in topics <==> f in out || f in TopicUnion(roles, p, seen - visited)
      decreases roles.Keys - visited
    {
      seen, topics := visited, out;
      if role in visited {
        assert seen - visited == {};
        return;
      }
      seen := visited + {role};
      ReachSelf(roles, role);
      assert seen - visited == {role};
      if role !in roles { return; }
      var r := roles[role];
      topics := DirectTopics(r, p, topics);
      var todo := r.inherits;
      while todo != {}
        invariant todo <= r.inherits && r.inherits - todo <= seen
        invariant visited + {role} <= seen && Expanded(roles, visited, seen, {role})
        invariant AllReachable(roles, role, seen - visited)
        invariant forall f :: f in topics <==> f in out || f in TopicUnion(roles, p, seen - visited)
        decreases todo
      {
        var parent :| parent in todo;
        ghost var mid := seen;
        var more, wider := CollectTopics(parent, p, seen, topics);
        ReachableStep(roles, role, parent, visited, mid, more);
        ExpandedStep(roles, visited, mid, more, {role});
        TopicUnionSplit(roles, p, visited, mid, more);
        seen, topics := more, wider;
        todo := todo - {parent};
      }
    }

    /** `mqtt_filters`: the reachable filters in ascending order, each once. */
    method MqttFilters(role: Name, p: Privilege) returns (filters: seq<Name>)
      ensures forall f :: f in filters <==> TopicReachable(roles, role, p, f)
      ensures Ascending(filters)
    {
      var seen, topics := CollectTopics(role, p, {}, []);
      assert seen - {} == seen;
      SearchExact(roles, role, seen);
      filters := SortDedup(topics);
    }
  }

  function WithGrant(r: Role, o: Object, p: Privilege): Role {
    r.(grants := r.grants[o := (if o in r.grants then r.grants[o] else {}) + {p}])
  }

  function WithoutGrant(r: Role, o: Object, p: Privilege): Role {
    if o in r.grants then r.(grants := r.grants[o := r.grants[o] - {p}]) else r
  }

  /** Revoking takes away that privilege on that object and nothing else. */
  lemma RevokeExact(r: Role, o: Object, p: Privilege)
    ensures forall x, q :: Holds(WithoutGrant(r, o, p), x, q) <==> Holds(r, x, q) && (x != o || q != p)
  {}

  /** No existing role among `names` authorises the privilege. */
  predicate Refused(roles: Roles, p: Privilege, o: Object, names: set<Name>) {
    forall a :: a in names && a in roles ==> !Satisfies(roles[a], p, o)
  }

  lemma AuthorisedVia(roles: Roles, role: Name, parent: Name, p: Privilege, o: Object)
    requires Edge(roles, role, parent) && Authorised(roles, parent, p, o)
    ensures Authorised(roles, role, p, o)
  {
    var r :| r in roles && Reach(roles, parent, r) && Satisfies(roles[r], p, o);
    ReachVia(roles, role, parent, r);
  }

  function ColumnUnion(roles: Roles, p: Privilege, table: Name, names: set<Name>): set<Name> {
    set a, c | a in names && a in roles && c in ColumnGrants(roles[a], p, table) :: c
  }

  function TopicUnion(roles: Roles, p: Privilege, names: set<Name>): set<Name> {
    set a, f | a in names && a in roles && f in TopicGrants(roles[a], p) :: f
  }

  lemma UnionGrows(out: set<Name>, a: set<Name>, b: set<Name>)
    ensures (out + a) + b == out + (a + b)
  {}

  lemma ColumnUnionSplit(roles: Roles, p: Privilege, table: Name, before: set<Name>, mid: set<Name>, after: set<Name>)
    requires before <= mid <= after
    ensures ColumnUnion(roles, p, table, after - before)
         == ColumnUnion(roles, p, table, mid - before) + ColumnUnion(roles, p, table, after - mid)
  {
    hide ColumnGrants;
  }

  lemma TopicUnionSplit(roles: Roles, p: Privilege, before: set<Name>, mid: set<Name>, after: set<Name>)
    requires before <= mid <= after
    ensures TopicUnion(roles, p, after - before)
         == TopicUnion(roles, p, mid - before) + TopicUnion(roles, p, after - mid)
  {
    hide TopicGrants;
  }

  method DirectColumns(r: Role, p: Privilege, table: Name) returns (cols: set<Name>)
    ensures cols == ColumnGrants(r, p, table)
  {
    cols := {};
    var todo := r.grants.Keys;
    while todo != {}
      invariant todo <= r.grants.Keys
      invariant cols ==
        set o | o in r.grants.Keys - todo && o.Column? && o.table == table && p in r.grants[o] :: o.column
      decreases todo
    {
      var o :| o in todo;
      if o.Column? && o.table == table && p in r.grants[o] { cols := cols + {o.column}; }
      todo := todo - {o};
    }
  }

  method DirectTopics(r: Role, p: Privilege, out: seq<Name>) returns (topics: seq<Name>)
    ensures forall f :: f in topics <==> f in out || f in TopicGrants(r, p)
  {
    topics := out;
    var todo := r.grants.Keys;
    while todo != {}
      invariant todo <= r.grants.Keys
      invariant forall f :: f in topics <==>
                  f in out || (MqttTopic(f) in r.grants.Keys - todo && p in r.grants[MqttTopic(f)])
      decreases todo
    {
      var o :| o in todo;
      if o.MqttTopic? && p in r.grants[o] { topics := topics + [o.filter]; }
      todo := todo - {o};
    }
    forall f ensures f in TopicGrants(r, p) <==> MqttTopic(f) in r.grants && p in r.grants[MqttTopic(f)] {
      if MqttTopic(f) in r.grants && p in r.grants[MqttTopic(f)] {
        assert MqttTopic(f).filter == f;
      }
    }
  }

  // ---- what a grant is worth ----

  /** A grant of `p` on `o` is worth `q` on `x`: the same privilege or Admin, on the object or globally. */
  predicate Covers(p: Privilege, o: Object, q: Privilege, x: Object) {
    (q == p || p == Admin) && (x == o || o == Global)
  }

  /** A role's grants authorise exactly what one of them is worth. */
  lemma SatisfiesExact(r: Role, q: Privilege, x: Object)
    ensures Satisfies(r, q, x) <==> exists p, o :: Holds(r, o, p) && Covers(p, o, q, x)
  {
    assert Covers(Admin, Global, q, x) && Covers(q, x, q, x) && Covers(q, Global, q, x) && Covers(Admin, x, q, x);
  }

  lemma HoldsGranted(r: Role, o: Object, p: Privilege, x: Object, q: Privilege)
    ensures Holds(WithGrant(r, o, p), x, q) <==> Holds(r, x, q) || (x == o && q == p)
  {
    SetPut(r.grants, o, p, x, q);
  }

  lemma SetPut<K, E>(g: map<K, set<E>>, o: K, p: E, x: K, q: E)
    ensures var h := g[o := (if o in g then g[o] else {}) + {p}];
            x in h && q in h[x] <==> (x in g && q in g[x]) || (x == o && q == p)
  {}

  lemma GrantKeepsParents(r: Role, o: Object, p: Privilege)
    ensures WithGrant(r, o, p).inherits == r.inherits
  {}

  lemma SatisfiesGranted(r: Role, o: Object, p: Privilege, x: Object, q: Privilege)
    ensures Satisfies(WithGrant(r, o, p), q, x) <==> Satisfies(r, q, x) || Covers(p, o, q, x)
  {
    hide Holds, WithGrant;
    HoldsGranted(r, o, p, Global, Admin);
    HoldsGranted(r, o, p, x, q);
    HoldsGranted(r, o, p, Global, q);
    HoldsGranted(r, o, p, x, Admin);
  }

  /** Changing a role's grants changes no path. */
  lemma SameInherits(roles: Roles, role: Name, r: Role, a: Name, b: Name)
    requires role in roles && r.inherits == roles[role].inherits
    ensures Reach(roles[role := r], a, b) <==> Reach(roles, a, b)
  {
    var more := roles[role := r];
    assert forall x, y :: Edge(more, x, y) <==> Edge(roles, x, y);
    if Reach(more, a, b) {
      var w :| Walk(more, w) && w[0] == a && w[|w| - 1] == b;
      assert Walk(roles, w);
    }
    if Reach(roles, a, b) {
      var w :| Walk(roles, w) && w[0] == a && w[|w| - 1] == b;
      assert Walk(more, w);
    }
  }

  /** A grant authorises exactly what it is worth, for exactly the roles that reach its holder. */
  lemma GrantAuthorises(roles: Roles, role: Name, p: Privilege, o: Object, a: Name, q: Privilege, x: Object)
    requires role in roles
    ensures Authorised(roles[role := WithGrant(roles[role], o, p)], a, q, x) <==>
              Authorised(roles, a, q, x) || (Reach(roles, a, role) && Covers(p, o, q, x))
  {
    hide Satisfies, WithGrant, Covers, Reach, Authorised;
    if Authorised(roles[role := WithGrant(roles[role], o, p)], a, q, x) { GrantOnly(roles, role, p, o, a, q, x); }
    if Authorised(roles, a, q, x) || (Reach(roles, a, role) && Covers(p, o, q, x)) {
      GrantAll(roles, role, p, o, a, q, x);
    }
  }

  lemma GrantOnly(roles: Roles, role: Name, p: Privilege, o: Object, a: Name, q: Privilege, x: Object)
    requires role in roles && Authorised(roles[role := WithGrant(roles[role], o, p)], a, q, x)
    ensures Authorised(roles, a, q, x) || (Reach(roles, a, role) && Covers(p, o, q, x))
  {
    hide Satisfies, WithGrant, Covers, Reach;
    var given := WithGrant(roles[role], o, p);
    var more := roles[role := given];
    GrantKeepsParents(roles[role], o, p);
    SatisfiesGranted(roles[role], o, p, x, q);
    var r :| r in more && Reach(more, a, r) && Satisfies(more[r], q, x);
    SameInherits(roles, role, given, a, r);
  }

  lemma GrantAll(roles: Roles, role: Name, p: Privilege, o: Object, a: Name, q: Privilege, x: Object)
    requires role in roles && (Authorised(roles, a, q, x) || (Reach(roles, a, role) && Covers(p, o, q, x)))
    ensures Authorised(roles[role := WithGrant(roles[role], o, p)], a, q, x)
  {
    hide Satisfies, WithGrant, Covers, Reach;
    var given := WithGrant(roles[role], o, p);
    var more := roles[role := given];
    GrantKeepsParents(roles[role], o, p);
    SatisfiesGranted(roles[role], o, p, x, q);
    var r := if Reach(roles, a, role) && Covers(p, o, q, x) then role
             else var r :| r in roles && Reach(roles, a, r) && Satisfies(roles[r], q, x); r;
    SameInherits(roles, role, given, a, r);
    assert r in more && Reach(more, a, r) && Satisfies(more[r], q, x);
  }

  /** A superuser gives everything to every role that reaches it. */
  lemma SuperAuthorises(roles: Roles, name: Name, a: Name, p: Privilege, o: Object)
    ensures var r := if name in roles then roles[name] else NoRole;
            Authorised(roles[name := WithGrant(r, Global, Admin)], a, p, o) <==>
              Authorised(roles, a, p, o) || Reach(roles, a, name)
  {
    hide Authorised, Reach;
    if name in roles {
      GrantAuthorises(roles, name, Admin, Global, a, p, o);
    } else {
      SatisfiesGranted(NoRole, Global, Admin, o, p);
      NewRoleAuthorises(roles, name, WithGrant(NoRole, Global, Admin), a, p, o);
    }
  }

  /** Authorised by a grant other than that of `p` on `o` to `role`. */
  ghost predicate AuthorisedBut(
    roles: Roles, role: Name, p: Privilege, o: Object, a: Name, q: Privilege, x: Object)
  {
    exists r, g, b :: r in roles && Reach(roles, a, r) && Holds(roles[r], b, g) && Covers(g, b, q, x)
                      && !(r == role && g == p && b == o)
  }

  /** A revoked grant no longer counts; every other one does. */
  lemma RevokeAuthorises(roles: Roles, role: Name, p: Privilege, o: Object, a: Name, q: Privilege, x: Object)
    requires role in roles
    ensures Authorised(roles[role := WithoutGrant(roles[role], o, p)], a, q, x) <==>
              AuthorisedBut(roles, role, p, o, a, q, x)
  {
    hide Authorised, AuthorisedBut, WithoutGrant;
    if Authorised(roles[role := WithoutGrant(roles[role], o, p)], a, q, x) { RevokeOnly(roles, role, p, o, a, q, x); }
    if AuthorisedBut(roles, role, p, o, a, q, x) { RevokeAll(roles, role, p, o, a, q, x); }
  }

  lemma SameInheritsWithout(r: Role, o: Object, p: Privilege)
    ensures WithoutGrant(r, o, p).inherits == r.inherits
  {}

  lemma RevokeOnly(roles: Roles, role: Name, p: Privilege, o: Object, a: Name, q: Privilege, x: Object)
    requires role in roles && Authorised(roles[role := WithoutGrant(roles[role], o, p)], a, q, x)
    ensures AuthorisedBut(roles, role, p, o, a, q, x)
  {
    hide Satisfies, WithoutGrant, Covers, Reach, Holds;
    var left := WithoutGrant(roles[role], o, p);
    var less := roles[role := left];
    SameInheritsWithout(roles[role], o, p);
    var r :| r in less && Reach(less, a, r) && Satisfies(less[r], q, x);
    SameInherits(roles, role, left, a, r);
    SatisfiesExact(less[r], q, x);
    var g, b :| Holds(less[r], b, g) && Covers(g, b, q, x);
    RevokeExact(roles[role], o, p);
  }

  lemma RevokeAll(roles: Roles, role: Name, p: Privilege, o: Object, a: Name, q: Privilege, x: Object)
    requires role in roles && AuthorisedBut(roles, role, p, o, a, q, x)
    ensures Authorised(roles[role := WithoutGrant(roles[role], o, p)], a, q, x)
  {
    hide Satisfies, WithoutGrant, Covers, Reach, Holds;
    var left := WithoutGrant(roles[role], o, p);
    var less := roles[role := left];
    SameInheritsWithout(roles[role], o, p);
    var r, g, b :| r in roles && Reach(roles, a, r) && Holds(roles[r], b, g) && Covers(g, b, q, x)
      && !(r == role && g == p && b == o);
    SameInherits(roles, role, left, a, r);
    RevokeExact(roles[role], o, p);
    assert Holds(less[r], b, g);
    SatisfiesExact(less[r], q, x);
    assert r in less;
  }

  /** A column grant is a grant on that column of that table, and a topic grant one on that filter. */
  lemma GrantedNames(r: Role, p: Privilege, table: Name, name: Name)
    ensures name in ColumnGrants(r, p, table) <==> Holds(r, Column(table, name), p)
    ensures name in TopicGrants(r, p) <==> Holds(r, MqttTopic(name), p)
  {
    if Holds(r, Column(table, name), p) { assert Column(table, name).column == name; }
    if Holds(r, MqttTopic(name), p) { assert MqttTopic(name).filter == name; }
  }

  /** So one more grant adds exactly its own column or topic. */
  lemma GrantAddsNames(r: Role, o: Object, p: Privilege, q: Privilege, table: Name, name: Name)
    ensures name in ColumnGrants(WithGrant(r, o, p), q, table) <==>
              name in ColumnGrants(r, q, table) || (o == Column(table, name) && q == p)
    ensures name in TopicGrants(WithGrant(r, o, p), q) <==>
              name in TopicGrants(r, q) || (o == MqttTopic(name) && q == p)
  {
    GrantedNames(r, q, table, name);
    GrantedNames(WithGrant(r, o, p), q, table, name);
    HoldsGranted(r, o, p, Column(table, name), q);
    HoldsGranted(r, o, p, MqttTopic(name), q);
    hide ColumnGrants, TopicGrants, Holds, WithGrant;
  }

  // ---- what the mutators do to authorisation ----

  lemma ReachTrans(roles: Roles, a: Name, b: Name, c: Name)
    requires Reach(roles, a, b) && Reach(roles, b, c)
    ensures Reach(roles, a, c)
  {
    var w :| Walk(roles, w) && w[0] == a && w[|w| - 1] == b;
    WalkThen(roles, w, c);
  }

  lemma {:induction false} WalkThen(roles: Roles, w: seq<Name>, c: Name)
    requires Walk(roles, w) && Reach(roles, w[|w| - 1], c)
    ensures Reach(roles, w[0], c)
    decreases |w|
  {
    hide Reach;
    if |w| > 1 {
      assert Edge(roles, w[0], w[1]);
      assert forall i :: 0 <= i < |w| - 1 ==> w[1..][i] == w[i + 1];
      WalkThen(roles, w[1..], c);
      ReachVia(roles, w[0], w[1], c);
    }
  }

  function WithParent(roles: Roles, member: Name, parent: Name): Roles
    requires member in roles
  {
    roles[member := roles[member].(inherits := roles[member].inherits + {parent})]
  }

  /** A walk over one more edge does without it, or is one to its start and one from its end. */
  lemma {:induction false} WalkOverEdge(roles: Roles, member: Name, parent: Name, w: seq<Name>)
    requires member in roles && Walk(WithParent(roles, member, parent), w)
    ensures var a, b := w[0], w[|w| - 1];
            Reach(roles, a, b) || (Reach(roles, a, member) && Reach(roles, parent, b))
    decreases |w|
  {
    hide Reach;
    var more := WithParent(roles, member, parent);
    if |w| == 1 {
      ReachSelf(roles, w[0]);
    } else {
      assert Edge(more, w[0], w[1]);
      assert forall i :: 0 <= i < |w| - 1 ==> w[1..][i] == w[i + 1];
      WalkOverEdge(roles, member, parent, w[1..]);
      var b := w[|w| - 1];
      if Edge(roles, w[0], w[1]) {
        if Reach(roles, w[1], b) { ReachVia(roles, w[0], w[1], b); } else { ReachVia(roles, w[0], w[1], member); }
      } else {
        ReachSelf(roles, member);
      }
    }
  }

  /** One more edge authorises exactly what its end has, for exactly the roles that reach its start. */
  lemma EdgeAuthorises(roles: Roles, member: Name, parent: Name, role: Name, p: Privilege, o: Object)
    requires member in roles
    ensures Authorised(WithParent(roles, member, parent), role, p, o) <==>
              Authorised(roles, role, p, o) || (Reach(roles, role, member) && Authorised(roles, parent, p, o))
  {
    hide Reach, Satisfies, Authorised;
    if Authorised(WithParent(roles, member, parent), role, p, o) { EdgeOnly(roles, member, parent, role, p, o); }
    if Authorised(roles, role, p, o) || (Reach(roles, role, member) && Authorised(roles, parent, p, o)) {
      EdgeAll(roles, member, parent, role, p, o);
    }
  }

  lemma EdgeOnly(roles: Roles, member: Name, parent: Name, role: Name, p: Privilege, o: Object)
    requires member in roles && Authorised(WithParent(roles, member, parent), role, p, o)
    ensures Authorised(roles, role, p, o) || (Reach(roles, role, member) && Authorised(roles, parent, p, o))
  {
    hide Satisfies;
    var more := WithParent(roles, member, parent);
    var r :| r in more && Reach(more, role, r) && Satisfies(more[r], p, o);
    var w :| Walk(more, w) && w[0] == role && w[|w| - 1] == r;
    WalkOverEdge(roles, member, parent, w);
    hide Reach;
    SameGrants(roles[r], more[r], p, o);
  }

  lemma WithParentMore(roles: Roles, member: Name, parent: Name)
    requires member in roles
    ensures var more := WithParent(roles, member, parent); RolesAtMost(roles, more) && Edge(more, member, parent)
  {}

  lemma EdgeAll(roles: Roles, member: Name, parent: Name, role: Name, p: Privilege, o: Object)
    requires member in roles
    requires Authorised(roles, role, p, o) || (Reach(roles, role, member) && Authorised(roles, parent, p, o))
    ensures Authorised(WithParent(roles, member, parent), role, p, o)
  {
    hide Satisfies, Reach, RolesAtMost, WithParent, Edge;
    var more := WithParent(roles, member, parent);
    WithParentMore(roles, member, parent);
    if Authorised(roles, role, p, o) {
      AuthorisedMonotone(roles, more, role, p, o);
    } else {
      AuthorisedMonotone(roles, more, parent, p, o);
      ReachMonotone(roles, more, role, member);
      var r :| r in more && Reach(more, parent, r) && Satisfies(more[r], p, o);
      ReachVia(more, member, parent, r);
      ReachTrans(more, role, member, r);
    }
  }

  lemma SameGrants(r: Role, s: Role, p: Privilege, o: Object)
    requires r.grants == s.grants
    ensures Satisfies(r, p, o) <==> Satisfies(s, p, o)
  {}

  /** A role without parents adds no way to reach anything. */
  lemma SameReach(roles: Roles, name: Name, leaf: Role, a: Name, b: Name)
    requires name !in roles && leaf.inherits == {}
    ensures Reach(roles[name := leaf], a, b) <==> Reach(roles, a, b)
  {
    var wider := roles[name := leaf];
    assert forall x, y :: Edge(wider, x, y) <==> Edge(roles, x, y);
    if Reach(wider, a, b) {
      var w :| Walk(wider, w) && w[0] == a && w[|w| - 1] == b;
      assert Walk(roles, w);
    }
    if Reach(roles, a, b) {
      var w :| Walk(roles, w) && w[0] == a && w[|w| - 1] == b;
      assert Walk(wider, w);
    }
  }

  /**
    What giving an unused name to a role without parents authorises: exactly what it grants itself, and
    exactly for the roles that reach the name, which edges left by an earlier role of that name may do.
   */
  lemma NewRoleAuthorises(roles: Roles, name: Name, leaf: Role, role: Name, p: Privilege, o: Object)
    requires name !in roles && leaf.inherits == {}
    ensures Authorised(roles[name := leaf], role, p, o) <==>
              Authorised(roles, role, p, o) || (Reach(roles, role, name) && Satisfies(leaf, p, o))
  {
    hide Reach, Satisfies, Authorised;
    if Authorised(roles[name := leaf], role, p, o) { NewRoleOnly(roles, name, leaf, role, p, o); }
    if Authorised(roles, role, p, o) || (Reach(roles, role, name) && Satisfies(leaf, p, o)) {
      NewRoleAll(roles, name, leaf, role, p, o);
    }
  }

  lemma NewRoleOnly(roles: Roles, name: Name, leaf: Role, role: Name, p: Privilege, o: Object)
    requires name !in roles && leaf.inherits == {} && Authorised(roles[name := leaf], role, p, o)
    ensures Authorised(roles, role, p, o) || (Reach(roles, role, name) && Satisfies(leaf, p, o))
  {
    hide Reach, Satisfies;
    var wider := roles[name := leaf];
    var r :| r in wider && Reach(wider, role, r) && Satisfies(wider[r], p, o);
    SameReach(roles, name, leaf, role, r);
  }

  lemma NewRoleAll(roles: Roles, name: Name, leaf: Role, role: Name, p: Privilege, o: Object)
    requires name !in roles && leaf.inherits == {}
    requires Authorised(roles, role, p, o) || (Reach(roles, role, name) && Satisfies(leaf, p, o))
    ensures Authorised(roles[name := leaf], role, p, o)
  {
    hide Reach, Satisfies;
    var wider := roles[name := leaf];
    var r := if Reach(roles, role, name) && Satisfies(leaf, p, o) then name
             else var r :| r in roles && Reach(roles, role, r) && Satisfies(roles[r], p, o); r;
    SameReach(roles, name, leaf, role, r);
    assert r in wider && Reach(wider, role, r) && Satisfies(wider[r], p, o);
  }

  /** Creating a role changes no authorisation, even where dangling edges already name it. */
  lemma CreateChangesNothing(roles: Roles, name: Name, role: Name, p: Privilege, o: Object)
    requires name !in roles
    ensures Authorised(roles[name := NoRole], role, p, o) <==> Authorised(roles, role, p, o)
  {
    NewRoleAuthorises(roles, name, NoRole, role, p, o);
  }

  /**
    Dropping a role leaves the edges that name it. When the name is used again and given a grant, a role
    gains exactly that grant, and exactly if it still reaches the dropped name.
   */
  lemma DropThenReuse(roles: Roles, parent: Name, p: Privilege, o: Object, role: Name, q: Privilege, x: Object)
    ensures var gone, again := roles - {parent}, WithGrant(NoRole, o, p);
            Authorised(gone[parent := again], role, q, x) <==>
              Authorised(gone, role, q, x) || (Reach(gone, role, parent) && Satisfies(again, q, x))
  {
    NewRoleAuthorises(roles - {parent}, parent, WithGrant(NoRole, o, p), role, q, x);
  }

  /** So every role with an edge to the dropped name gains the grant. */
  lemma DroppedEdgesRevive(roles: Roles, member: Name, parent: Name, p: Privilege, o: Object)
    requires Edge(roles, member, parent) && member != parent
    ensures var again := (roles - {parent})[parent := WithGrant(NoRole, o, p)];
            Authorised(again, member, p, o)
  {
    var gone := roles - {parent};
    ReachSelf(gone, parent);
    ReachVia(gone, member, parent, parent);
    DropThenReuse(roles, parent, p, o, member, p, o);
  }
}
