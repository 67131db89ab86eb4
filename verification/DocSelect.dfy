/** What a partial read of a document means, as operations on the full document. */
module DocSelect {
  import opened Bytes
  import opened Values

  predicate Reserved(name: Name) {
    name != [] && name[0] == 1
  }

  /** What a reader does with a field: decode it, keep its name as NULL, test it for NULL, or drop it. */
  datatype Treatment = Keep | Blank | Probe | Drop

  type Policy = Name -> Treatment

  function Treated(t: Treatment, v: Value): Value {
    match t
    case Keep => v
    case Blank => Null
    case Probe => if v.Null? then Null else Bool(true)
    case Drop => v
  }

  function Select(fields: seq<Field>, policy: Policy): seq<Field> {
    if fields == [] then []
    else
      var t := policy(fields[0].name);
      (if t == Drop then [] else [Field(fields[0].name, Treated(t, fields[0].value))]) + Select(fields[1..], policy)
  }

  /** Field by field, a selection is the document's value as the policy treats it. */
  lemma {:induction false} SelectLookup(fields: seq<Field>, policy: Policy, name: Name)
    ensures Lookup(Select(fields, policy), name) ==
            if policy(name) == Drop then None
            else match Lookup(fields, name)
              case None => None
              case Some(v) => Some(Treated(policy(name), v))
    decreases |fields|
  {
    if fields != [] {
      var f, rest := fields[0], Select(fields[1..], policy);
      SelectLookup(fields[1..], policy, name);
      if policy(f.name) != Drop {
        var kept := Field(f.name, Treated(policy(f.name), f.value));
        assert ([kept] + rest)[0] == kept && ([kept] + rest)[1..] == rest;
      } else {
        assert [] + rest == rest;
      }
    }
  }

  /** And stays sorted, so the lookups determine it. */
  lemma {:induction false} SelectSorted(fields: seq<Field>, policy: Policy)
    requires Sorted(fields)
    ensures Sorted(Select(fields, policy))
    decreases |fields|
  {
    if fields != [] {
      var f, more := fields[0], fields[1..];
      SelectSorted(more, policy);
      assert forall i :: 0 <= i < |more| ==> Before(f.name, more[i].name);
      SelectNames(more, policy, f.name);
    }
  }

  lemma {:induction false} SelectNames(fields: seq<Field>, policy: Policy, name: Name)
    requires forall i :: 0 <= i < |fields| ==> Before(name, fields[i].name)
    ensures forall i :: 0 <= i < |Select(fields, policy)| ==> Before(name, Select(fields, policy)[i].name)
  {
    if fields != [] {
      SelectNames(fields[1..], policy, name);
    }
  }

  lemma InsertFirst(fields: seq<Field>, name: Name, v: Value)
    requires forall i :: 0 <= i < |fields| ==> Before(name, fields[i].name)
    ensures Insert(fields, name, v) == [Field(name, v)] + fields
  {}

  /** The fields after the first, when the new name sorts before or at the first. */
  lemma BeforeRest(fields: seq<Field>, name: Name)
    requires fields != [] && Sorted(fields) && Cmp(name, fields[0].name) != Greater
    ensures forall i :: 0 <= i < |fields[1..]| ==> Before(name, fields[1..][i].name)
  {
    CmpEqual(name, fields[0].name);
    forall i | 0 <= i < |fields[1..]| ensures Before(name, fields[1..][i].name) {
      assert fields[1..][i] == fields[i + 1];
      if name != fields[0].name { CmpTransitive(name, fields[0].name, fields[i + 1].name); }
    }
  }

  /** What one more stored field does to the selection. */
  function Selected(fields: seq<Field>, policy: Policy, name: Name, v: Value): seq<Field> {
    if policy(name) == Drop then fields else Insert(fields, name, Treated(policy(name), v))
  }

  lemma SelectCons(f: Field, rest: seq<Field>, policy: Policy)
    ensures Select([f] + rest, policy)
         == (if policy(f.name) == Drop then [] else [Field(f.name, Treated(policy(f.name), f.value))])
            + Select(rest, policy)
  {
    assert ([f] + rest)[1..] == rest;
  }

  /** Selecting after an insert is inserting the treated value into the selection. */
  lemma {:induction false} SelectInsert(fields: seq<Field>, policy: Policy, name: Name, v: Value)
    requires Sorted(fields)
    ensures Select(Insert(fields, name, v), policy) == Selected(Select(fields, policy), policy, name, v)
    decreases |fields|, 1
  {
    hide Sorted, Treated;
    if fields == [] {
      SelectCons(Field(name, v), [], policy);
    } else {
      CmpEqual(name, fields[0].name);
      if Cmp(name, fields[0].name) == Greater {
        SelectInsertLater(fields, policy, name, v);
      } else {
        SelectInsertHere(fields, policy, name, v);
      }
    }
  }

  lemma SelectInsertHere(fields: seq<Field>, policy: Policy, name: Name, v: Value)
    requires Sorted(fields) && fields != [] && Cmp(name, fields[0].name) != Greater
    ensures Select(Insert(fields, name, v), policy) == Selected(Select(fields, policy), policy, name, v)
  {
    hide Treated;
    var rest := fields[1..];
    BeforeRest(fields, name);
    SelectNames(rest, policy, name);
    CmpEqual(name, fields[0].name);
    if name == fields[0].name {
      SelectCons(Field(name, v), rest, policy);
      InsertFirst(Select(rest, policy), name, Treated(policy(name), v));
      var t := Treated(policy(name), v);
      assert [Field(name, t)] + Select(rest, policy) == Insert(Select(rest, policy), name, t);
    } else {
      SelectCons(Field(name, v), fields, policy);
      assert fields == [fields[0]] + rest;
      SelectNames(fields, policy, name);
      InsertFirst(Select(fields, policy), name, Treated(policy(name), v));
    }
  }

  lemma InsertPast(f: Field, fields: seq<Field>, name: Name, v: Value)
    requires Cmp(name, f.name) == Greater
    ensures Insert([f] + fields, name, v) == [f] + Insert(fields, name, v)
  {
    assert ([f] + fields)[1..] == fields;
  }

  lemma SelectInsertLater(fields: seq<Field>, policy: Policy, name: Name, v: Value)
    requires Sorted(fields) && fields != [] && Cmp(name, fields[0].name) == Greater
    ensures Select(Insert(fields, name, v), policy) == Selected(Select(fields, policy), policy, name, v)
    decreases |fields|, 0
  {
    hide Treated, Select, Insert;
    var f, rest := fields[0], fields[1..];
    assert fields == [f] + rest;
    SelectInsert(rest, policy, name, v);
    InsertPast(f, rest, name, v);
    SelectCons(f, rest, policy);
    SelectCons(f, Insert(rest, name, v), policy);
    if policy(f.name) == Drop {
      assert [] + Select(rest, policy) == Select(rest, policy);
      assert [] + Select(Insert(rest, name, v), policy) == Select(Insert(rest, name, v), policy);
    } else {
      InsertPast(Field(f.name, Treated(policy(f.name), f.value)), Select(rest, policy), name, Treated(policy(name), v));
    }
  }

  // ---- positional reads ----

  /** The value of each wanted name, in the slot of its first occurrence. */
  function Picked(fields: seq<Field>, wanted: seq<Name>): (vals: seq<Option<Value>>)
    ensures |vals| == |wanted|
  {
    seq(|wanted|, i requires 0 <= i < |wanted| =>
      if wanted[i] in wanted[..i] then None else Lookup(fields, wanted[i]))
  }

  /** With distinct names every slot holds its field's value. */
  lemma PickedDistinct(fields: seq<Field>, wanted: seq<Name>, i: nat)
    requires i < |wanted| && forall j, k :: 0 <= j < k < |wanted| ==> wanted[j] != wanted[k]
    ensures Picked(fields, wanted)[i] == Lookup(fields, wanted[i])
  {}

  /** A repeated name has its value in its first slot only; a group column that is absent is NULL. */
  lemma PickedRepeats(fields: seq<Field>, wanted: seq<Name>, i: nat, j: nat)
    requires i < j < |wanted| && wanted[i] == wanted[j]
    ensures Picked(fields, wanted)[j] == None
    ensures Columns(fields, wanted)[j] == Columns(fields, wanted)[i]
  {
    assert wanted[..j][i] == wanted[j];
  }

  lemma ColumnsMean(fields: seq<Field>, names: seq<Name>, i: nat)
    requires i < |names|
    ensures Lookup(fields, names[i]).None? ==> Columns(fields, names)[i] == Null
    ensures forall v :: Lookup(fields, names[i]) == Some(v) ==> Columns(fields, names)[i] == v
  {}

  lemma {:induction false} HasReservedMeans(fields: seq<Field>)
    ensures HasReserved(fields) <==> exists i :: 0 <= i < |fields| && |fields[i].name| > 0 && fields[i].name[0] == 0x01
    decreases |fields|
  {
    if fields != [] {
      HasReservedMeans(fields[1..]);
      assert forall i :: 0 <= i < |fields| - 1 ==> fields[1..][i] == fields[i + 1];
      if HasReserved(fields) && !Reserved(fields[0].name) {
        var i :| 0 <= i < |fields| - 1 && |fields[1..][i].name| > 0 && fields[1..][i].name[0] == 0x01;
        assert fields[i + 1].name[0] == 0x01;
      }
      if exists i :: 0 < i < |fields| && |fields[i].name| > 0 && fields[i].name[0] == 0x01 {
        var i :| 0 < i < |fields| && |fields[i].name| > 0 && fields[i].name[0] == 0x01;
        assert fields[1..][i - 1].name[0] == 0x01;
      }
    }
  }

  lemma PickedHit(fields: seq<Field>, wanted: seq<Name>, name: Name, v: Value, k: nat)
    requires Sorted(fields) && k < |wanted| && wanted[k] == name && name !in wanted[..k]
    ensures Picked(Insert(fields, name, v), wanted) == Picked(fields, wanted)[k := Some(v)]
  {
    hide Insert, Lookup, Sorted;
    forall i | 0 <= i < |wanted|
      ensures Picked(Insert(fields, name, v), wanted)[i] == Picked(fields, wanted)[k := Some(v)][i]
    {
      InsertLookup(fields, name, v, wanted[i]);
      if i > k { assert wanted[..i][k] == name; }
      if i < k { assert wanted[..k][i] == wanted[i]; }
    }
  }

  lemma PickedMiss(fields: seq<Field>, wanted: seq<Name>, name: Name, v: Value)
    requires Sorted(fields) && name !in wanted
    ensures Picked(Insert(fields, name, v), wanted) == Picked(fields, wanted)
  {
    hide Insert, Lookup, Sorted;
    forall i | 0 <= i < |wanted| ensures Picked(Insert(fields, name, v), wanted)[i] == Picked(fields, wanted)[i] {
      InsertLookup(fields, name, v, wanted[i]);
    }
  }

  predicate HasReserved(fields: seq<Field>) {
    fields != [] && (Reserved(fields[0].name) || HasReserved(fields[1..]))
  }

  lemma {:induction false} HasReservedInsert(fields: seq<Field>, name: Name, v: Value)
    ensures HasReserved(Insert(fields, name, v)) <==> Reserved(name) || HasReserved(fields)
  {
    if fields != [] {
      CmpEqual(name, fields[0].name);
      match Cmp(name, fields[0].name) {
        case Less => assert ([Field(name, v)] + fields)[1..] == fields;
        case Equal => assert ([Field(name, v)] + fields[1..])[1..] == fields[1..];
        case Greater =>
          HasReservedInsert(fields[1..], name, v);
          assert ([fields[0]] + Insert(fields[1..], name, v))[1..] == Insert(fields[1..], name, v);
      }
    }
  }

  /** Group key components: the named fields, NULL where missing. */
  function Columns(fields: seq<Field>, names: seq<Name>): (items: seq<Value>)
    ensures |items| == |names|
  {
    seq(|names|, i requires 0 <= i < |names| =>
      match Lookup(fields, names[i])
      case Some(v) => v
      case None => Null)
  }
}
