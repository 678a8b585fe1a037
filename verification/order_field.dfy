/**
 * The auto-ordering model field of the courses app: a positive-integer column
 * that, right before a record is saved, fills itself with "one more than the
 * largest order among the records of the same group", or 0 when the group is
 * empty, unless the record already carries an order.
 */
module Fields {

  datatype Option<T> = None | Some(value: T)

  /** A column value as the ORM reads it: NULL, an integer (foreign-key ids included) or text. */
  datatype Value = Null | Int(i: int) | Text(s: string)

  /** A persisted row of the ordered model: its other columns by attribute name, and its order. */
  datatype Record = Record(fields: map<string, Value>, order: nat)

  /** Python truthiness of `for_fields`: both None and the empty list mean "one global sequence". */
  predicate Scoped(forFields: Option<seq<string>>): (b: bool)
    ensures b <==> forFields != None && forFields != Some([])
  {
    forFields.Some? && |forFields.value| > 0
  }

  /** Every grouping name is an attribute of the instance (otherwise `getattr` raises). */
  predicate HasFields(fields: map<string, Value>, forFields: Option<seq<string>>)
  {
    forFields.Some? ==> forall f :: f in forFields.value ==> f in fields
  }

  /**
   * Group membership: a record belongs to the candidate's group when it
   * agrees with the candidate on every grouping attribute; without grouping
   * every record belongs.
   */
  predicate InGroup(r: Record, forFields: Option<seq<string>>, fields: map<string, Value>)
  {
    Scoped(forFields) ==>
      forall f :: f in forFields.value ==> f in r.fields && f in fields && r.fields[f] == fields[f]
  }

  // ---------------------------------------------------------------------
  // The query the field issues: a filter dictionary, a filter, `latest`.
  // ---------------------------------------------------------------------

  /** The keyword arguments of the filter: each grouping name mapped to the instance's value. */
  function Query(names: seq<string>, fields: map<string, Value>): (r: map<string, Value>)
    ensures forall f :: f in r <==> f in names && f in fields
    ensures forall f :: f in r ==> r[f] == fields[f]
  {
    map f | f in names && f in fields :: fields[f]
  }

  /** A row passes `filter(**query)` when it has every queried column with the queried value. */
  predicate Satisfies(r: Record, query: map<string, Value>)
  {
    forall f :: f in query ==> f in r.fields && r.fields[f] == query[f]
  }

  /** `qs.filter(**query)`: exactly the rows of `qs` that satisfy the query. */
  function Filter(qs: seq<Record>, query: map<string, Value>): (r: seq<Record>)
    ensures |r| <= |qs|
    ensures forall x :: x in r <==> x in qs && Satisfies(x, query)
  {
    if qs == [] then []
    else if Satisfies(qs[0], query) then [qs[0]] + Filter(qs[1..], query)
    else Filter(qs[1..], query)
  }

  /**
   * `qs.latest("order")`: a row with the largest order, or None where the ORM
   * raises ObjectDoesNotExist because the query set is empty.
   */
  function Latest(qs: seq<Record>): (r: Option<Record>)
    ensures r.None? <==> qs == []
    ensures r.Some? ==> r.value in qs && forall x :: x in qs ==> x.order <= r.value.order
  {
    if qs == [] then None
    else
      match Latest(qs[1..])
      case None => Some(qs[0])
      case Some(rest) => if rest.order <= qs[0].order then Some(qs[0]) else Some(rest)
  }

  /** Under the attribute assumption, the filter dictionary selects exactly the candidate's group. */
  lemma QuerySelectsGroup(r: Record, forFields: Option<seq<string>>, fields: map<string, Value>)
    requires Scoped(forFields) && HasFields(fields, forFields)
    ensures Satisfies(r, Query(forFields.value, fields)) <==> InGroup(r, forFields, fields)
  {
    var q := Query(forFields.value, fields);
    if Satisfies(r, q) {
      forall f | f in forFields.value
        ensures f in r.fields && f in fields && r.fields[f] == fields[f]
      {
        assert f in q;
      }
    }
  }

  /**
   * The value the field assigns to a record whose order is unset: 0 when no
   * record of its group exists, otherwise one more than the group's largest
   * order, so it is strictly above every order already in the group.
   */
  function NextOrder(rows: seq<Record>, forFields: Option<seq<string>>, fields: map<string, Value>): (r: nat)
    requires HasFields(fields, forFields)
    ensures r == 0 <==> forall x :: x in rows ==> !InGroup(x, forFields, fields)
    ensures forall x :: x in rows && InGroup(x, forFields, fields) ==> x.order < r
    ensures r > 0 ==> exists x :: x in rows && InGroup(x, forFields, fields) && x.order + 1 == r
  {
    var qs := if Scoped(forFields) then Filter(rows, Query(forFields.value, fields)) else rows;
    assert forall x :: x in qs <==> x in rows && InGroup(x, forFields, fields) by {
      forall x ensures x in qs <==> x in rows && InGroup(x, forFields, fields) {
        if Scoped(forFields) {
          QuerySelectsGroup(x, forFields, fields);
        }
      }
    }
    match Latest(qs)
    case None => 0
    case Some(last) => last.order + 1
  }

  // ---------------------------------------------------------------------
  // Properties of the assigned value.
  // ---------------------------------------------------------------------

  /** Any value meeting NextOrder's characterisation is NextOrder's value. */
  lemma NextOrderUnique(rows: seq<Record>, forFields: Option<seq<string>>, fields: map<string, Value>, v: nat)
    requires HasFields(fields, forFields)
    requires v == 0 <==> forall x :: x in rows ==> !InGroup(x, forFields, fields)
    requires forall x :: x in rows && InGroup(x, forFields, fields) ==> x.order < v
    requires v > 0 ==> exists x :: x in rows && InGroup(x, forFields, fields) && x.order + 1 == v
    ensures NextOrder(rows, forFields, fields) == v
  {
    var n := NextOrder(rows, forFields, fields);
    if v > 0 {
      var x :| x in rows && InGroup(x, forFields, fields) && x.order + 1 == v;
      assert x.order < n;
      var y :| y in rows && InGroup(y, forFields, fields) && y.order + 1 == n;
      assert y.order < v;
    }
  }

  /**
   * Groups do not affect each other: two stores holding the same records of
   * the candidate's group yield the same value, whatever else they hold.
   */
  lemma {:induction false} GroupsIndependent(rows1: seq<Record>, rows2: seq<Record>,
                                             forFields: Option<seq<string>>, fields: map<string, Value>)
    requires HasFields(fields, forFields)
    requires forall x :: InGroup(x, forFields, fields) ==> (x in rows1 <==> x in rows2)
    ensures NextOrder(rows1, forFields, fields) == NextOrder(rows2, forFields, fields)
  {
    var n1 := NextOrder(rows1, forFields, fields);
    NextOrderUnique(rows2, forFields, fields, n1);
  }

  /** Records of other groups, inserted anywhere in the store, leave the value unchanged. */
  lemma OtherGroupsIgnored(before: seq<Record>, others: seq<Record>, after: seq<Record>,
                           forFields: Option<seq<string>>, fields: map<string, Value>)
    requires HasFields(fields, forFields)
    requires forall x :: x in others ==> !InGroup(x, forFields, fields)
    ensures NextOrder(before + others + after, forFields, fields) == NextOrder(before + after, forFields, fields)
  {
    GroupsIndependent(before + others + after, before + after, forFields, fields);
  }

  /**
   * Without grouping (None or an empty list) there is one sequence over the
   * whole table: the value ignores the candidate's attributes and lies above
   * every stored order.
   */
  lemma GlobalSequence(rows: seq<Record>, forFields1: Option<seq<string>>, fields1: map<string, Value>,
                       forFields2: Option<seq<string>>, fields2: map<string, Value>)
    requires !Scoped(forFields1) && !Scoped(forFields2)
    requires HasFields(fields1, forFields1) && HasFields(fields2, forFields2)
    ensures NextOrder(rows, forFields1, fields1) == NextOrder(rows, forFields2, fields2)
    ensures forall x :: x in rows ==> x.order < NextOrder(rows, forFields1, fields1)
    ensures NextOrder(rows, forFields1, fields1) == 0 <==> rows == []
  {
    var n := NextOrder(rows, forFields1, fields1);
    assert forall x :: InGroup(x, forFields1, fields1) && InGroup(x, forFields2, fields2);
    NextOrderUnique(rows, forFields2, fields2, n);
    if rows != [] {
      assert rows[0] in rows;
    }
  }

  /**
   * Saving the candidate with the value it was given makes the next candidate
   * of the same group receive exactly one more.
   */
  lemma {:induction false} SaveThenNext(rows: seq<Record>, forFields: Option<seq<string>>, fields: map<string, Value>)
    requires HasFields(fields, forFields)
    ensures NextOrder(rows + [Record(fields, NextOrder(rows, forFields, fields))], forFields, fields)
            == NextOrder(rows, forFields, fields) + 1
  {
    var n := NextOrder(rows, forFields, fields);
    var saved := Record(fields, n);
    var rows' := rows + [saved];
    assert InGroup(saved, forFields, fields);
    assert saved in rows';
    forall x | x in rows' && InGroup(x, forFields, fields)
      ensures x.order < n + 1
    {
      if x != saved {
        assert x in rows;
      }
    }
    NextOrderUnique(rows', forFields, fields, n + 1);
  }

  /** Within each group, no two stored records share an order. */
  ghost predicate OrdersUnique(rows: seq<Record>, forFields: Option<seq<string>>)
  {
    forall i, j :: 0 <= i < j < |rows| && InGroup(rows[i], forFields, rows[j].fields) ==> rows[i].order != rows[j].order
  }

  /**
   * The assigned value never collides with an order already in the group, so
   * saving the candidate with it keeps orders unique within every group.
   */
  lemma {:induction false} SaveKeepsOrdersUnique(rows: seq<Record>, forFields: Option<seq<string>>,
                                                 fields: map<string, Value>)
    requires OrdersUnique(rows, forFields)
    requires HasFields(fields, forFields)
    ensures OrdersUnique(rows + [Record(fields, NextOrder(rows, forFields, fields))], forFields)
  {
    var n := NextOrder(rows, forFields, fields);
    var rows' := rows + [Record(fields, n)];
    forall i, j | 0 <= i < j < |rows'| && InGroup(rows'[i], forFields, rows'[j].fields)
      ensures rows'[i].order != rows'[j].order
    {
      if j == |rows| {
        assert rows'[i] == rows[i] && rows[i] in rows;
      } else {
        assert rows'[i] == rows[i] && rows'[j] == rows[j];
      }
    }
  }

  /** Three saves into an empty table without grouping receive 0, 1 and 2. */
  lemma GlobalSequenceFromEmpty(k1: map<string, Value>, k2: map<string, Value>, k3: map<string, Value>)
    ensures NextOrder([], None, k1) == 0
    ensures NextOrder([Record(k1, 0)], None, k2) == 1
    ensures NextOrder([Record(k1, 0), Record(k2, 1)], None, k3) == 2
  {
    GlobalSequence([], None, k1, None, k1);
    SaveThenNext([], None, k1);
    GlobalSequence([Record(k1, 0)], None, k1, None, k2);
    SaveThenNext([Record(k1, 0)], None, k2);
    assert [Record(k1, 0)] + [Record(k2, 1)] == [Record(k1, 0), Record(k2, 1)];
    GlobalSequence([Record(k1, 0), Record(k2, 1)], None, k2, None, k3);
  }

  // ---------------------------------------------------------------------
  // The objects: the table, the unsaved instance and the field itself.
  // ---------------------------------------------------------------------

  /** The persisted rows of the ordered model (`self.model.objects`). */
  class Table {
    var rows: seq<Record>

    constructor(rows: seq<Record>)
      ensures this.rows == rows
    {
      this.rows := rows;
    }
  }

  /** A model instance about to be saved: its attributes and its order attribute, None while unset. */
  class Instance {
    var fields: map<string, Value>
    var order: Option<nat>

    constructor(fields: map<string, Value>, order: Option<nat>)
      ensures this.fields == fields && this.order == order
    {
      this.fields := fields;
      this.order := order;
    }
  }

  /** The ordering field, configured with the attribute names that scope its sequence. */
  class OrderField {
    var forFields: Option<seq<string>>

    constructor(forFields: Option<seq<string>> := None)
      ensures this.forFields == forFields
    {
      this.forFields := forFields;
    }

    /**
     * Runs before the instance is saved. An order already present is kept
     * and returned; otherwise the next order of the instance's group is
     * written onto the instance and returned. The table is only read.
     * `add` (whether this is an insert) plays no part, as in the source.
     */
    method PreSave(instance: Instance, table: Table, add: bool) returns (value: nat)
      requires instance.order.None? ==> HasFields(instance.fields, forFields)
      modifies instance`order
      ensures instance.order == Some(value)
      ensures old(instance.order).Some? ==> value == old(instance.order).value
      ensures old(instance.order).None? ==> value == NextOrder(table.rows, forFields, instance.fields)
      ensures instance.fields == old(instance.fields)
      ensures table.rows == old(table.rows)
    {
      if instance.order.None? {
        var qs := table.rows;
        if Scoped(forFields) {
          var query := Query(forFields.value, instance.fields);
          qs := Filter(qs, query);
        }
        var last := Latest(qs);
        if last.Some? {
          value := last.value.order + 1;
        } else {
          value := 0;
        }
        instance.order := Some(value);
      } else {
        value := instance.order.value;
      }
    }
  }

  /** The stored orders of the worked cases below: module 1 holds 0, 1 and 2, module 2 holds 7. */
  lemma ExampleTable()
    ensures NextOrder([Record(map["module" := Int(1)], 0), Record(map["module" := Int(2)], 7),
                       Record(map["module" := Int(1)], 2), Record(map["module" := Int(1)], 1)],
                      Some(["module"]), map["module" := Int(1)]) == 3
    ensures NextOrder([Record(map["module" := Int(1)], 0), Record(map["module" := Int(2)], 7),
                       Record(map["module" := Int(1)], 2), Record(map["module" := Int(1)], 1)],
                      Some(["module"]), map["module" := Int(2)]) == 8
  {
    var m1 := map["module" := Int(1)];
    var m2 := map["module" := Int(2)];
    var rows := [Record(m1, 0), Record(m2, 7), Record(m1, 2), Record(m1, 1)];
    var group := Some(["module"]);
    assert Record(m1, 2) in rows && InGroup(Record(m1, 2), group, m1);
    assert Record(m2, 7) in rows && InGroup(Record(m2, 7), group, m2);
    forall x | x in rows && InGroup(x, group, m1) ensures x.order <= 2 {
      assert "module" in group.value;
    }
    forall x | x in rows && InGroup(x, group, m2) ensures x.order <= 7 {
      assert "module" in group.value;
    }
    NextOrderUnique(rows, group, m1, 3);
    NextOrderUnique(rows, group, m2, 8);
  }

  /**
   * Worked case: module 1 holds orders 0, 1 and 2 and module 2 holds 7; a new
   * module-1 record gets 3 and a new module-2 record gets 8.
   */
  method ExampleGroupedSaves() returns (first: nat, otherGroup: nat)
    ensures first == 3 && otherGroup == 8
  {
    var m1 := map["module" := Int(1)];
    var m2 := map["module" := Int(2)];
    var table := new Table([Record(m1, 0), Record(m2, 7), Record(m1, 2), Record(m1, 1)]);
    var field := new OrderField(Some(["module"]));
    ExampleTable();
    var a := new Instance(m1, None);
    assert HasFields(a.fields, field.forFields);
    first := field.PreSave(a, table, true);

    var b := new Instance(m2, None);
    assert HasFields(b.fields, field.forFields);
    otherGroup := field.PreSave(b, table, true);
  }

  /** Worked case: an explicit order of 5 stays 5 whatever the group holds, also on a second save. */
  method ExampleExplicitSave() returns (explicit: nat, again: nat)
    ensures explicit == 5 && again == 5
  {
    var m1 := map["module" := Int(1)];
    var table := new Table([Record(m1, 0), Record(m1, 9)]);
    var field := new OrderField(Some(["module"]));
    var c := new Instance(m1, Some(5));
    explicit := field.PreSave(c, table, true);
    again := field.PreSave(c, table, false);
  }
}
