/**
 * The `WhereClause` class: a mutable clause whose setters validate and store
 * its fields, whose `createNestedEntryData` appends child clauses built from
 * filter descriptors, and whose `build` compiles it onto a query. Nested
 * clauses are kept as `Node` values: a child is complete once appended and is
 * never changed or handed out afterwards.
 */
module WhereClauses {
  import opened Wrappers
  import opened Php
  import opened Validation
  import opened QueryTrace
  import opened ClauseTree
  import opened EntryData
  import opened EntryDataFacts

  class WhereClause {
    var column: Value
    var operator: string
    var value: Value
    var relation: string
    var nested: seq<Node>

    /** Operator and relation always passed their checks; nested clauses have the shape the builder gives them. */
    ghost predicate Valid()
      reads this
    {
      && operator in ValidOperators
      && relation in ValidRelations
      && forall i :: 0 <= i < |nested| ==> WellFormed(nested[i])
    }

    /** The clause's current state as a value. */
    function Snapshot(): Node
      reads this
    {
      Node(column, operator, value, relation, nested)
    }

    /** `new WhereClause()`: every argument takes its default. */
    constructor ()
      ensures Valid() && Snapshot() == DefaultNode
    {
      column, operator, value, relation, nested := Null, "=", Null, "and", [];
    }

    /**
     * `new WhereClause($column, $operator, $value, $relation)`: runs the four
     * setters in order and raises if the operator or the relation is invalid.
     */
    static method New(column: Value, operator: Value, value: Value, relation: Value) returns (r: Result<WhereClause, Error>)
      ensures r.Ok? <==> NewNode(column, operator, value, relation).Ok?
      ensures r.Ok? ==> fresh(r.value) && r.value.Valid() && r.value.Snapshot() == NewNode(column, operator, value, relation).value
      ensures r.Err? ==> r.error == NewNode(column, operator, value, relation).error
    {
      var clause := new WhereClause();
      clause.SetColumn(column);
      var err := clause.SetOperator(operator);
      if err.Some? {
        return Err(err.value);
      }
      clause.SetValue(value);
      err := clause.SetRelation(relation);
      if err.Some? {
        return Err(err.value);
      }
      return Ok(clause);
    }

    method GetColumn() returns (c: Value)
      ensures c == column
    {
      return column;
    }

    method GetOperator() returns (o: string)
      ensures o == operator
    {
      return operator;
    }

    method GetValue() returns (v: Value)
      ensures v == value
    {
      return value;
    }

    /** Stores any column, unchecked. */
    method SetColumn(column: Value)
      requires Valid()
      modifies this
      ensures Valid() && Snapshot() == old(Snapshot()).(column := column)
    {
      this.column := column;
    }

    /** Stores any value, unchecked: its shape is left to the query builder. */
    method SetValue(value: Value)
      requires Valid()
      modifies this
      ensures Valid() && Snapshot() == old(Snapshot()).(value := value)
    {
      this.value := value;
    }

    /** Stores the lower-cased operator, or raises and leaves the clause as it was. */
    method SetOperator(operator: Value) returns (err: Option<Error>)
      requires Valid()
      modifies this
      ensures Valid()
      ensures NormalizeOperator(operator).Ok? ==>
        err == None && Snapshot() == old(Snapshot()).(operator := NormalizeOperator(operator).value)
      ensures NormalizeOperator(operator).Err? ==>
        err == Some(InvalidOperator) && Snapshot() == old(Snapshot())
    {
      var checked := NormalizeOperator(operator);
      if checked.Err? {
        return Some(checked.error);
      }
      this.operator := checked.value;
      return None;
    }

    /** Stores the lower-cased relation, or raises and leaves the clause as it was. */
    method SetRelation(relation: Value) returns (err: Option<Error>)
      requires Valid()
      modifies this
      ensures Valid()
      ensures NormalizeRelation(relation).Ok? ==>
        err == None && Snapshot() == old(Snapshot()).(relation := NormalizeRelation(relation).value)
      ensures NormalizeRelation(relation).Err? ==>
        err == Some(InvalidRelation) && Snapshot() == old(Snapshot())
    {
      var checked := NormalizeRelation(relation);
      if checked.Err? {
        return Some(checked.error);
      }
      this.relation := checked.value;
      return None;
    }

    /** `build($query)`: appends to the query the calls this clause stands for. */
    method Build(q: Query)
      modifies q
      ensures q.calls == old(q.calls) + Compile(Snapshot())
    {
      BuildNode(Snapshot(), q);
    }

    /** `buildNested($query)`: one grouped call holding the calls of the nested clauses, in order. */
    method BuildNested(q: Query)
      modifies q
      ensures q.calls == old(q.calls) + [Nested(relation == "or", CompileAll(nested))]
    {
      BuildGroup(Snapshot(), q);
    }

    /**
     * `createNestedEntryData($items)`: appends one child clause per
     * descriptor, in order. A descriptor that raises stops the loop: the
     * children appended before it stay, and the error is returned.
     */
    method CreateNestedEntryData(items: seq<Entry>) returns (err: Option<Error>)
      requires Valid()
      modifies this
      ensures Valid()
      ensures Snapshot() == old(Snapshot()).(nested := old(nested) + ParseItems(items).children)
      ensures err == ParseItems(items).failure
      decreases SizeOfEntries(items), 2
    {
      var i := 0;
      while i < |items|
        invariant 0 <= i <= |items|
        invariant Valid()
        invariant ParseItems(items[..i]).failure == None
        invariant Snapshot() == old(Snapshot()).(nested := old(nested) + ParseItems(items[..i]).children)
      {
        EntrySmaller(items, i);
        ghost var before := nested;
        err := AppendChild(items[i].val);
        if err.Some? {
          assert ParseItems(items) == Built(ParseItems(items[..i]).children, err) by {
            ParseItemsNextItem(items, i);
            FailureIsFinal(items, i + 1);
          }
          return;
        }
        assert ParseItems(items[..i + 1]) == Built(ParseItems(items[..i]).children + nested[|before|..], None) by {
          ParseItemsNextItem(items, i);
        }
        i := i + 1;
      }
      assert items[..i] == items;
      return None;
    }

    /**
     * One pass of `createNestedEntryData`'s loop: a fresh child clause is
     * populated from the descriptor and appended, or the descriptor's error
     * is returned and nothing is appended.
     */
    method AppendChild(item: Value) returns (err: Option<Error>)
      requires Valid()
      modifies this
      ensures Valid()
      ensures ParseItem(item).Ok? ==>
        err == None && Snapshot() == old(Snapshot()).(nested := old(nested) + [ParseItem(item).value])
      ensures ParseItem(item).Err? ==> err == Some(ParseItem(item).error) && Snapshot() == old(Snapshot())
      decreases SizeOf(item), 1
    {
      var child := new WhereClause();
      err := child.Populate(item);
      if err.None? {
        nested := nested + [child.Snapshot()];
      }
    }

    /**
     * The body of `createNestedEntryData`'s loop for one descriptor, run on
     * the fresh child clause: set its relation, then either build the group's
     * descriptors into it or resolve the leaf's field into its nested clauses.
     */
    method Populate(item: Value) returns (err: Option<Error>)
      requires Valid() && Snapshot() == DefaultNode
      modifies this
      ensures Valid()
      ensures ParseItem(item).Ok? ==> err == None && Snapshot() == ParseItem(item).value
      ensures ParseItem(item).Err? ==> err == Some(ParseItem(item).error)
      decreases SizeOf(item), 0
    {
      var entries := EntriesOf(item);
      var relation := IssetOr(entries, "relation", Str("and"));
      if IsGroup(entries) {
        err := SetRelation(relation);
        if err.Some? {
          InvalidRelationRaisesFirst(item);
          return;
        }
        GroupResolvesRecursively(item, this.relation);
        UnsetShrinks(entries, "relation");
        err := CreateNestedEntryData(Unset(entries, "relation"));
      } else {
        err := SetRelation(relation);
        if err.Some? {
          InvalidRelationRaisesFirst(item);
          return;
        }
        var field, value := Isset(entries, "field"), Isset(entries, "value");
        if field.None? || value.None? {
          MissingFieldOrValueRaises(item);
          return Some(MissingFilterField);
        }
        LeafResolvesItsField(item, this.relation);
        err := AddFieldClauses(field.value, IssetOr(entries, "operator", Str("=")), value.value);
      }
    }

    /**
     * The leaf half of the loop body: append the clauses the field resolves
     * to, one on `entries.<field>` or a tag clause then a data clause. If the
     * operator is invalid it raises; the child is then discarded by the caller.
     */
    method AddFieldClauses(field: Value, operator: Value, value: Value) returns (err: Option<Error>)
      requires Valid()
      modifies this
      ensures Valid()
      ensures ResolveField(field, operator, value).Ok? ==>
        err == None && Snapshot() == old(Snapshot()).(nested := old(nested) + ResolveField(field, operator, value).value)
      ensures ResolveField(field, operator, value).Err? ==> err == Some(InvalidOperator)
    {
      DefaultsAreValid();
      if IsEntryColumn(field) {
        err := AppendNew(Str("entries." + field.text), operator, value);
      } else {
        err := AppendNew(Str(ShortTagColumn), Str("="), field);
        err := AppendNew(Str(DataColumn), operator, value);
      }
    }

    /** `$whereClause->nested[] = new WhereClause($column, $operator, $value)`: appends the new clause, or raises and appends nothing. */
    method AppendNew(column: Value, operator: Value, value: Value) returns (err: Option<Error>)
      requires Valid()
      modifies this
      ensures Valid()
      ensures NewNode(column, operator, value, Str("and")).Ok? ==>
        err == None && Snapshot() == old(Snapshot()).(nested := old(nested) + [NewNode(column, operator, value, Str("and")).value])
      ensures NewNode(column, operator, value, Str("and")).Err? ==>
        err == Some(NewNode(column, operator, value, Str("and")).error) && Snapshot() == old(Snapshot())
    {
      var clause := New(column, operator, value, Str("and"));
      if clause.Err? {
        return Some(clause.error);
      }
      nested := nested + [clause.value.Snapshot()];
      return None;
    }
  }
}
