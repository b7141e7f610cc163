/**
 * `createNestedEntryData`: a list of filter descriptors becomes a list of
 * clause trees. A descriptor is a PHP array; a group descriptor holds further
 * descriptors, a leaf descriptor names a field, a value, and optionally an
 * operator and a relation. A field on the entries table becomes one clause on
 * `entries.<field>`; any other field is a custom field stored as tag/data rows
 * and becomes two clauses on the `entry_data` table.
 */
module EntryData {
  import opened Wrappers
  import opened Php
  import opened Validation
  import opened ClauseTree

  /** The fields that are columns of the entries table itself. */
  const EntryColumns: seq<string> := [
    "id", "title", "url_title", "route", "meta_title", "meta_keywords",
    "meta_description", "entry_status_id", "author_id", "created_at", "updated_at"
  ]

  const ShortTagColumn := "entry_data.content_type_field_short_tag"
  const DataColumn := "entry_data.data"

  /** `in_array($item['field'], $entryColumns)` */
  function IsEntryColumn(field: Value): (b: bool)
    ensures b <==> field.Str? && exists i :: 0 <= i < |EntryColumns| && EntryColumns[i] == field.text
  {
    field.Str? && field.text in EntryColumns
  }

  /**
   * The group test of `createNestedEntryData` as written: the first value is
   * an array, or the first key is `relation` and the value after it, compared
   * loosely (`==`) with "that value is an array", passes. `next` yields
   * `false` past the end, and a loose comparison with a boolean casts the
   * value to bool.
   */
  function IsGroupAsWritten(item: seq<Entry>): (b: bool)
    ensures b ==> |item| > 0 && (item[0].val.Array? || item[0].key == Name("relation"))
    ensures |item| > 0 && item[0].val.Array? ==> b
    ensures |item| == 1 && item[0].key == Name("relation") ==> b
    ensures |item| > 1 && !item[0].val.Array? && item[0].key == Name("relation") ==>
      (b <==> || (item[1].val.Array? && item[1].val.entries != [])
              || item[1].val == Null || item[1].val == Str("") || item[1].val == Str("0"))
  {
    && |item| > 0
    && (|| item[0].val.Array?
        || (&& item[0].key == Name("relation")
            && (|item| == 1 || Truthy(item[1].val) == item[1].val.Array?)))
  }

  /** The group test as intended: the first value, or the value after a leading `relation`, is an array. */
  function IsGroup(item: seq<Entry>): (b: bool)
    ensures |item| > 0 && item[0].val.Array? ==> b
    ensures |item| > 1 && item[0].key == Name("relation") && item[1].val.Array? ==> b
    ensures b ==> exists i :: 0 <= i < |item| && i < 2 && item[i].val.Array?
    ensures b && !item[0].val.Array? ==> item[0].key == Name("relation")
  {
    && |item| > 0
    && (|| item[0].val.Array?
        || (item[0].key == Name("relation") && |item| > 1 && item[1].val.Array?))
  }

  /**
   * The column-resolution policy for a leaf descriptor: a column of the
   * entries table gives one clause on `entries.<field>`; any other field
   * gives a clause selecting the tag row for the field, then a clause on its
   * data. Both clauses are created with relation `and`, so they are AND-ed.
   */
  function ResolveField(field: Value, operator: Value, value: Value): (r: Result<seq<Node>, Error>)
    ensures r.Err? <==> NormalizeOperator(operator).Err?
    ensures r.Err? ==> r.error == InvalidOperator
    ensures r.Ok? ==> |r.value| == (if IsEntryColumn(field) then 1 else 2)
    ensures r.Ok? ==> forall i :: 0 <= i < |r.value| ==>
      WellFormed(r.value[i]) && r.value[i].nested == [] && r.value[i].relation == "and"
  {
    DefaultsAreValid();
    if IsEntryColumn(field) then
      var clause :- NewNode(Str("entries." + field.text), operator, value, Str("and"));
      Ok([clause])
    else
      var tag := NewNode(Str(ShortTagColumn), Str("="), field, Str("and")).value;
      var data :- NewNode(Str(DataColumn), operator, value, Str("and"));
      Ok([tag, data])
  }

  /** The outcome of the loop over the descriptors: the clauses appended before it stopped, and why it stopped. */
  datatype Built = Built(children: seq<Node>, failure: Option<Error>)

  /**
   * One pass of the loop body: the child clause a single descriptor becomes.
   * Its relation comes from the descriptor (default `and`) and is checked
   * first; a group's nested descriptors are then built recursively, while a
   * leaf needs both `field` and `value` set and resolves the field to one or
   * two nested clauses.
   */
  function ParseItem(item: Value): (r: Result<Node, Error>)
    ensures r.Ok? ==> WellFormed(r.value)
    ensures r.Ok? ==> r.value.column == Null && r.value.operator == "=" && r.value.value == Null
    ensures r.Ok? ==> NormalizeRelation(IssetOr(EntriesOf(item), "relation", Str("and"))) == Ok(r.value.relation)
    decreases SizeOf(item)
  {
    var entries := EntriesOf(item);
    var relation :- NormalizeRelation(IssetOr(entries, "relation", Str("and")));
    if IsGroup(entries) then
      var sub := Unset(entries, "relation");
      UnsetShrinks(entries, "relation");
      var built := ParseItems(sub);
      if built.failure.Some? then Err(built.failure.value)
      else Ok(Node(Null, "=", Null, relation, built.children))
    else
      var field := Isset(entries, "field");
      var value := Isset(entries, "value");
      if field.None? || value.None? then Err(MissingFilterField)
      else
        var clauses :- ResolveField(field.value, IssetOr(entries, "operator", Str("=")), value.value);
        Ok(Node(Null, "=", Null, relation, clauses))
  }

  /**
   * The loop of `createNestedEntryData`: one child clause per descriptor, in
   * order, stopping at the first descriptor that raises.
   */
  function ParseItems(items: seq<Entry>): (b: Built)
    ensures b.failure.None? ==> |b.children| == |items|
    ensures b.failure.Some? ==> |b.children| < |items|
    ensures forall i :: 0 <= i < |b.children| ==> WellFormed(b.children[i])
    decreases SizeOfEntries(items)
  {
    if items == [] then Built([], None)
    else
      var done := ParseItems(items[..|items| - 1]);
      if done.failure.Some? then done
      else
        match ParseItem(items[|items| - 1].val)
        case Err(e) => Built(done.children, Some(e))
        case Ok(child) => Built(done.children + [child], None)
  }
}

module EntryDataFacts {
  import opened Wrappers
  import opened Php
  import opened Validation
  import opened QueryTrace
  import opened ClauseTree
  import opened EntryData

  /**
   * One child per descriptor, in input order: every clause appended is the
   * clause its own descriptor becomes, and the loop stops exactly at the
   * first descriptor that raises.
   */
  ghost predicate OnePerItem(items: seq<Entry>)
  {
    var b := ParseItems(items);
    && (forall i :: 0 <= i < |b.children| ==> ParseItem(items[i].val) == Ok(b.children[i]))
    && (b.failure.Some? ==> ParseItem(items[|b.children|].val) == Err(b.failure.value))
  }

  lemma {:induction false} ParseItemsOnePerItem(items: seq<Entry>)
    ensures forall i :: 0 <= i < |ParseItems(items).children| ==> ParseItem(items[i].val) == Ok(ParseItems(items).children[i])
    ensures ParseItems(items).failure.Some? ==>
      ParseItem(items[|ParseItems(items).children|].val) == Err(ParseItems(items).failure.value)
    decreases |items|
  {
    if items != [] {
      var init := items[..|items| - 1];
      ParseItemsOnePerItem(init);
      assert OnePerItem(init);
      if ParseItems(init).failure.Some? {
        ExtendAfterFailure(items);
      } else if ParseItem(items[|items| - 1].val).Ok? {
        ExtendWithChild(items);
      } else {
        ExtendWithFailure(items);
      }
      assert OnePerItem(items);
    }
  }

  /** Step of `ParseItemsOnePerItem`: a loop that has already stopped stays as it was. */
  lemma ExtendAfterFailure(items: seq<Entry>)
    requires items != [] && OnePerItem(items[..|items| - 1])
    requires ParseItems(items[..|items| - 1]).failure.Some?
    ensures OnePerItem(items)
  {
    var init := items[..|items| - 1];
    var done := ParseItems(init);
    assert ParseItems(items) == done;
    forall i | 0 <= i <= |done.children| ensures items[i] == init[i] {
    }
  }

  /** Step of `ParseItemsOnePerItem`: a descriptor that parses appends its own child. */
  lemma ExtendWithChild(items: seq<Entry>)
    requires items != [] && OnePerItem(items[..|items| - 1])
    requires ParseItems(items[..|items| - 1]).failure.None?
    requires ParseItem(items[|items| - 1].val).Ok?
    ensures OnePerItem(items)
  {
    var init := items[..|items| - 1];
    var done, last := ParseItems(init), ParseItem(items[|items| - 1].val).value;
    var b := ParseItems(items);
    assert b == Built(done.children + [last], None);
    forall i | 0 <= i < |b.children| ensures ParseItem(items[i].val) == Ok(b.children[i]) {
      if i < |done.children| {
        assert items[i] == init[i] && b.children[i] == done.children[i];
        assert ParseItem(init[i].val) == Ok(done.children[i]);
      } else {
        assert i == |items| - 1 && b.children[i] == last;
      }
    }
  }

  /** Step of `ParseItemsOnePerItem`: a descriptor that raises stops the loop with its error. */
  lemma ExtendWithFailure(items: seq<Entry>)
    requires items != [] && OnePerItem(items[..|items| - 1])
    requires ParseItems(items[..|items| - 1]).failure.None?
    requires ParseItem(items[|items| - 1].val).Err?
    ensures OnePerItem(items)
  {
    var init := items[..|items| - 1];
    var done := ParseItems(init);
    assert ParseItems(items) == Built(done.children, Some(ParseItem(items[|items| - 1].val).error));
    forall i | 0 <= i < |done.children| ensures items[i] == init[i] {
    }
  }

  /** The loop succeeds exactly when every descriptor does. */
  lemma ParseItemsSucceedsIffEveryItemDoes(items: seq<Entry>)
    ensures ParseItems(items).failure.None? <==> forall i :: 0 <= i < |items| ==> ParseItem(items[i].val).Ok?
  {
    ParseItemsOnePerItem(items);
    var b := ParseItems(items);
    if b.failure.Some? {
      var k := |b.children|;
      assert !ParseItem(items[k].val).Ok?;
    } else {
      forall i | 0 <= i < |items| ensures ParseItem(items[i].val).Ok? {
        assert ParseItem(items[i].val) == Ok(b.children[i]);
      }
    }
  }

  /** One more pass of the loop, while nothing has raised yet: the next descriptor appends its child or stops the loop. */
  lemma ParseItemsNextItem(items: seq<Entry>, i: nat)
    requires i < |items| && ParseItems(items[..i]).failure.None?
    ensures ParseItem(items[i].val).Ok? ==>
      ParseItems(items[..i + 1]) == Built(ParseItems(items[..i]).children + [ParseItem(items[i].val).value], None)
    ensures ParseItem(items[i].val).Err? ==>
      ParseItems(items[..i + 1]) == Built(ParseItems(items[..i]).children, Some(ParseItem(items[i].val).error))
  {
    assert items[..i + 1][..i] == items[..i];
  }

  /** Once a descriptor has raised, the descriptors after it change nothing. */
  lemma {:induction false} FailureIsFinal(items: seq<Entry>, j: nat)
    requires j <= |items| && ParseItems(items[..j]).failure.Some?
    ensures ParseItems(items) == ParseItems(items[..j])
    decreases |items|
  {
    if j < |items| {
      var init := items[..|items| - 1];
      assert init[..j] == items[..j];
      FailureIsFinal(init, j);
    } else {
      assert items[..j] == items;
    }
  }

  /** The relation is checked before anything else, in a group as in a leaf. */
  lemma InvalidRelationRaisesFirst(item: Value)
    requires NormalizeRelation(IssetOr(EntriesOf(item), "relation", Str("and"))).Err?
    ensures ParseItem(item) == Err(InvalidRelation)
  {
  }

  /** A leaf descriptor without a set `field` or a set `value` (a null one counts as unset) raises. */
  lemma MissingFieldOrValueRaises(item: Value)
    requires !IsGroup(EntriesOf(item))
    requires NormalizeRelation(IssetOr(EntriesOf(item), "relation", Str("and"))).Ok?
    requires Isset(EntriesOf(item), "field").None? || Isset(EntriesOf(item), "value").None?
    ensures ParseItem(item) == Err(MissingFilterField)
  {
  }

  /**
   * A leaf descriptor on a column of the entries table becomes a child with
   * exactly one nested clause on `entries.<field>`, with the descriptor's
   * operator (default `=`), its value and relation `and`.
   */
  lemma EntryColumnResolvesToOneClause(item: Value, field: string, value: Value, relation: string)
    requires !IsGroup(EntriesOf(item))
    requires NormalizeRelation(IssetOr(EntriesOf(item), "relation", Str("and"))) == Ok(relation)
    requires Isset(EntriesOf(item), "field") == Some(Str(field)) && field in EntryColumns
    requires Isset(EntriesOf(item), "value") == Some(value)
    ensures NormalizeOperator(IssetOr(EntriesOf(item), "operator", Str("="))).Err? ==>
      ParseItem(item) == Err(InvalidOperator)
    ensures NormalizeOperator(IssetOr(EntriesOf(item), "operator", Str("="))).Ok? ==>
      var operator := NormalizeOperator(IssetOr(EntriesOf(item), "operator", Str("="))).value;
      ParseItem(item) == Ok(Node(Null, "=", Null, relation, [
        Node(Str("entries." + field), operator, value, "and", [])
      ]))
  {
    DefaultsAreValid();
  }

  /**
   * A leaf descriptor on any other field becomes a child with exactly two
   * nested clauses, both with relation `and`: the tag column equals the field
   * name, then the data column under the descriptor's operator and value.
   */
  lemma CustomFieldResolvesToTagAndData(item: Value, field: Value, value: Value, relation: string)
    requires !IsGroup(EntriesOf(item))
    requires NormalizeRelation(IssetOr(EntriesOf(item), "relation", Str("and"))) == Ok(relation)
    requires Isset(EntriesOf(item), "field") == Some(field) && !IsEntryColumn(field)
    requires Isset(EntriesOf(item), "value") == Some(value)
    ensures NormalizeOperator(IssetOr(EntriesOf(item), "operator", Str("="))).Err? ==>
      ParseItem(item) == Err(InvalidOperator)
    ensures NormalizeOperator(IssetOr(EntriesOf(item), "operator", Str("="))).Ok? ==>
      var operator := NormalizeOperator(IssetOr(EntriesOf(item), "operator", Str("="))).value;
      ParseItem(item) == Ok(Node(Null, "=", Null, relation, [
        Node(Str(ShortTagColumn), "=", field, "and", []),
        Node(Str(DataColumn), operator, value, "and", [])
      ]))
  {
    DefaultsAreValid();
  }

  /** A leaf descriptor with both `field` and `value` set becomes a child holding the clauses its field resolves to. */
  lemma LeafResolvesItsField(item: Value, relation: string)
    requires !IsGroup(EntriesOf(item))
    requires NormalizeRelation(IssetOr(EntriesOf(item), "relation", Str("and"))) == Ok(relation)
    requires Isset(EntriesOf(item), "field").Some? && Isset(EntriesOf(item), "value").Some?
    ensures var resolved := ResolveField(Isset(EntriesOf(item), "field").value,
                                         IssetOr(EntriesOf(item), "operator", Str("=")),
                                         Isset(EntriesOf(item), "value").value);
      && (resolved.Ok? ==> ParseItem(item) == Ok(Node(Null, "=", Null, relation, resolved.value)))
      && (resolved.Err? ==> ParseItem(item) == Err(resolved.error))
  {
  }

  /**
   * A group descriptor becomes a child whose nested clauses are its other
   * descriptors (its `relation` entry removed), built recursively; a failure
   * among them is the group's failure.
   */
  lemma GroupResolvesRecursively(item: Value, relation: string)
    requires IsGroup(EntriesOf(item))
    requires NormalizeRelation(IssetOr(EntriesOf(item), "relation", Str("and"))) == Ok(relation)
    ensures ParseItems(Unset(EntriesOf(item), "relation")).failure.None? ==>
      ParseItem(item) == Ok(Node(Null, "=", Null, relation, ParseItems(Unset(EntriesOf(item), "relation")).children))
    ensures ParseItems(Unset(EntriesOf(item), "relation")).failure.Some? ==>
      ParseItem(item) == Err(ParseItems(Unset(EntriesOf(item), "relation")).failure.value)
  {
  }

  /**
   * Everything the descriptors build compiles without loss: one grouped call
   * per descriptor, in order, from which the clause trees read back exactly.
   */
  lemma ParsedClausesCompileLosslessly(items: seq<Entry>)
    requires ParseItems(items).failure.None?
    ensures |CompileAll(ParseItems(items).children)| == |items|
    ensures DecompileAll(CompileAll(ParseItems(items).children)) == ParseItems(items).children
  {
    CompileAllOnePerClause(ParseItems(items).children);
    CompileAllRoundTrip(ParseItems(items).children);
  }

  /** The intended group test never takes a flat descriptor (no array among its values) for a group. */
  lemma FlatDescriptorIsLeaf(item: seq<Entry>)
    requires forall i :: 0 <= i < |item| ==> !item[i].val.Array?
    ensures !IsGroup(item)
  {
  }

  /**
   * The two group tests disagree only on a descriptor that starts with
   * `relation` followed by nothing or by a value that casts to false.
   */
  lemma GroupTestsDisagreeOnlyOnFalsySecond(item: seq<Entry>)
    requires IsGroupAsWritten(item) != IsGroup(item)
    ensures item[0].key == Name("relation") && !item[0].val.Array?
    ensures |item| == 1 || !Truthy(item[1].val)
  {
  }

  /**
   * The descriptor `['relation' => 'and', 'value' => '', 'field' => 'title']`:
   * the group test as written takes it for a group, whose two string
   * "descriptors" then raise for lack of a field, while the intended test
   * reads it as the leaf `entries.title = ''`.
   */
  lemma GroupTestAsWrittenMisreadsFalsyValue()
    ensures var item := [
        Entry(Name("relation"), Str("and")),
        Entry(Name("value"), Str("")),
        Entry(Name("field"), Str("title"))
      ];
      && IsGroupAsWritten(item)
      && ParseItems(Unset(item, "relation")).failure == Some(MissingFilterField)
      && !IsGroup(item)
      && ParseItem(Array(item)) == Ok(Node(Null, "=", Null, "and", [Node(Str("entries.title"), "=", Str(""), "and", [])]))
  {
    var item := [
      Entry(Name("relation"), Str("and")),
      Entry(Name("value"), Str("")),
      Entry(Name("field"), Str("title"))
    ];
    MisreadAsGroupRaises(item);
    ReadAsLeafResolves(item);
  }

  /**
   * The descriptor `['relation' => 'or']`: the group test as written takes it
   * for a group with nothing left to parse once `relation` is removed, so the
   * code appends an empty group; the intended test reads it as a leaf, which
   * raises for lack of a field.
   */
  lemma LoneRelationIsGroupOnlyAsWritten(item: seq<Entry>)
    requires item == [Entry(Name("relation"), Str("or"))]
    ensures IsGroupAsWritten(item) && ParseItems(Unset(item, "relation")) == Built([], None)
    ensures !IsGroup(item) && ParseItem(Array(item)) == Err(MissingFilterField)
  {
    assert item[1..] == [];
    assert Unset(item, "relation") == [];
    ListedAreLowerCase();
    LowerFixesExactlyLowerCase("or");
    assert NormalizeRelation(Str("or")) == Ok("or");
    assert Get(item, "field") == None;
  }

  /**
   * The descriptor `['relation' => 'and', 'x' => []]`: an empty array casts to
   * false, so the group test as written reads it as a leaf, while the
   * intended test takes it for a group whose one member, the empty array,
   * raises for lack of a field.
   */
  lemma EmptyArraySecondIsGroupOnlyAsIntended(item: seq<Entry>)
    requires item == [Entry(Name("relation"), Str("and")), Entry(Name("x"), Array([]))]
    ensures !IsGroupAsWritten(item)
    ensures IsGroup(item) && ParseItem(Array(item)) == Err(MissingFilterField)
  {
    DefaultsAreValid();
    var e0, e1 := item[0], item[1];
    assert item[1..] == [e1] && [e1][1..] == [];
    assert Unset([e1], "relation") == [e1];
    assert Unset(item, "relation") == [e1];
    GetInPair(e0, e1, "relation");
    assert ParseItem(Array([])) == Err(MissingFilterField);
    assert [e1][..0] == [];
  }

  /** Read as a group, the descriptor's two string values are taken for descriptors, and the first raises. */
  lemma MisreadAsGroupRaises(item: seq<Entry>)
    requires item == [Entry(Name("relation"), Str("and")), Entry(Name("value"), Str("")), Entry(Name("field"), Str("title"))]
    ensures IsGroupAsWritten(item)
    ensures ParseItems(Unset(item, "relation")).failure == Some(MissingFilterField)
  {
    DefaultsAreValid();
    var e0, e1, e2 := item[0], item[1], item[2];
    assert item[1..] == [e1, e2] && [e1, e2][1..] == [e2] && [e2][1..] == [];
    assert Unset([e2], "relation") == [e2];
    assert Unset([e1, e2], "relation") == [e1, e2];
    var rest := Unset(item, "relation");
    assert rest == [e1, e2];
    assert ParseItem(Str("")) == Err(MissingFilterField);
    assert ParseItems(rest[..1]) == Built([], Some(MissingFilterField));
  }

  /** Read as a leaf, the same descriptor is the filter `entries.title = ''`. */
  lemma ReadAsLeafResolves(item: seq<Entry>)
    requires item == [Entry(Name("relation"), Str("and")), Entry(Name("value"), Str("")), Entry(Name("field"), Str("title"))]
    ensures !IsGroup(item)
    ensures ParseItem(Array(item)) == Ok(Node(Null, "=", Null, "and", [Node(Str("entries.title"), "=", Str(""), "and", [])]))
  {
    assert "entries." + "title" == "entries.title";
    DefaultsAreValid();
    var e0, e1, e2 := item[0], item[1], item[2];
    assert item == [e0, e1, e2];
    GetInTriple(e0, e1, e2, "relation");
    GetInTriple(e0, e1, e2, "field"); GetInPair(e1, e2, "field");
    GetInTriple(e0, e1, e2, "value"); GetInPair(e1, e2, "value");
    GetInTriple(e0, e1, e2, "operator"); GetInPair(e1, e2, "operator");
    EntryColumnResolvesToOneClause(Array(item), "title", Str(""), "and");
  }
}
