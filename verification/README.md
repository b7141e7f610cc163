# WhereClause: the entry filter builder of CMS Canvas, in Dafny

CMS Canvas filters content entries with a tree of `WhereClause` objects. The
tree has two jobs:

- **Building the tree.** `createNestedEntryData` turns a nested list of filter
  descriptors into clause nodes. A leaf descriptor holds `field`, `value` and,
  optionally, `operator` and `relation`. A group descriptor holds an optional
  `relation` followed by further descriptors.
  - A field that is a column of the entries table becomes one clause on
    `entries.<field>`.
  - Any other field is a custom field stored in tag/data rows. It becomes two
    AND-ed clauses: one on `entry_data.content_type_field_short_tag`, then one
    on `entry_data.data`.
- **Compiling the tree.** `build` and `buildNested` walk the tree and call the
  query builder once per clause. A node with nested clauses becomes one
  grouped `where`/`orWhere` whose callback builds the children in order.

The project is organised as follows:

- `wrappers.dfy` holds `Option` and `Result`.
- `php.dfy` holds the PHP values the descriptors are made of:
  - an ordered array of key/value entries, with `isset`, `unset` and lookup;
  - the boolean cast;
  - ASCII `strtolower`.
- `validation.dfy` holds the operator and relation checks.
- `query_trace.dfy` models the query builder as an append-only trace of the
  calls made on it. A grouped call holds the trace of its callback's scope.
- `clause_tree.dfy` holds:
  - the clause as a value (`Node`);
  - what the constructor stores;
  - `build` as a function from a clause to the calls it makes, with an
    inverse that reads the clause back;
  - `build`/`buildNested` as methods that record onto a `Query`, proved to
    make exactly those calls.
- `entry_data.dfy` holds `createNestedEntryData`'s descriptor-to-tree
  translation as functions, and the lemmas about it.
- `where_clause.dfy` holds the `WhereClause` class itself:
  - its fields, getters and validating setters;
  - `build`;
  - the `createNestedEntryData` loop, proved against the translation
    functions.
- `scenarios.dfy` holds concrete descriptors worked through the model.

The model follows the code of `build` and of the setters. It departs from
the code in one place, the test that tells a group descriptor from a leaf
(WhereClause.php:285). There it uses the evidently intended test; the test
as written is modelled beside it and listed under "Findings" and "Left out".

Two consequences of the code are easy to miss:

- **Null checks pass the value.** `whereNull`/`whereNotNull` and their `or`
  twins are called with the value as well as the column
  (WhereClause.php:139-153).
- **An `or` group is OR-ed with its siblings, while its members are AND-ed
  with each other.**
  - The group's own relation `or` only chooses `orWhere` for the group as a
    whole.
  - Each member keeps the default relation `and`.
  - So `['relation' => 'or', [title = A], [title = B]]` compiles to
    `… OR ((title = A) AND (title = B))`.
  - `Scenarios.OrGroupAndsItsMembers` states the exact calls.

## Model

All paths are relative to the repository root.

| member | source | states |
|---|---|---|
| Php.GetFindsFirstEntry | src/CmsCanvas/Content/Entry/Builder/WhereClause.php:286 | Reading `$item[$k]` finds the first entry under the key, and finds nothing exactly when no entry has the key |
| Php.Isset | src/CmsCanvas/Content/Entry/Builder/WhereClause.php:286-298 | `isset($item[$k])` holds iff the key is present with a non-null value, which it then yields |
| Php.IssetOr | src/CmsCanvas/Content/Entry/Builder/WhereClause.php:286-298 | `isset($item[$k]) ? $item[$k] : $default` yields the stored value when it is set, and the default otherwise |
| Php.UnsetLookup | src/CmsCanvas/Content/Entry/Builder/WhereClause.php:288 | After `unset($item[$k])` the key is gone and every other key reads as before |
| Php.UnsetRemovesExactlyKey | src/CmsCanvas/Content/Entry/Builder/WhereClause.php:288 | `unset` keeps exactly the entries not under the key, and changes nothing when the key is absent |
| Php.UnsetDistributes | src/CmsCanvas/Content/Entry/Builder/WhereClause.php:288 | `unset` keeps the surviving entries in their order: unsetting a concatenation unsets each part |
| Php.UnsetShrinks | src/CmsCanvas/Content/Entry/Builder/WhereClause.php:288-289 | `unset` never makes an array larger, so building a group's remaining entries ends |
| Php.Truthy | src/CmsCanvas/Content/Entry/Builder/WhereClause.php:285 | The boolean cast that loose `==` applies to a bool is false exactly for null, `''`, `'0'` and the empty array |
| Php.Lower | src/CmsCanvas/Content/Entry/Builder/WhereClause.php:212 | `strtolower` keeps the length, lower-cases each character on its own, and leaves no upper-case letter |
| Php.LowerFixesExactlyLowerCase | src/CmsCanvas/Content/Entry/Builder/WhereClause.php:212 | Lower-casing leaves a string unchanged exactly when it holds no upper-case letter |
| Validation.Normalize | src/CmsCanvas/Content/Entry/Builder/WhereClause.php:210-257 | The shared check either accepts a string and returns a listed, lower-case word of the same length, or rejects with the given error |
| Validation.NormalizeIgnoresCase | src/CmsCanvas/Content/Entry/Builder/WhereClause.php:210-257 | The check accepts exactly the strings equal to a listed word up to case, and returns that word |
| Validation.NormalizeOperator | src/CmsCanvas/Content/Entry/Builder/WhereClause.php:210-238 | An accepted operator is one of the 14 listed; a rejected one raises InvalidOperator |
| Validation.NormalizeRelation | src/CmsCanvas/Content/Entry/Builder/WhereClause.php:246-257 | An accepted relation is `or` or `and`; a rejected one raises InvalidRelation |
| Validation.OperatorCheckIgnoresCase | src/CmsCanvas/Content/Entry/Builder/WhereClause.php:210-238 | `setOperator` accepts an operator iff it is a string equal, ignoring case, to one of the 14 operators, and stores the value that equals it ignoring case |
| Validation.RelationCheckIgnoresCase | src/CmsCanvas/Content/Entry/Builder/WhereClause.php:246-257 | `setRelation` accepts a relation iff it is a string equal, ignoring case, to `or` or `and`, and stores the value that equals it ignoring case |
| Validation.NormalizeIsIdempotent | src/CmsCanvas/Content/Entry/Builder/WhereClause.php:210-257 | Setting an operator or relation already read back from a clause stores it unchanged |
| Validation.DefaultsAreValid | src/CmsCanvas/Content/Entry/Builder/WhereClause.php:41 | The constructor's default operator `=` and relation `and` pass their checks unchanged |
| QueryTrace.MethodName | src/CmsCanvas/Content/Entry/Builder/WhereClause.php:100-153 | The name of the method a record stands for starts with `or` when the call is an `or` call, and with `w` otherwise |
| QueryTrace.Query.Record | src/CmsCanvas/Content/Entry/Builder/WhereClause.php:101-151 | One call on the query builder appends exactly one record to its trace |
| ClauseTree.NewNode | src/CmsCanvas/Content/Entry/Builder/WhereClause.php:41-47 | The constructor succeeds iff operator and relation both pass; it stores the column and value as given and the normalized operator and relation; an invalid operator is reported before an invalid relation |
| ClauseTree.KeyedFor | src/CmsCanvas/Content/Entry/Builder/WhereClause.php:107-153 | The six keyed operators select the method whose case names them, and no other operator selects one |
| ClauseTree.LeafCall | src/CmsCanvas/Content/Entry/Builder/WhereClause.php:91-157 | A clause without nested clauses makes a call iff its operator is one of the 14. The `or` variant is used iff the relation is `or`. The eight comparison operators pass column, operator and value; the other six call their own method with column and value |
| ClauseTree.SwitchMethod | src/CmsCanvas/Content/Entry/Builder/WhereClause.php:91-153 | The switch names a query-builder method exactly for the 14 valid operators; the default case calls nothing |
| ClauseTree.LeafCallNamesSwitchMethod | src/CmsCanvas/Content/Entry/Builder/WhereClause.php:91-153 | The call recorded for a clause is a call of exactly the method its case of the switch names, `or` twin included; an operator the switch does not list makes no call |
| ClauseTree.Compile | src/CmsCanvas/Content/Entry/Builder/WhereClause.php:85-159 | `build` makes at most one call. A clause with nested clauses makes one grouped call, `or` iff its relation is `or`. A clause without them makes one direct call iff its operator is valid |
| ClauseTree.CompileAll | src/CmsCanvas/Content/Entry/Builder/WhereClause.php:198-200 | The callback's loop over the nested clauses makes at most one call per clause |
| ClauseTree.CompileAllOnePerClause | src/CmsCanvas/Content/Entry/Builder/WhereClause.php:198-200 | The group callback makes exactly one call per nested clause, in order, each the call that clause makes on its own |
| ClauseTree.CompileRoundTrip | src/CmsCanvas/Content/Entry/Builder/WhereClause.php:85-202 | A well-formed clause makes exactly one call, and the clause can be read back from that call unchanged |
| ClauseTree.CompileAllRoundTrip | src/CmsCanvas/Content/Entry/Builder/WhereClause.php:192-202 | A list of well-formed clauses is read back unchanged from the calls it makes, so compilation loses nothing |
| ClauseTree.GroupCompilesToOneGroupedCall | src/CmsCanvas/Content/Entry/Builder/WhereClause.php:85-89 | A clause with nested clauses makes exactly one grouped call (`orWhere` iff its relation is `or`), holding one call per nested clause in order, and no call of its own |
| ClauseTree.BuildNode | src/CmsCanvas/Content/Entry/Builder/WhereClause.php:85-159 | `build` appends to the query exactly the calls the clause stands for |
| ClauseTree.BuildGroup | src/CmsCanvas/Content/Entry/Builder/WhereClause.php:192-202 | `buildNested` appends one grouped call whose scope holds the calls of every nested clause in order; the outer query gains nothing else |
| EntryData.IsEntryColumn | src/CmsCanvas/Content/Entry/Builder/WhereClause.php:268-300 | `in_array($item['field'], $entryColumns)` holds iff the field is a string equal to one of the 11 entries columns |
| EntryData.IsGroupAsWritten | src/CmsCanvas/Content/Entry/Builder/WhereClause.php:285 | The group test as written: a first value that is an array, or a lone `relation`, makes a group; after a leading `relation` it holds iff the second value is a non-empty array or casts to false |
| EntryData.IsGroup | src/CmsCanvas/Content/Entry/Builder/WhereClause.php:285 | The intended group test: a descriptor is a group iff its first value is an array, or its first key is `relation` and its second value is an array |
| EntryData.ResolveField | src/CmsCanvas/Content/Entry/Builder/WhereClause.php:298-305 | Field resolution fails exactly when the operator is invalid. Otherwise it gives one clause for an entries column and two for any other field, all well-formed, without nested clauses and with relation `and` |
| EntryData.ParseItem | src/CmsCanvas/Content/Entry/Builder/WhereClause.php:283-306 | A child built from one descriptor is well-formed, keeps the default column, operator and value, and has the descriptor's relation (default `and`), normalized |
| EntryData.ParseItems | src/CmsCanvas/Content/Entry/Builder/WhereClause.php:282-309 | The loop builds one child per descriptor when none raises, and fewer when one does; every child is well-formed |
| EntryDataFacts.ParseItemsOnePerItem | src/CmsCanvas/Content/Entry/Builder/WhereClause.php:282-309 | The i-th child appended is what the i-th descriptor becomes, and the loop stops exactly at the first descriptor that raises, with its error |
| EntryDataFacts.ParseItemsSucceedsIffEveryItemDoes | src/CmsCanvas/Content/Entry/Builder/WhereClause.php:282-309 | The loop completes iff every descriptor can be built |
| EntryDataFacts.ParseItemsNextItem | src/CmsCanvas/Content/Entry/Builder/WhereClause.php:282-309 | While nothing has raised, one more descriptor either appends exactly its own child or stops the loop with its error and appends nothing |
| EntryDataFacts.FailureIsFinal | src/CmsCanvas/Content/Entry/Builder/WhereClause.php:282-309 | Once a descriptor has raised, the descriptors after it change nothing |
| EntryDataFacts.InvalidRelationRaisesFirst | src/CmsCanvas/Content/Entry/Builder/WhereClause.php:286-292 | A descriptor whose relation is invalid raises InvalidRelation, whether group or leaf, before anything else is checked |
| EntryDataFacts.MissingFieldOrValueRaises | src/CmsCanvas/Content/Entry/Builder/WhereClause.php:294-296 | A leaf descriptor without a set `field` or a set `value` raises MissingFilterField; a null value counts as unset |
| EntryDataFacts.EntryColumnResolvesToOneClause | src/CmsCanvas/Content/Entry/Builder/WhereClause.php:268-301 | A leaf on one of the 11 entries columns becomes a child with one nested clause `('entries.'+field, operator or '=', value)` with relation `and`, or raises InvalidOperator |
| EntryDataFacts.CustomFieldResolvesToTagAndData | src/CmsCanvas/Content/Entry/Builder/WhereClause.php:302-305 | A leaf on any other field becomes a child with exactly two nested clauses, in order, both with relation `and`: the tag column equal to the field, then the data column under the operator and value. Otherwise it raises InvalidOperator |
| EntryDataFacts.LeafResolvesItsField | src/CmsCanvas/Content/Entry/Builder/WhereClause.php:291-305 | A leaf with field and value set becomes a child holding the clauses its field resolves to, with the descriptor's relation, or raises the resolution's error |
| EntryDataFacts.GroupResolvesRecursively | src/CmsCanvas/Content/Entry/Builder/WhereClause.php:286-289 | A group becomes a child whose nested clauses are built from its entries with `relation` removed; a failure among them is the group's failure |
| EntryDataFacts.ParsedClausesCompileLosslessly | src/CmsCanvas/Content/Entry/Builder/WhereClause.php:282-309 | The children built from a descriptor list compile to exactly one call per descriptor, in order, from which they read back exactly |
| EntryDataFacts.FlatDescriptorIsLeaf | src/CmsCanvas/Content/Entry/Builder/WhereClause.php:285 | The intended group test never takes a descriptor with no array among its values for a group |
| EntryDataFacts.GroupTestsDisagreeOnlyOnFalsySecond | src/CmsCanvas/Content/Entry/Builder/WhereClause.php:285 | The group test as written and as intended disagree only on a descriptor that starts with `relation` and has no second value, or a second value that casts to false |
| EntryDataFacts.GroupTestAsWrittenMisreadsFalsyValue | src/CmsCanvas/Content/Entry/Builder/WhereClause.php:285 | The test as written takes `['relation' => 'and', 'value' => '', 'field' => 'title']` for a group, which then raises MissingFilterField. The intended test reads it as the leaf `entries.title = ''` |
| EntryDataFacts.LoneRelationIsGroupOnlyAsWritten | src/CmsCanvas/Content/Entry/Builder/WhereClause.php:285-296 | `['relation' => 'or']` is a group to the test as written, with no members left to build; to the intended test it is a leaf that raises MissingFilterField |
| EntryDataFacts.EmptyArraySecondIsGroupOnlyAsIntended | src/CmsCanvas/Content/Entry/Builder/WhereClause.php:285-296 | `['relation' => 'and', 'x' => []]` is a leaf to the test as written; to the intended test it is a group whose empty member raises MissingFilterField |
| EntryDataFacts.MisreadAsGroupRaises | src/CmsCanvas/Content/Entry/Builder/WhereClause.php:285-289 | Taken for a group, that descriptor's string values are built as descriptors, and the first raises MissingFilterField |
| EntryDataFacts.ReadAsLeafResolves | src/CmsCanvas/Content/Entry/Builder/WhereClause.php:291-301 | Read as a leaf, the same descriptor becomes the filter `entries.title = ''` with relation `and` |
| WhereClauses.WhereClause.constructor | src/CmsCanvas/Content/Entry/Builder/WhereClause.php:41-47 | `new WhereClause()` holds no column, operator `=`, no value, relation `and` and no nested clauses |
| WhereClauses.WhereClause.New | src/CmsCanvas/Content/Entry/Builder/WhereClause.php:41-47 | The four-argument constructor gives a fresh valid clause holding exactly what `NewNode` describes, or raises its error |
| WhereClauses.WhereClause.GetColumn | src/CmsCanvas/Content/Entry/Builder/WhereClause.php:54-57 | Returns the stored column |
| WhereClauses.WhereClause.GetOperator | src/CmsCanvas/Content/Entry/Builder/WhereClause.php:64-67 | Returns the stored operator |
| WhereClauses.WhereClause.GetValue | src/CmsCanvas/Content/Entry/Builder/WhereClause.php:74-77 | Returns the stored value |
| WhereClauses.WhereClause.SetColumn | src/CmsCanvas/Content/Entry/Builder/WhereClause.php:167-172 | Stores any column unchecked; nothing else changes |
| WhereClauses.WhereClause.SetValue | src/CmsCanvas/Content/Entry/Builder/WhereClause.php:180-185 | Stores any value unchecked; nothing else changes |
| WhereClauses.WhereClause.SetOperator | src/CmsCanvas/Content/Entry/Builder/WhereClause.php:210-238 | Stores the lower-cased operator when it is one of the 14. Otherwise it raises InvalidOperator and the clause is left exactly as it was |
| WhereClauses.WhereClause.SetRelation | src/CmsCanvas/Content/Entry/Builder/WhereClause.php:246-257 | Stores the lower-cased relation when it is `and` or `or`. Otherwise it raises InvalidRelation and the clause is left exactly as it was |
| WhereClauses.WhereClause.Build | src/CmsCanvas/Content/Entry/Builder/WhereClause.php:85-159 | Appends to the query exactly the calls the clause's current state stands for |
| WhereClauses.WhereClause.BuildNested | src/CmsCanvas/Content/Entry/Builder/WhereClause.php:192-202 | Appends one grouped call (`orWhere` iff the relation is `or`) holding the calls of the nested clauses in order |
| WhereClauses.WhereClause.CreateNestedEntryData | src/CmsCanvas/Content/Entry/Builder/WhereClause.php:265-310 | Appends to `nested` the children the descriptors become, in order. Only `nested` changes. If a descriptor raises, the children before it stay and its error is returned |
| WhereClauses.WhereClause.AppendChild | src/CmsCanvas/Content/Entry/Builder/WhereClause.php:283-308 | One pass of the loop appends the child the descriptor becomes, or returns its error and leaves the clause exactly as it was |
| WhereClauses.WhereClause.Populate | src/CmsCanvas/Content/Entry/Builder/WhereClause.php:283-306 | Turns a fresh clause into the child the descriptor describes, or returns the error the descriptor raises |
| WhereClauses.WhereClause.AddFieldClauses | src/CmsCanvas/Content/Entry/Builder/WhereClause.php:298-305 | Appends the clauses the field resolves to, or raises InvalidOperator |
| WhereClauses.WhereClause.AppendNew | src/CmsCanvas/Content/Entry/Builder/WhereClause.php:301 | Appending `new WhereClause($column, $operator, $value)` adds exactly the clause the constructor builds, or raises its error and appends nothing |
| Scenarios.TitleAboveFiveParses | src/CmsCanvas/Content/Entry/Builder/WhereClause.php:298-301 | `['field' => 'title', 'operator' => '>', 'value' => '5']` becomes a child holding the clause `entries.title > '5'` |
| Scenarios.TitleAboveFive | src/CmsCanvas/Content/Entry/Builder/WhereClause.php:282-309 | As a one-item filter list, that descriptor builds one child, which compiles to `where(function ($q) { $q->where('entries.title', '>', '5'); })` |
| Scenarios.CustomFieldWithDefaultOperator | src/CmsCanvas/Content/Entry/Builder/WhereClause.php:298-305 | A custom field without an operator becomes the tag clause, then the data clause under `=` |
| Scenarios.MissingValueRaises | src/CmsCanvas/Content/Entry/Builder/WhereClause.php:294-296 | `['field' => 'title']` raises MissingFilterField and appends nothing |
| Scenarios.TitleEquals | src/CmsCanvas/Content/Entry/Builder/WhereClause.php:298-301 | `['field' => 'title', 'value' => v]` becomes one clause `entries.title = v` |
| Scenarios.OrGroupAndsItsMembers | src/CmsCanvas/Content/Entry/Builder/WhereClause.php:192-202 | An `or` group of two title filters compiles to one `orWhere` group. Inside it each member is its own `where` group, so the members are AND-ed |

## Left out

- PHP values other than null, strings and arrays are not modelled:
  - integers, floats and booleans as descriptor values or as operators;
  - PHP 7's loose comparison of an integer key with `'relation'`.
  Keys compare strictly, as in PHP 8.
- A descriptor that is not an array is read as an array with no entries, so it
  raises MissingFilterField. This is PHP 7's behaviour; PHP 8 raises a type
  error from `current()` instead.
- An array is a sequence of entries, which may repeat a key although a PHP
  array cannot. Lookup reads the first entry under a key and `unset` drops
  every one; on arrays without repeated keys, the only arrays PHP builds,
  this is PHP's behaviour.
- The internal array pointer used by the group test is assumed to start at
  the first entry.
- Exception message text is not modelled; errors are the three kinds
  InvalidOperator, InvalidRelation and MissingFilterField.
- `strtolower` is modelled on ASCII only. A non-string operator or relation
  is rejected.
- The Laravel query builder itself is not part of this model. It appears only
  as the trace of calls `build` makes on it.
- What `where($closure)` does with its callback's scope is likewise not
  modelled. The trace records the calls made in that scope as the body of
  the grouped call.
- The setters' `return $this` (call chaining) is not modelled.
- Nested clauses are held as values rather than as shared objects. The
  source appends a child only once it is complete and never changes or hands
  it out afterwards, so object identity is not observable.
- `src/resources/views/admin/content/type/field/fields.blade.php` is
  presentation and an AJAX request, and is not part of this model.
- EntryData.ParseItem: uses the intended group test `IsGroup` (a first
  value that is an array, or a leading `relation` followed by an array)
  instead of the test as written at WhereClause.php:285, and so do
  `Populate` and `CreateNestedEntryData`. The model therefore differs from
  the code on these descriptors:
  - `['relation' => 'or']`: the code takes it for a group and appends a
    child with no nested clauses, raising nothing; the model raises
    MissingFilterField (`EntryDataFacts.LoneRelationIsGroupOnlyAsWritten`).
  - `['relation' => 'and', 'value' => '', 'field' => 'title']`: the code
    takes it for a group and raises MissingFilterField; the model builds
    the leaf `entries.title = ''`
    (`EntryDataFacts.GroupTestAsWrittenMisreadsFalsyValue`).
  - `['relation' => 'and', 'x' => []]`: the code reads it as a leaf, because
    `[] == true` is false; the model takes it for a group
    (`EntryDataFacts.EmptyArraySecondIsGroupOnlyAsIntended`). Here both
    raise MissingFilterField, but with `field` and `value` added the code
    builds a leaf where the model still raises.
- WhereClauses.WhereClause.AddFieldClauses: on an invalid operator it states
  only the error returned, not the clause's state. For a custom field the
  tag clause is already appended when the data clause raises, as in the
  source; that child is then discarded by its caller.
- WhereClauses.WhereClause.Populate: on error it states only the error
  returned, not the partly built child, which its caller discards.

## Findings

| source | as written | input that shows it | evidently intended | confidence | as-written member | corrected member |
|---|---|---|---|---|---|---|
| src/CmsCanvas/Content/Entry/Builder/WhereClause.php:285 | The group test's second half compares `next($item)` with `is_array(current($item))`; both read the second value. A non-array second value is therefore taken for a group exactly when it casts to false, and an empty array there is taken for a leaf | `['relation' => 'and', 'value' => '', 'field' => 'title']` is taken for a group; its first string member then raises MissingFilterField | A descriptor is a group iff its first value is an array, or its first key is `relation` and its second value is an array; the example is the leaf `entries.title = ''` | medium; not executed | EntryData.IsGroupAsWritten, shown by EntryDataFacts.GroupTestAsWrittenMisreadsFalsyValue | EntryData.IsGroup, with EntryDataFacts.FlatDescriptorIsLeaf |
