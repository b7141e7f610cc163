/**
 * A where clause as a value: its column, operator, value, relation and the
 * ordered list of nested clauses. This module holds the pure parts of the
 * class: what its constructor stores, the operator switch of `build`, and
 * `build`/`buildNested` as a function from a clause tree to the calls it
 * makes on the query; then the same two operations as methods recording onto
 * a `Query`, proved against those functions.
 */
module ClauseTree {
  import opened Wrappers
  import opened Php
  import opened Validation
  import opened QueryTrace

  datatype Node = Node(column: Value, operator: string, value: Value, relation: string, nested: seq<Node>)

  /** What `new WhereClause()` holds: no column, operator `=`, no value, relation `and`, no nested clauses. */
  const DefaultNode := Node(Null, "=", Null, "and", [])

  /**
   * The shape of every clause this class builds: operator and relation passed
   * their checks, and a clause with nested clauses kept the constructor's
   * default column, operator and value (they are not used when it is built).
   */
  predicate WellFormed(n: Node)
  {
    && n.operator in ValidOperators
    && n.relation in ValidRelations
    && (n.nested != [] ==> n.column == Null && n.operator == "=" && n.value == Null)
    && forall i :: 0 <= i < |n.nested| ==> WellFormed(n.nested[i])
  }

  /**
   * `new WhereClause($column, $operator, $value, $relation)`: the setters run
   * in order, so an invalid operator is reported before an invalid relation.
   */
  function NewNode(column: Value, operator: Value, value: Value, relation: Value): (r: Result<Node, Error>)
    ensures r.Ok? <==> NormalizeOperator(operator).Ok? && NormalizeRelation(relation).Ok?
    ensures r.Ok? ==> WellFormed(r.value) && r.value.nested == []
    ensures r.Ok? ==> r.value.column == column && r.value.value == value
    ensures r.Ok? ==> r.value.operator == NormalizeOperator(operator).value
    ensures r.Ok? ==> r.value.relation == NormalizeRelation(relation).value
    ensures NormalizeOperator(operator).Err? ==> r == Err(InvalidOperator)
    ensures NormalizeOperator(operator).Ok? && NormalizeRelation(relation).Err? ==> r == Err(InvalidRelation)
  {
    var op :- NormalizeOperator(operator);
    var rel :- NormalizeRelation(relation);
    Ok(Node(column, op, value, rel, []))
  }

  /** The eight operators `build` passes on as `where($column, $operator, $value)`. */
  const ComparisonOperators: seq<string> := ["=", "!=", ">", ">=", "<", "<=", "like", "not like"]

  /** The operator whose case in `build`'s switch calls a keyed primitive. */
  function KeyedOperator(m: KeyedMethod): string
  {
    match m
    case WhereIn => "in"
    case WhereNotIn => "not in"
    case WhereBetween => "between"
    case WhereNotBetween => "not between"
    case WhereNull => "is null"
    case WhereNotNull => "is not null"
  }

  function KeyedFor(operator: string): (r: Option<KeyedMethod>)
    ensures r.Some? ==> KeyedOperator(r.value) == operator
    ensures r.None? ==> forall m :: KeyedOperator(m) != operator
  {
    if operator == "in" then Some(WhereIn)
    else if operator == "not in" then Some(WhereNotIn)
    else if operator == "between" then Some(WhereBetween)
    else if operator == "not between" then Some(WhereNotBetween)
    else if operator == "is null" then Some(WhereNull)
    else if operator == "is not null" then Some(WhereNotNull)
    else None
  }

  function RelationName(isOr: bool): string
  {
    if isOr then "or" else "and"
  }

  /**
   * The switch of `build` for a clause without nested clauses: the call it
   * makes, using the `or` variant exactly when the relation is `or`; an
   * operator the switch does not list makes no call.
   */
  function LeafCall(n: Node): (r: Option<Call>)
    ensures r.Some? <==> n.operator in ValidOperators
    ensures r.Some? ==> !r.value.Nested? && (r.value.isOr <==> n.relation == "or")
    ensures r.Some? ==> r.value.column == n.column && r.value.value == n.value
    ensures r.Some? && r.value.Where? ==> n.operator in ComparisonOperators && r.value.operator == n.operator
    ensures r.Some? && r.value.Keyed? ==> n.operator !in ComparisonOperators && KeyedOperator(r.value.primitive) == n.operator
  {
    var isOr := n.relation == "or";
    if n.operator in ComparisonOperators then
      Some(Where(isOr, n.column, n.operator, n.value))
    else
      match KeyedFor(n.operator)
      case Some(m) => Some(Keyed(isOr, m, n.column, n.value))
      case None => None
  }

  /**
   * The query-builder method each case of `build`'s switch calls, listed case
   * by case: the `or` twin when the relation is `or`; no method for an
   * operator the switch does not list.
   */
  function SwitchMethod(operator: string, relation: string): (r: Option<string>)
    ensures r.Some? <==> operator in ValidOperators
  {
    var isOr := relation == "or";
    if operator in ["=", "!=", ">", ">=", "<", "<=", "like", "not like"] then Some(if isOr then "orWhere" else "where")
    else if operator == "in" then Some(if isOr then "orWhereIn" else "whereIn")
    else if operator == "not in" then Some(if isOr then "orWhereNotIn" else "whereNotIn")
    else if operator == "between" then Some(if isOr then "orWhereBetween" else "whereBetween")
    else if operator == "not between" then Some(if isOr then "orWhereNotBetween" else "whereNotBetween")
    else if operator == "is null" then Some(if isOr then "orWhereNull" else "whereNull")
    else if operator == "is not null" then Some(if isOr then "orWhereNotNull" else "whereNotNull")
    else None
  }

  /** The call recorded for a clause is a call of exactly the method its case of the switch names. */
  lemma LeafCallNamesSwitchMethod(n: Node)
    ensures LeafCall(n).None? <==> SwitchMethod(n.operator, n.relation).None?
    ensures LeafCall(n).Some? ==> MethodName(LeafCall(n).value) == SwitchMethod(n.operator, n.relation).value
  {
    if LeafCall(n).Some? && LeafCall(n).value.Keyed? {
      assert KeyedFor(n.operator) == Some(LeafCall(n).value.primitive);
    }
  }

  /**
   * `build`: a clause with nested clauses makes one grouped call whose scope
   * receives the calls of its nested clauses in order; any other clause makes
   * the call its operator selects, if any.
   */
  function Compile(n: Node): (calls: seq<Call>)
    ensures |calls| <= 1
    ensures n.nested != [] ==> |calls| == 1 && calls[0].Nested? && (calls[0].isOr <==> n.relation == "or")
    ensures n.nested == [] ==> (|calls| == 1 <==> n.operator in ValidOperators)
    ensures n.nested == [] ==> forall c :: c in calls ==> !c.Nested?
    decreases n, 1
  {
    if n.nested != [] then [Nested(n.relation == "or", CompileAll(n.nested))]
    else
      match LeafCall(n)
      case Some(c) => [c]
      case None => []
  }

  /** The calls `buildNested`'s callback makes: each nested clause built in turn. */
  function CompileAll(ns: seq<Node>): (calls: seq<Call>)
    ensures |calls| <= |ns|
    decreases ns, 0
  {
    if ns == [] then []
    else
      var last := ns[|ns| - 1];
      assert last in ns;
      CompileAll(ns[..|ns| - 1]) + Compile(last)
  }

  /** Reads a recorded call back as the clause that made it. */
  function Decompile(c: Call): Node
  {
    match c
    case Where(isOr, column, operator, value) => Node(column, operator, value, RelationName(isOr), [])
    case Keyed(isOr, m, column, value) => Node(column, KeyedOperator(m), value, RelationName(isOr), [])
    case Nested(isOr, body) => Node(Null, "=", Null, RelationName(isOr), DecompileAll(body))
  }

  function DecompileAll(cs: seq<Call>): (ns: seq<Node>)
    ensures |ns| == |cs|
    ensures forall i :: 0 <= i < |cs| ==> ns[i] == Decompile(cs[i])
  {
    if cs == [] then []
    else
      var last := cs[|cs| - 1];
      assert last in cs;
      DecompileAll(cs[..|cs| - 1]) + [Decompile(last)]
  }

  /** Each well-formed clause in a list contributes exactly its own call, in order. */
  lemma {:induction false} CompileAllOnePerClause(ns: seq<Node>)
    requires forall i :: 0 <= i < |ns| ==> WellFormed(ns[i])
    ensures |CompileAll(ns)| == |ns|
    ensures forall i :: 0 <= i < |ns| ==> Compile(ns[i]) == [CompileAll(ns)[i]]
  {
    if ns != [] {
      CompileAllOnePerClause(ns[..|ns| - 1]);
      CompileAllOneMore(ns);
    }
  }

  /** Step of `CompileAllOnePerClause`: the last clause's one call goes last. */
  lemma CompileAllOneMore(ns: seq<Node>)
    requires ns != [] && WellFormed(ns[|ns| - 1])
    requires var init := ns[..|ns| - 1];
      |CompileAll(init)| == |init| && forall i :: 0 <= i < |init| ==> Compile(init[i]) == [CompileAll(init)[i]]
    ensures |CompileAll(ns)| == |ns|
    ensures forall i :: 0 <= i < |ns| ==> Compile(ns[i]) == [CompileAll(ns)[i]]
  {
    var n := |ns|;
    var init, last := ns[..n - 1], ns[n - 1];
    var before, own := CompileAll(init), Compile(last);
    assert |own| == 1;
    assert CompileAll(ns) == before + own;
    forall i | 0 <= i < n ensures Compile(ns[i]) == [CompileAll(ns)[i]] {
      if i < n - 1 {
        assert ns[i] == init[i];
        assert CompileAll(ns)[i] == before[i];
      } else {
        assert CompileAll(ns)[i] == own[0];
      }
    }
  }

  /**
   * Building loses nothing: a well-formed clause makes exactly one call, and
   * that call determines the clause (its relation, column, operator, value and
   * every nested clause, in order).
   */
  lemma {:induction false} CompileRoundTrip(n: Node)
    requires WellFormed(n)
    ensures |Compile(n)| == 1 && Decompile(Compile(n)[0]) == n
    decreases n, 1
  {
    if n.nested != [] {
      CompileAllRoundTrip(n.nested);
    } else {
      var c := LeafCall(n).value;
      if c.Keyed? {
        assert KeyedOperator(c.primitive) == n.operator;
      }
    }
  }

  lemma {:induction false} CompileAllRoundTrip(ns: seq<Node>)
    requires forall i :: 0 <= i < |ns| ==> WellFormed(ns[i])
    ensures DecompileAll(CompileAll(ns)) == ns
    decreases ns, 0
  {
    CompileAllOnePerClause(ns);
    var calls := CompileAll(ns);
    forall i | 0 <= i < |ns| ensures DecompileAll(calls)[i] == ns[i] {
      assert ns[i] in ns;
      CompileRoundTrip(ns[i]);
    }
  }

  /**
   * `build` on a clause with nested clauses makes exactly one grouped call,
   * `orWhere` when its relation is `or` and `where` otherwise, and inside the
   * group exactly one call per nested clause, in order; no predicate of its
   * own.
   */
  lemma GroupCompilesToOneGroupedCall(n: Node)
    requires n.nested != [] && forall i :: 0 <= i < |n.nested| ==> WellFormed(n.nested[i])
    ensures |Compile(n)| == 1 && Compile(n)[0].Nested?
    ensures Compile(n)[0].isOr <==> n.relation == "or"
    ensures |Compile(n)[0].body| == |n.nested|
    ensures forall i :: 0 <= i < |n.nested| ==> Compile(n.nested[i]) == [Compile(n)[0].body[i]]
  {
    CompileAllOnePerClause(n.nested);
  }

  /** `build($query)` for a clause value: appends the calls `Compile` describes. */
  method BuildNode(n: Node, q: Query)
    modifies q
    ensures q.calls == old(q.calls) + Compile(n)
    decreases n, 1
  {
    if |n.nested| > 0 {
      BuildGroup(n, q);
      return;
    }
    var call := LeafCall(n);
    if call.Some? {
      q.Record(call.value);
    }
  }

  /**
   * `buildNested($query)` for a clause value: one grouped call whose callback
   * builds every nested clause, in order, into its own query scope.
   */
  method BuildGroup(n: Node, q: Query)
    modifies q
    ensures q.calls == old(q.calls) + [Nested(n.relation == "or", CompileAll(n.nested))]
    decreases n, 0
  {
    var scope := new Query();
    var i := 0;
    while i < |n.nested|
      invariant 0 <= i <= |n.nested|
      invariant scope.calls == CompileAll(n.nested[..i])
      invariant q.calls == old(q.calls)
    {
      assert n.nested[i] in n.nested;
      BuildNode(n.nested[i], scope);
      assert n.nested[..i + 1][..i] == n.nested[..i];
      i := i + 1;
    }
    assert n.nested[..i] == n.nested;
    q.Record(Nested(n.relation == "or", scope.calls));
  }
}
