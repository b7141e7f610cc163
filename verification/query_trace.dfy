/**
 * The query builder the clauses are compiled onto. It is a foreign object
 * that is only ever called, so it is recorded as an append-only trace of the
 * calls made on it. A grouped `where(function ($query) { ... })` hands the
 * callback a fresh query scope; the calls made in that scope become the body
 * of one `Nested` record.
 */
module QueryTrace {
  import opened Php

  /** The keyed primitives that take `(column, value)`; each has an `or` twin. */
  datatype KeyedMethod = WhereIn | WhereNotIn | WhereBetween | WhereNotBetween | WhereNull | WhereNotNull

  datatype Call =
    | Where(isOr: bool, column: Value, operator: string, value: Value)   // where / orWhere
    | Keyed(isOr: bool, primitive: KeyedMethod, column: Value, value: Value) // whereIn / orWhereIn, ...
    | Nested(isOr: bool, body: seq<Call>)                                 // where(closure) / orWhere(closure)

  /** The name of the query-builder method a record stands for. */
  function MethodName(c: Call): (name: string)
    ensures |name| >= 5
    ensures c.isOr ==> name[..2] == "or"
    ensures !c.isOr ==> name[0] == 'w'
  {
    var isOr := c.isOr;
    match c
    case Where(_, _, _, _) => if isOr then "orWhere" else "where"
    case Nested(_, _) => if isOr then "orWhere" else "where"
    case Keyed(_, m, _, _) =>
      match m
      case WhereIn => if isOr then "orWhereIn" else "whereIn"
      case WhereNotIn => if isOr then "orWhereNotIn" else "whereNotIn"
      case WhereBetween => if isOr then "orWhereBetween" else "whereBetween"
      case WhereNotBetween => if isOr then "orWhereNotBetween" else "whereNotBetween"
      case WhereNull => if isOr then "orWhereNull" else "whereNull"
      case WhereNotNull => if isOr then "orWhereNotNull" else "whereNotNull"
  }

  class Query {
    var calls: seq<Call>

    constructor ()
      ensures calls == []
    {
      calls := [];
    }

    method Record(c: Call)
      modifies this
      ensures calls == old(calls) + [c]
    {
      calls := calls + [c];
    }
  }
}
