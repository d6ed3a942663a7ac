/**
 * The queryable collection (an ActiveRecord relation), kept abstract: a collection is
 * its source together with the log of query calls applied to it, in order. Each call
 * records its arguments in model form, so "which calls happen, in what order, with
 * what arguments" can be stated about the log.
 */
module Relation {
  import opened Wrappers

  /** `:asc` or `:desc`. */
  datatype Direction = Asc | Desc

  /** A Ruby value taken from request parameters; symbols are modelled as strings. */
  datatype Value = Nil | Str(s: string) | Int(i: int) | Bool(b: bool) {

    /** Ruby truthiness: only nil and false are falsy. */
    predicate Truthy() {
      !(Nil? || this == Bool(false))
    }
  }

  /** One argument of `order` / `reorder`. */
  datatype OrderArg =
      /** A bare attribute symbol, `order(:email)`. */
    | AttributeOrder(attribute: string)
      /** A hash of attributes to directions, `order(id: :asc)`. */
    | DirectedOrder(pairs: seq<(string, Direction)>)
      /** `Arel.sql(attribute).asc` / `.desc`: a raw SQL fragment with a direction. */
    | SqlOrder(sql: string, direction: Direction)
      /** `Model.arel_table[column].asc` / `.desc`, the table named by `model` (`model.classify.constantize`). */
    | ModelColumnOrder(model: string, column: string, direction: Direction)
      /** `collection.arel_table[key].asc` / `.desc`, a column of the collection's own table. */
    | ColumnOrder(key: Value, direction: Direction)
      /** Any other value a declaration handed to `order` (a proc, a class): opaque. */
    | DeclaredOrder(name: string)

  /** One argument of `where`. */
  datatype Condition =
      /** `where(attribute => value)`, nil included. */
    | Equals(attribute: string, value: Option<string>)
      /** `arel_table[column].gt(position)`. */
    | GreaterThan(column: Value, position: Value)
      /** `arel_table[column].lt(position)`. */
    | LessThan(column: Value, position: Value)

  /** What `includes` receives: a symbol, a one-pair hash, or a hash from a key to a list. */
  datatype IncludeSpec =
    | IncludeName(name: string)
    | IncludeHash(key: string, value: IncludeSpec)
    | IncludeHashList(key: string, values: seq<IncludeSpec>)

  /** One query call. */
  datatype Op =
    | Where(condition: Condition)
    | Order(args: seq<OrderArg>)
      /** `reorder(...)`; ActiveRecord drops nil arguments, so `reorder(nil)` is `Reorder([])`. */
    | Reorder(args: seq<OrderArg>)
    | LeftJoins(relationships: seq<string>)
    | Limit(count: int)
    | Includes(specs: seq<IncludeSpec>)

  /** A relation: where it comes from and the calls applied to it so far. */
  datatype Collection = Collection(source: string, ops: seq<Op>) {

    /** The relation returned by calling `op` on this one. */
    function Then(op: Op): Collection {
      Collection(source, ops + [op])
    }
  }
}
