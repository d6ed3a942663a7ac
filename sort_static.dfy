/**
 * `Mixins::Sort::Static`: a sort declared under an exact attribute name, whose strategy is
 * either a callable `(collection, direction)` or a class built from `(collection, direction)`
 * that answers `results`. Without a strategy it orders by the attribute itself.
 */
module SortStatic {
  import opened Wrappers
  import opened Relation
  import SortParam

  /** An instance of a sort class (a `BaseSort` subclass): its `results`. */
  datatype SortInstance = SortInstance(results: Collection)

  /** A strategy, resolved once: something that responds to `call`, or a class to instantiate. */
  datatype Strategy =
    | Callable(call: (Collection, Direction) -> Collection)
    | SortClass(construct: (Collection, Direction) -> SortInstance)

  datatype Static = Static(attribute: string, sort: Strategy)

  /** The default strategy: `->(collection, direction) { collection.order(attribute => direction) }`. */
  function DefaultSort(attribute: string): Strategy {
    Callable((c: Collection, d: Direction) => c.Then(Order([DirectedOrder([(attribute, d)])])))
  }

  /** `Static.new(attribute, sort)`. */
  function New(attribute: string, sort: Option<Strategy>): (s: Static)
    ensures s.attribute == attribute
    ensures sort.Some? ==> s.sort == sort.value
    ensures sort.None? ==> s.sort.Callable? && forall c, d :: s.sort.call(c, d) == c.Then(Order([DirectedOrder([(attribute, d)])]))
  {
    Static(attribute, sort.GetOr(DefaultSort(attribute)))
  }

  /** `results(collection, sort_param)`: dispatch on the strategy with the param's direction only. */
  function Results(s: Static, collection: Collection, param: SortParam.Param): Collection {
    match s.sort
    case Callable(call) => call(collection, SortParam.Direction(param))
    case SortClass(construct) => construct(collection, SortParam.Direction(param)).results
  }

  /** Without a strategy, `results` appends one `order(attribute => direction)` call. */
  lemma DefaultResults(attribute: string, collection: Collection, param: SortParam.Param)
    ensures Results(New(attribute, None), collection, param).ops
         == collection.ops + [Order([DirectedOrder([(attribute, SortParam.Direction(param))])])]
  {
  }

  /**
   * A callable is called with `(collection, direction)` and its value returned; a class is
   * instantiated with `(collection, direction)` and its `results` returned.
   */
  lemma ResultsDispatch(s: Static, collection: Collection, param: SortParam.Param)
    ensures s.sort.Callable? ==> Results(s, collection, param) == s.sort.call(collection, SortParam.Direction(param))
    ensures s.sort.SortClass? ==> Results(s, collection, param) == s.sort.construct(collection, SortParam.Direction(param)).results
  {
  }

  /** `results` reads only the param's direction: its attribute, and the declared attribute, play no part. */
  lemma ResultsUseOnlyDirection(s: Static, t: Static, collection: Collection, p: SortParam.Param, q: SortParam.Param)
    requires s.sort == t.sort
    requires SortParam.Direction(p) == SortParam.Direction(q)
    ensures Results(s, collection, p) == Results(t, collection, q)
  {
  }
}
