/**
 * `Mixins::Filter` (and `Mixins::Filtering`, a copy of it without comments): a class-level
 * registry of filters and an instance method that folds the registered filters, in
 * registration order, over a collection.
 */
module Filter {
  import opened Wrappers
  import opened Text
  import opened Relation

  /** The filter parameters: a key is absent, present with nil, or present with a string. */
  type Params = map<string, Option<string>>

  /** An instance of a filter class: its `results` and what its methods answer (`None`: no such method). */
  datatype FilterInstance = FilterInstance(results: Collection, send: string -> Option<Value>)

  /** A filter strategy: a callable `(collection, query)`, or a class instantiated with the same. */
  datatype Strategy =
    | Callable(call: (Collection, Option<string>) -> Collection)
    | FilterClass(construct: (Collection, Option<string>) -> FilterInstance)

  /** The `filter` that `serialize_filter` hands back: the callable itself, or the new instance. */
  datatype Prepared =
    | PreparedCallable(call: (Collection, Option<string>) -> Collection)
    | PreparedInstance(instance: FilterInstance)

  datatype Kind = If | Unless

  /** An `if:` / `unless:` option: a proc of the query, the name of a method of the filter, or a plain value. */
  datatype Conditional =
    | ProcCondition(f: Option<string> -> Value)
    | SymbolCondition(name: string)
    | LiteralCondition(value: Value)

  /**
   * The options hash of one registration: what `filters_by` was given (`query_parameter`,
   * `allow_nil`, at most one `if:` and at most one `unless:`), and the keys `query` and
   * `conditions` that `serialize_filter` writes.
   */
  datatype Options = Options(
    queryParameter: Option<string>,
    allowNil: Value,
    ifCondition: Option<Conditional>,
    unlessCondition: Option<Conditional>,
    query: Option<string>,
    conditions: seq<(Kind, Conditional)>)

  /**
   * `options.slice(:if, :unless)`: the given keys in the order of the arguments, `if`
   * before `unless`, whatever order `filters_by` received them in.
   */
  function Explicit(options: Options): (r: seq<(Kind, Conditional)>)
    ensures r == [] <==> options.ifCondition.None? && options.unlessCondition.None?
    ensures options.ifCondition.Some? ==> r[0] == (If, options.ifCondition.value)
    ensures options.unlessCondition.Some? ==> r[|r| - 1] == (Unless, options.unlessCondition.value)
    ensures |r| <= 2
  {
    match (options.ifCondition, options.unlessCondition)
    case (Some(c), Some(d)) => [(If, c), (Unless, d)]
    case (Some(c), None) => [(If, c)]
    case (None, Some(d)) => [(Unless, d)]
    case (None, None) => []
  }

  /** One entry of `supported_filters`: `attribute => [filter, options]`. */
  datatype Registration = Registration(attribute: string, filter: Strategy, options: Options)

  /** What `serialize_filter` returns: the prepared filter and the options it wrote. */
  datatype Serialized = Serialized(filter: Prepared, options: Options)

  /** The default strategy of `filters_by`: `collection.where(attribute => query)`. */
  function DefaultFilter(attribute: string): (s: Strategy)
    ensures s.Callable?
  {
    Callable((c: Collection, q: Option<string>) => c.Then(Where(Equals(attribute, q))))
  }

  /** The default strategy adds one `where(attribute => query)`, nil included, and nothing else. */
  lemma DefaultFilterWhere(attribute: string, c: Collection, q: Option<string>)
    ensures DefaultFilter(attribute).call(c, q) == Collection(c.source, c.ops + [Where(Equals(attribute, q))])
  {
  }

  function Attributes(filters: seq<Registration>): (r: seq<string>)
    ensures |r| == |filters| && forall i :: 0 <= i < |filters| ==> r[i] == filters[i].attribute
  {
    seq(|filters|, i requires 0 <= i < |filters| => filters[i].attribute)
  }

  /** `{**supported_filters, attribute => [filter, options]}`: a known key keeps its slot, a new key goes last. */
  function Register(filters: seq<Registration>, reg: Registration): (r: seq<Registration>)
    decreases |filters|
  {
    if filters == [] then [reg]
    else if filters[0].attribute == reg.attribute then [reg] + filters[1..]
    else [filters[0]] + Register(filters[1..], reg)
  }

  /** A new attribute is appended after every existing entry. */
  lemma {:induction false} RegisterAppends(filters: seq<Registration>, reg: Registration)
    requires reg.attribute !in Attributes(filters)
    ensures Register(filters, reg) == filters + [reg]
    decreases |filters|
  {
    if filters != [] {
      assert Attributes(filters[1..]) == Attributes(filters)[1..];
      RegisterAppends(filters[1..], reg);
      assert [filters[0]] + (filters[1..] + [reg]) == filters + [reg];
    }
  }

  /**
   * Registering a known attribute replaces its entry where it stands and leaves every other
   * entry alone.
   */
  lemma {:induction false} RegisterReplaces(filters: seq<Registration>, reg: Registration)
    requires Distinct(Attributes(filters)) && reg.attribute in Attributes(filters)
    ensures |Register(filters, reg)| == |filters|
    ensures forall i :: 0 <= i < |filters| ==>
      Register(filters, reg)[i] == (if filters[i].attribute == reg.attribute then reg else filters[i])
    decreases |filters|
  {
    var rest := filters[1..];
    var r := Register(filters, reg);
    if filters[0].attribute == reg.attribute {
      forall i | 0 < i < |filters|
        ensures filters[i].attribute != reg.attribute
      {
        assert Attributes(filters)[0] != Attributes(filters)[i];
      }
    } else {
      assert Attributes(rest) == Attributes(filters)[1..];
      RegisterReplaces(rest, reg);
      forall i | 0 < i < |filters|
        ensures r[i] == (if filters[i].attribute == reg.attribute then reg else filters[i])
      {
        assert filters[i] == rest[i - 1] && r[i] == Register(rest, reg)[i - 1];
      }
    }
  }

  /** The registry's keys stay distinct: each attribute has one entry. */
  lemma RegisterKeepsKeysDistinct(filters: seq<Registration>, reg: Registration)
    requires Distinct(Attributes(filters))
    ensures Distinct(Attributes(Register(filters, reg)))
  {
    var r := Register(filters, reg);
    if reg.attribute in Attributes(filters) {
      RegisterReplaces(filters, reg);
      assert Attributes(r) == Attributes(filters);
    } else {
      RegisterAppends(filters, reg);
      assert Attributes(r) == Attributes(filters) + [reg.attribute];
    }
  }

  /** The value of `query_parameter`, or the attribute when none was given. */
  function QueryParameter(reg: Registration): (qp: string)
    ensures reg.options.queryParameter.None? ==> qp == reg.attribute
  {
    reg.options.queryParameter.GetOr(reg.attribute)
  }

  /** `params[key]`: nil for a missing key. */
  function Lookup(params: Params, key: string): (v: Option<string>)
    ensures v.Some? ==> key in params && params[key] == v
  {
    if key in params then params[key] else None
  }

  /**
   * The default condition `query.present? || allow_nil && params.key?(query_parameter)`;
   * with a falsy `allow_nil` the `&&` yields `allow_nil` itself.
   */
  function DefaultCondition(query: Option<string>, allowNil: Value, hasKey: bool): (v: Value)
    ensures v == Bool(true) <==> query.Some? || (allowNil.Truthy() && hasKey)
  {
    if query.Some? then Bool(true)
    else if !allowNil.Truthy() then allowNil
    else Bool(hasKey)
  }

  /**
   * The options `serialize_filter` writes back: `query_parameter` defaulted to the
   * attribute; `query` looked up with blank counting as absent; `conditions` the given
   * `if` and `unless`, `if` first, or else the default condition. They do not depend on the collection.
   */
  function WriteOptions(reg: Registration, params: Params): (o: Options)
    ensures o.queryParameter == Some(QueryParameter(reg))
    ensures o.query == Presence(Lookup(params, QueryParameter(reg)))
    ensures o.query.Some? <==>
      QueryParameter(reg) in params && params[QueryParameter(reg)].Some? && !IsBlank(params[QueryParameter(reg)].value)
    ensures Explicit(reg.options) != [] ==> o.conditions == Explicit(reg.options)
    ensures Explicit(reg.options) == [] ==>
      o.conditions == [(If, LiteralCondition(DefaultCondition(o.query, reg.options.allowNil, QueryParameter(reg) in params)))]
    ensures o.allowNil == reg.options.allowNil
    ensures o.ifCondition == reg.options.ifCondition && o.unlessCondition == reg.options.unlessCondition
  {
    var qp := QueryParameter(reg);
    var query := Presence(Lookup(params, qp));
    var conditions :=
      if Explicit(reg.options) != [] then Explicit(reg.options)
      else [(If, LiteralCondition(DefaultCondition(query, reg.options.allowNil, qp in params)))];
    reg.options.(queryParameter := Some(qp), query := query, conditions := conditions)
  }

  /**
   * `serialize_filter`: writes the options, then instantiates a filter class with the
   * current collection and the query, before any condition is checked.
   */
  function SerializeFilter(reg: Registration, collection: Collection, params: Params): (s: Serialized)
    ensures s.options == WriteOptions(reg, params)
    ensures reg.filter.Callable? ==> s.filter == PreparedCallable(reg.filter.call)
    ensures reg.filter.FilterClass? ==> s.filter == PreparedInstance(reg.filter.construct(collection, s.options.query))
  {
    var options := WriteOptions(reg, params);
    var prepared :=
      match reg.filter
      case Callable(call) => PreparedCallable(call)
      case FilterClass(construct) => PreparedInstance(construct(collection, options.query));
    Serialized(prepared, options)
  }

  /** The registration as it is stored after `serialize_filter` has written into its options. */
  function Rewritten(reg: Registration, params: Params): (r: Registration)
    ensures r.attribute == reg.attribute && r.filter == reg.filter
  {
    reg.(options := WriteOptions(reg, params))
  }

  /**
   * `serialize_filter` writes into the stored options hash, but a later call from the
   * written options writes and computes exactly what it would from the original ones.
   */
  lemma RewriteHarmless(reg: Registration, params: Params, params2: Params)
    ensures WriteOptions(Rewritten(reg, params), params2) == WriteOptions(reg, params2)
  {
    assert QueryParameter(Rewritten(reg, params)) == QueryParameter(reg);
  }

  /** The value a condition yields: the proc's result, the filter's method's answer, or the value itself. */
  function ConditionValue(condition: Conditional, filter: Prepared, query: Option<string>): (r: Result<Value>)
    ensures r.Err? <==>
      condition.SymbolCondition? && (filter.PreparedCallable? || filter.instance.send(condition.name).None?)
  {
    match condition
    case ProcCondition(f) => Ok(f(query))
    case LiteralCondition(v) => Ok(v)
    case SymbolCondition(name) =>
      match filter
      case PreparedCallable(_) => Err(NoMethodError("Proc", name))
      case PreparedInstance(instance) =>
        match instance.send(name)
        case None => Err(NoMethodError("filter", name))
        case Some(v) => Ok(v)
  }

  /** `check_condition`: `(type == :if) == value`, a strict comparison with `true` or `false`. */
  function CheckCondition(kind: Kind, condition: Conditional, filter: Prepared, query: Option<string>): (r: Result<bool>)
    ensures r.Ok? <==> ConditionValue(condition, filter, query).Ok?
  {
    var v :- ConditionValue(condition, filter, query);
    Ok(v == Bool(kind == If))
  }

  /**
   * Only `true` satisfies `if` and only `false` satisfies `unless`: any other value, nil
   * included, fails both, so the two kinds are complements on booleans alone.
   */
  lemma CheckConditionStrict(condition: Conditional, filter: Prepared, query: Option<string>)
    requires ConditionValue(condition, filter, query).Ok?
    ensures CheckCondition(If, condition, filter, query) == Ok(true)
      <==> ConditionValue(condition, filter, query).value == Bool(true)
    ensures CheckCondition(Unless, condition, filter, query) == Ok(true)
      <==> ConditionValue(condition, filter, query).value == Bool(false)
    ensures !ConditionValue(condition, filter, query).value.Bool? ==>
      CheckCondition(If, condition, filter, query) == Ok(false) && CheckCondition(Unless, condition, filter, query) == Ok(false)
    ensures ConditionValue(condition, filter, query).value.Bool? ==>
      (CheckCondition(If, condition, filter, query) == Ok(true) <==> CheckCondition(Unless, condition, filter, query) == Ok(false))
  {
  }

  /** `conditions.all? { check_condition }`: stops at the first failing condition or raise. */
  function AllConditions(conditions: seq<(Kind, Conditional)>, filter: Prepared, query: Option<string>): (r: Result<bool>)
    ensures r == Ok(true) <==>
      forall i :: 0 <= i < |conditions| ==> CheckCondition(conditions[i].0, conditions[i].1, filter, query) == Ok(true)
    decreases |conditions|
  {
    if conditions == [] then Ok(true)
    else
      assert forall i :: 1 <= i < |conditions| ==> conditions[i] == conditions[1..][i - 1];
      var pass :- CheckCondition(conditions[0].0, conditions[0].1, filter, query);
      if !pass then Ok(false) else AllConditions(conditions[1..], filter, query)
  }

  /** One step of the `reduce`: a skipped filter passes the collection through. */
  function Step(acc: Collection, reg: Registration, params: Params): Result<Collection> {
    var s := SerializeFilter(reg, acc, params);
    var pass :- AllConditions(s.options.conditions, s.filter, s.options.query);
    if !pass then Ok(acc)
    else
      match s.filter
      case PreparedCallable(call) => Ok(call(acc, s.options.query))
      case PreparedInstance(instance) => Ok(instance.results)
  }

  /** What an applied filter makes of the collection: the callable's value, or the new instance's `results`. */
  function Apply(filter: Strategy, acc: Collection, query: Option<string>): Collection {
    match filter
    case Callable(call) => call(acc, query)
    case FilterClass(construct) => construct(acc, query).results
  }

  /**
   * Without `if`/`unless` a filter applies exactly when its query is present, or when
   * `allow_nil` is set and the key is in the params (the strategy then receives nil);
   * otherwise the collection passes through unchanged.
   */
  lemma StepDefaultCondition(acc: Collection, reg: Registration, params: Params)
    requires reg.options.ifCondition.None? && reg.options.unlessCondition.None?
    ensures var qp := QueryParameter(reg);
      var query := Presence(Lookup(params, qp));
      Step(acc, reg, params)
        == if query.Some? || (reg.options.allowNil.Truthy() && qp in params) then Ok(Apply(reg.filter, acc, query))
           else Ok(acc)
  {
    var s := SerializeFilter(reg, acc, params);
    assert AllConditions(s.options.conditions, s.filter, s.options.query)
        == CheckCondition(If, s.options.conditions[0].1, s.filter, s.options.query) by {
      assert s.options.conditions[1..] == [];
    }
  }

  /**
   * Explicit `if`/`unless` conditions replace the default one entirely: `allow_nil` then
   * has no effect, and a blank query does not by itself skip the filter.
   */
  lemma StepExplicitConditions(acc: Collection, reg: Registration, params: Params, allowNil: Value)
    requires reg.options.ifCondition.Some? || reg.options.unlessCondition.Some?
    ensures Step(acc, reg, params) == Step(acc, reg.(options := reg.options.(allowNil := allowNil)), params)
    ensures var s := SerializeFilter(reg, acc, params);
      AllConditions(Explicit(reg.options), s.filter, s.options.query) == Ok(true)
      ==> Step(acc, reg, params) == Ok(Apply(reg.filter, acc, s.options.query))
  {
  }

  /**
   * A method-name condition on a callable strategy raises `NoMethodError` once it is
   * reached: an `if:` always is, an `unless:` when there is no `if:` or the `if:` passed.
   */
  lemma SymbolConditionOnCallable(acc: Collection, reg: Registration, params: Params, name: string)
    requires reg.filter.Callable?
    requires reg.options.ifCondition == Some(SymbolCondition(name))
      || (reg.options.unlessCondition == Some(SymbolCondition(name))
          && (reg.options.ifCondition.None?
              || CheckCondition(If, reg.options.ifCondition.value, PreparedCallable(reg.filter.call), Presence(Lookup(params, QueryParameter(reg)))) == Ok(true)))
    ensures Step(acc, reg, params) == Err(NoMethodError("Proc", name))
  {
    var s := SerializeFilter(reg, acc, params);
    var conditions := s.options.conditions;
    assert conditions == Explicit(reg.options);
    if reg.options.ifCondition != Some(SymbolCondition(name)) {
      if reg.options.ifCondition.Some? {
        assert conditions == [(If, reg.options.ifCondition.value), (Unless, SymbolCondition(name))];
        assert conditions[1..] == [(Unless, SymbolCondition(name))];
        assert CheckCondition(If, conditions[0].1, s.filter, s.options.query) == Ok(true);
        assert AllConditions(conditions[1..], s.filter, s.options.query) == Err(NoMethodError("Proc", name));
      }
    }
  }

  /**
   * `all?` checks `if` before `unless` and stops at the first failure: an `if:` that does
   * not pass skips the filter without evaluating the `unless:`, even one that would raise.
   */
  lemma IfCheckedBeforeUnless(acc: Collection, reg: Registration, params: Params)
    requires reg.options.ifCondition.Some?
    requires var s := SerializeFilter(reg, acc, params);
      CheckCondition(If, reg.options.ifCondition.value, s.filter, s.options.query) == Ok(false)
    ensures Step(acc, reg, params) == Ok(acc)
  {
    var s := SerializeFilter(reg, acc, params);
    assert s.options.conditions[0] == (If, reg.options.ifCondition.value);
  }

  /** One registration's effect on the running collection. */
  type StepFn = (Collection, Registration) -> Result<Collection>

  function StepBy(params: Params): StepFn {
    (acc: Collection, reg: Registration) => Step(acc, reg, params)
  }

  /** A fold over the first `k` registrations with any step: the first raise stops it. */
  function FoldWith(step: StepFn, filters: seq<Registration>, collection: Collection, k: nat): Result<Collection>
    requires k <= |filters|
  {
    if k == 0 then Ok(collection)
    else
      var acc :- FoldWith(step, filters, collection, k - 1);
      step(acc, filters[k - 1])
  }

  /** The fold over the first `k` registrations. */
  function FoldUpTo(filters: seq<Registration>, params: Params, collection: Collection, k: nat): Result<Collection>
    requires k <= |filters|
  {
    FoldWith(StepBy(params), filters, collection, k)
  }

  /** `supported_filters.reduce(collection)`: with no filters the input comes back. */
  function FoldFilters(filters: seq<Registration>, params: Params, collection: Collection): (r: Result<Collection>)
    ensures filters == [] ==> r == Ok(collection)
  {
    FoldUpTo(filters, params, collection, |filters|)
  }

  lemma {:induction false} FoldWithPrefix(step: StepFn, filters: seq<Registration>, more: seq<Registration>, c: Collection, k: nat)
    requires k <= |filters|
    ensures FoldWith(step, filters + more, c, k) == FoldWith(step, filters, c, k)
  {
    if k > 0 {
      FoldWithPrefix(step, filters, more, c, k - 1);
      assert (filters + more)[k - 1] == filters[k - 1];
    }
  }

  lemma {:induction false} FoldWithSuffix(step: StepFn, filters: seq<Registration>, more: seq<Registration>, c: Collection, j: nat)
    requires j <= |more|
    ensures FoldWith(step, filters + more, c, |filters| + j)
         == match FoldWith(step, filters, c, |filters|)
            case Err(e) => Err(e)
            case Ok(mid) => FoldWith(step, more, mid, j)
  {
    if j == 0 {
      FoldWithPrefix(step, filters, more, c, |filters|);
    } else {
      FoldWithSuffix(step, filters, more, c, j - 1);
      assert (filters + more)[|filters| + j - 1] == more[j - 1];
    }
  }

  lemma FoldWithConcat(step: StepFn, filters: seq<Registration>, more: seq<Registration>, c: Collection)
    ensures FoldWith(step, filters + more, c, |filters + more|)
         == match FoldWith(step, filters, c, |filters|)
            case Err(e) => Err(e)
            case Ok(mid) => FoldWith(step, more, mid, |more|)
  {
    FoldWithSuffix(step, filters, more, c, |more|);
    assert |filters + more| == |filters| + |more|;
  }

  lemma {:induction false} FoldWithErrorStops(step: StepFn, filters: seq<Registration>, c: Collection, k: nat)
    requires k <= |filters| && FoldWith(step, filters, c, k).Err?
    ensures FoldWith(step, filters, c, |filters|) == FoldWith(step, filters, c, k)
    decreases |filters| - k
  {
    if k < |filters| {
      FoldWithErrorStops(step, filters, c, k + 1);
    }
  }

  /** Two registries whose entries step alike fold alike. */
  lemma {:induction false} FoldWithAlike(step: StepFn, filters: seq<Registration>, written: seq<Registration>, c: Collection, k: nat)
    requires |written| == |filters| && k <= |filters|
    requires forall acc: Collection, i :: 0 <= i < |filters| ==> step(acc, written[i]) == step(acc, filters[i])
    ensures FoldWith(step, written, c, k) == FoldWith(step, filters, c, k)
  {
    if k > 0 {
      FoldWithAlike(step, filters, written, c, k - 1);
    }
  }

  /** The registry once the first `k` entries have had their options written back. */
  function RewriteUpTo(filters: seq<Registration>, params: Params, k: nat): (r: seq<Registration>)
    ensures |r| == |filters|
  {
    seq(|filters|, i requires 0 <= i < |filters| => if i < k then Rewritten(filters[i], params) else filters[i])
  }

  lemma RewriteUpToNone(filters: seq<Registration>, params: Params)
    ensures RewriteUpTo(filters, params, 0) == filters
  {
  }

  lemma RewriteUpToNext(filters: seq<Registration>, params: Params, k: nat)
    requires k < |filters|
    ensures RewriteUpTo(filters, params, k)[k := Rewritten(filters[k], params)] == RewriteUpTo(filters, params, k + 1)
  {
  }

  /**
   * Writing options back never changes an entry's attribute; each entry is either as it was
   * or written back, and all are written back once the whole registry is visited.
   */
  lemma RewriteUpToShape(filters: seq<Registration>, params: Params, k: nat)
    ensures var r := RewriteUpTo(filters, params, k);
      Attributes(r) == Attributes(filters)
      && (forall i :: 0 <= i < |r| ==> r[i] == filters[i] || r[i] == Rewritten(filters[i], params))
      && (k >= |filters| ==> forall i :: 0 <= i < |r| ==> r[i] == Rewritten(filters[i], params))
  {
  }

  lemma FoldUpToNext(filters: seq<Registration>, params: Params, c: Collection, k: nat, acc: Collection)
    requires k < |filters| && FoldUpTo(filters, params, c, k) == Ok(acc)
    ensures FoldUpTo(filters, params, c, k + 1) == StepBy(params)(acc, filters[k])
  {
  }

  /** Once a step raises, the error is the fold's result. */
  lemma FoldErrorStops(filters: seq<Registration>, params: Params, c: Collection, k: nat)
    requires k <= |filters| && FoldUpTo(filters, params, c, k).Err?
    ensures FoldFilters(filters, params, c) == FoldUpTo(filters, params, c, k)
  {
    FoldWithErrorStops(StepBy(params), filters, c, k);
  }

  /**
   * The fold composes: filtering by `filters + more` is filtering by `filters`, then
   * filtering the result by `more`; a raise stops it.
   */
  lemma FoldFiltersConcat(filters: seq<Registration>, more: seq<Registration>, params: Params, c: Collection)
    ensures FoldFilters(filters + more, params, c)
         == match FoldFilters(filters, params, c)
            case Err(e) => Err(e)
            case Ok(mid) => FoldFilters(more, params, mid)
  {
    FoldWithConcat(StepBy(params), filters, more, c);
  }

  /** A step from a rewritten registration is the step from the original one. */
  lemma StepRewriteHarmless(acc: Collection, reg: Registration, params: Params, params2: Params)
    ensures Step(acc, Rewritten(reg, params), params2) == Step(acc, reg, params2)
  {
    RewriteHarmless(reg, params, params2);
  }

  /**
   * However many entries an earlier `filter` call has written back, a later call folds to
   * the same result as over the registrations as declared.
   */
  lemma FoldAfterRewrite(filters: seq<Registration>, written: seq<Registration>, params: Params,
                         params2: Params, c: Collection, k: nat)
    requires |written| == |filters| && k <= |filters|
    requires forall i :: 0 <= i < |filters| ==> written[i] == filters[i] || written[i] == Rewritten(filters[i], params)
    ensures FoldUpTo(written, params2, c, k) == FoldUpTo(filters, params2, c, k)
  {
    var step := StepBy(params2);
    forall acc: Collection, i | 0 <= i < |filters|
      ensures step(acc, written[i]) == step(acc, filters[i])
    {
      StepRewriteHarmless(acc, filters[i], params, params2);
    }
    FoldWithAlike(step, filters, written, c, k);
  }

  /** `filter_params`: `params[:filter] || {}`. */
  function FilterParams(filter: Option<Params>): (r: Params)
    ensures filter.None? ==> r == map[]
    ensures filter.Some? ==> r == filter.value
  {
    filter.GetOr(map[])
  }

  /** A query class's filter declarations: `@supported_filters`. */
  class FilterDeclarations {
    var supportedFilters: seq<Registration>

    ghost predicate Valid()
      reads this
    {
      Distinct(Attributes(supportedFilters))
    }

    /** `supported_filters` before any `filters_by`: `@supported_filters || {}`. */
    constructor ()
      ensures Valid() && supportedFilters == []
    {
      supportedFilters := [];
    }

    /** `filters_by(attribute, filter = nil, **options)`: a missing filter becomes the default `where`. */
    method FiltersBy(attribute: string, filter: Option<Strategy>, options: Options)
      requires Valid()
      modifies this
      ensures Valid()
      ensures supportedFilters == Register(old(supportedFilters), Registration(attribute, filter.GetOr(DefaultFilter(attribute)), options))
    {
      RegisterKeepsKeysDistinct(supportedFilters, Registration(attribute, filter.GetOr(DefaultFilter(attribute)), options));
      supportedFilters := Register(supportedFilters, Registration(attribute, filter.GetOr(DefaultFilter(attribute)), options));
    }

    /**
     * `filter(collection, filter_params)`: the registered filters in order, each on the
     * previous result. Each visited entry has its options written back; a raise stops the
     * visit, so only the entries up to it are written.
     */
    method Filter(collection: Collection, params: Params) returns (r: Result<Collection>)
      modifies this
      ensures r == FoldFilters(old(supportedFilters), params, collection)
      ensures Attributes(supportedFilters) == Attributes(old(supportedFilters))
      ensures forall i :: 0 <= i < |supportedFilters| ==>
        supportedFilters[i] == old(supportedFilters)[i] || supportedFilters[i] == Rewritten(old(supportedFilters)[i], params)
      ensures r.Ok? ==> forall i :: 0 <= i < |supportedFilters| ==>
        supportedFilters[i] == Rewritten(old(supportedFilters)[i], params)
    {
      var filters := supportedFilters;
      var acc := collection;
      var k := 0;
      RewriteUpToNone(filters, params);
      while k < |filters|
        invariant k <= |filters|
        invariant FoldUpTo(filters, params, collection, k) == Ok(acc)
        invariant supportedFilters == RewriteUpTo(filters, params, k)
      {
        var next := StepBy(params)(acc, filters[k]);
        FoldUpToNext(filters, params, collection, k, acc);
        RewriteUpToNext(filters, params, k);
        supportedFilters := supportedFilters[k := Rewritten(filters[k], params)];
        if next.Err? {
          FoldErrorStops(filters, params, collection, k + 1);
          RewriteUpToShape(filters, params, k + 1);
          return next;
        }
        acc := next.value;
        k := k + 1;
      }
      RewriteUpToShape(filters, params, k);
      return Ok(acc);
    }
  }
}
