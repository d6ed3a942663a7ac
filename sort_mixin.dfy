/**
 * `Mixins::Sort`: the class-level sort registry (`sorts_by`, `unique_sort_attributes`,
 * `default_sort`) and the instance-level `sort`, which checks every requested token,
 * left-joins the models the tokens name, reorders by the tokens (or by the default sort)
 * and finally appends the unique tie-breaking order.
 */
module SortMixin {
  import opened Wrappers
  import opened Text
  import opened Relation
  import Errors

  /**
   * One entry of `_sort_attributes`: a permitted attribute symbol, or the hash from a
   * model name to the attributes of that model that may be sorted by.
   */
  datatype SortItem = Attribute(name: string) | Nested(models: map<string, seq<string>>)

  /** What `sorts_by` builds: only the last entry may be a hash. */
  predicate WellFormed(items: seq<SortItem>) {
    forall i :: 0 <= i < |items| - 1 ==> items[i].Attribute?
  }

  /** The plain attributes of the registry, in registration order. */
  function PlainAttributes(items: seq<SortItem>): seq<string> {
    if items == [] then []
    else (if items[0].Attribute? then [items[0].name] else []) + PlainAttributes(items[1..])
  }

  /** The trailing hash, `{}` when there is none (what `extract_options!` takes off). */
  function NestedAttributes(items: seq<SortItem>): map<string, seq<string>> {
    if |items| > 0 && items[|items| - 1].Nested? then items[|items| - 1].models else map[]
  }

  /** `Hash#fetch(model, [])` on the nested attributes. */
  function ModelAttributes(nested: map<string, seq<string>>, model: string): seq<string> {
    if model in nested then nested[model] else []
  }

  function Attributes(names: seq<string>): (r: seq<SortItem>)
    ensures |r| == |names|
    ensures forall i :: 0 <= i < |r| ==> r[i] == Attribute(names[i])
  {
    seq(|names|, i requires 0 <= i < |names| => Attribute(names[i]))
  }

  /**
   * `sorts_by(*attributes, **nested_attributes)`: the registry without its trailing hash,
   * then the new attributes, then one hash that deep-merges the new nested attributes into
   * the old ones. The values are lists, so a model given again has its list replaced.
   */
  function RegisterSorts(items: seq<SortItem>, attributes: seq<string>, nested: map<string, seq<string>>): (r: seq<SortItem>)
    ensures WellFormed(items) ==> WellFormed(r)
    ensures r != [] && r[|r| - 1].Nested?
    ensures NestedAttributes(r).Keys == NestedAttributes(items).Keys + nested.Keys
    ensures forall m :: m in nested ==> ModelAttributes(NestedAttributes(r), m) == nested[m]
    ensures forall m :: m !in nested ==> ModelAttributes(NestedAttributes(r), m) == ModelAttributes(NestedAttributes(items), m)
  {
    var rest := if |items| > 0 && items[|items| - 1].Nested? then items[..|items| - 1] else items;
    rest + Attributes(attributes) + [Nested(NestedAttributes(items) + nested)]
  }

  /** On a registry `sorts_by` built, the plain attributes are the old ones followed by the new ones. */
  lemma {:induction false} RegisterSortsAppends(items: seq<SortItem>, attributes: seq<string>, nested: map<string, seq<string>>)
    requires WellFormed(items)
    ensures PlainAttributes(RegisterSorts(items, attributes, nested)) == PlainAttributes(items) + attributes
  {
    var rest := if |items| > 0 && items[|items| - 1].Nested? then items[..|items| - 1] else items;
    var hash := [Nested(NestedAttributes(items) + nested)];
    assert RegisterSorts(items, attributes, nested) == rest + Attributes(attributes) + hash;
    assert PlainAttributes(hash) == [];
    PlainAttributesAppend(rest + Attributes(attributes), hash);
    PlainAttributesAppend(rest, Attributes(attributes));
    PlainAttributesOfAttributes(attributes);
    if |items| > 0 && items[|items| - 1].Nested? {
      var last := [items[|items| - 1]];
      assert items == rest + last;
      assert PlainAttributes(last) == [];
      PlainAttributesAppend(rest, last);
    }
  }

  lemma {:induction false} PlainAttributesAppend(a: seq<SortItem>, b: seq<SortItem>)
    ensures PlainAttributes(a + b) == PlainAttributes(a) + PlainAttributes(b)
    decreases |a|
  {
    if a == [] {
      assert a + b == b;
    } else {
      assert (a + b)[1..] == a[1..] + b;
      PlainAttributesAppend(a[1..], b);
    }
  }

  lemma {:induction false} PlainAttributesOfAttributes(names: seq<string>)
    ensures PlainAttributes(Attributes(names)) == names
    decreases |names|
  {
    if names != [] {
      assert Attributes(names)[1..] == Attributes(names[1..]);
      PlainAttributesOfAttributes(names[1..]);
    }
  }

  /** `include?(attribute)` on the whole registry finds exactly the plain attributes. */
  lemma {:induction false} AttributeInRegistry(items: seq<SortItem>, a: string)
    ensures Attribute(a) in items <==> a in PlainAttributes(items)
    decreases |items|
  {
    if items != [] {
      AttributeInRegistry(items[1..], a);
      assert items == [items[0]] + items[1..];
    }
  }

  /** The class-level configuration `sort` reads. */
  datatype SortSettings = SortSettings(sortAttributes: seq<SortItem>, uniqueSortAttributes: seq<OrderArg>, defaultSort: Option<OrderArg>)

  /** The order `_unique_sort_attributes` falls back to: `id: :asc`. */
  const DefaultUniqueSort: seq<OrderArg> := [DirectedOrder([("id", Asc)])]

  /** The class-level registry of a query class. */
  class SortDeclarations {
    var sortAttributes: seq<SortItem>
    var uniqueSortAttributes: Option<seq<OrderArg>>
    var defaultSort: Option<OrderArg>

    ghost predicate Valid()
      reads this
    {
      WellFormed(sortAttributes)
    }

    /** A query class before any declaration: every instance variable is nil. */
    constructor ()
      ensures Valid()
      ensures sortAttributes == [] && uniqueSortAttributes == None && defaultSort == None
    {
      sortAttributes := [];
      uniqueSortAttributes := None;
      defaultSort := None;
    }

    /** `_unique_sort_attributes`: the declared list, or `[id: :asc]` until one is declared. */
    function UniqueSortAttributes(): (r: seq<OrderArg>)
      reads this
      ensures uniqueSortAttributes.None? ==> r == DefaultUniqueSort
      ensures uniqueSortAttributes.Some? ==> r == uniqueSortAttributes.value
    {
      uniqueSortAttributes.GetOr(DefaultUniqueSort)
    }

    /** `unique_sort_attributes(*attributes)`: replaces the whole list. */
    method SetUniqueSortAttributes(attributes: seq<OrderArg>)
      modifies this
      ensures uniqueSortAttributes == Some(attributes)
      ensures sortAttributes == old(sortAttributes) && defaultSort == old(defaultSort)
    {
      uniqueSortAttributes := Some(attributes);
    }

    /** `default_sort(options)`. */
    method SetDefaultSort(options: OrderArg)
      modifies this
      ensures defaultSort == Some(options)
      ensures sortAttributes == old(sortAttributes) && uniqueSortAttributes == old(uniqueSortAttributes)
    {
      defaultSort := Some(options);
    }

    /** `sorts_by(*attributes, **nested_attributes)`. */
    method SortsBy(attributes: seq<string>, nested: map<string, seq<string>>)
      requires Valid()
      modifies this
      ensures Valid()
      ensures sortAttributes == RegisterSorts(old(sortAttributes), attributes, nested)
      ensures PlainAttributes(sortAttributes) == PlainAttributes(old(sortAttributes)) + attributes
      ensures uniqueSortAttributes == old(uniqueSortAttributes) && defaultSort == old(defaultSort)
    {
      RegisterSortsAppends(sortAttributes, attributes, nested);
      sortAttributes := RegisterSorts(sortAttributes, attributes, nested);
    }

    /** The configuration an instance's `sort` sees. */
    function Configuration(): (s: SortSettings)
      reads this
      ensures s.sortAttributes == sortAttributes && s.defaultSort == defaultSort
      ensures s.uniqueSortAttributes == UniqueSortAttributes()
    {
      SortSettings(sortAttributes, UniqueSortAttributes(), defaultSort)
    }
  }

  /** The three captures of `deserialize_param`: the `-` marker, the model and the attribute. */
  datatype Token = Token(desc: Option<string>, model: Option<string>, attribute: string)

  /**
   * `(?>(?<model>[^.]*)\.)*(?<attribute>.*)$` on the text after the marker: the repeated group
   * eats every dot-terminated segment and keeps the last one it ate; the attribute is what
   * follows the last dot, up to the first line break.
   */
  function SplitModel(rest: string): (r: (Option<string>, string))
    ensures r.0.None? <==> '.' !in rest
    ensures r.0.Some? ==> '.' !in r.0.value
    ensures '.' !in r.1 && '\n' !in r.1
    ensures '.' !in rest ==> r.1 == FirstLine(rest)
  {
    var segments := SplitAll(rest, '.');
    var n := |segments|;
    assert '.' !in rest ==> segments == [rest];
    assert '.' in rest ==> n >= 2 by {
      if '.' in rest {
        assert IndexOf(rest, '.').Some?;
      }
    }
    (if n >= 2 then Some(segments[n - 2]) else None, FirstLine(segments[n - 1]))
  }

  /** The model is the segment between the last two dots (or before the only one), the attribute what follows the last dot. */
  lemma SplitModelAtLastDot(prefix: string, model: string, attribute: string)
    requires prefix == [] || prefix[|prefix| - 1] == '.'
    requires '.' !in model && '.' !in attribute
    ensures SplitModel(prefix + model + "." + attribute) == (Some(model), FirstLine(attribute))
  {
    SplitAllAppend(prefix + model, '.', attribute);
    if prefix == [] {
      assert prefix + model == model;
      assert SplitAll(model, '.') == [model];
    } else {
      var p := prefix[..|prefix| - 1];
      assert prefix + model == p + ['.'] + model;
      SplitAllAppend(p, '.', model);
    }
    assert prefix + model + "." + attribute == prefix + model + ['.'] + attribute;
  }

  /** The stripped token without its leading `-`. */
  function Undashed(param: string): string {
    var t := Strip(param);
    if |t| > 0 && t[0] == '-' then t[1..] else t
  }

  /** `deserialize_param(param)`. */
  function DeserializeParam(param: string): (t: Token)
    ensures t.desc == None || t.desc == Some("-")
    ensures t.desc == Some("-") <==> StartsWith(Strip(param), "-")
    ensures t.model.None? <==> '.' !in Undashed(param)
    ensures '.' !in t.attribute && '\n' !in t.attribute
  {
    var s := Strip(param);
    var (model, attribute) := SplitModel(Undashed(param));
    Token(if |s| > 0 && s[0] == '-' then Some("-") else None, model, attribute)
  }

  /** `serialize_param(desc, model, attribute)`: `[desc, model && "#{model}.", attribute].compact.join`. */
  function SerializeParam(desc: Option<string>, model: Option<string>, attribute: string): string {
    desc.GetOr("") + (if model.Some? then model.value + "." else "") + attribute
  }

  /** Text with at most one dot and no line break is rebuilt from its model and attribute. */
  lemma {:induction false} SplitModelJoin(rest: string)
    requires Count('.', rest) <= 1 && '\n' !in rest
    ensures var (model, attribute) := SplitModel(rest);
      (if model.Some? then model.value + "." else "") + attribute == rest
  {
    SplitAllCount(rest, '.');
    JoinSplitAll(rest, '.');
    var segments := SplitAll(rest, '.');
    if |segments| == 2 {
      assert rest == segments[0] + ['.'] + segments[1];
      assert '\n' !in segments[1] by {
        assert forall i :: 0 <= i < |segments[1]| ==> segments[1][i] == rest[|segments[0]| + 1 + i];
      }
      assert FirstLine(segments[1]) == segments[1];
    } else {
      assert rest == segments[0];
    }
  }

  /**
   * A stripped token with at most one dot and no line break is rebuilt exactly by serialising
   * what `deserialize_param` took from it.
   */
  lemma {:induction false} SerializeDeserializeParam(param: string)
    requires Strip(param) == param && '\n' !in param && Count('.', param) <= 1
    ensures var t := DeserializeParam(param);
      SerializeParam(t.desc, t.model, t.attribute) == param
  {
    var rest := Undashed(param);
    var t := DeserializeParam(param);
    assert (t.model, t.attribute) == SplitModel(rest);
    var modelPart := if t.model.Some? then t.model.value + "." else "";
    assert SerializeParam(t.desc, t.model, t.attribute) == t.desc.GetOr("") + (modelPart + t.attribute);
    if |param| > 0 && param[0] == '-' {
      assert rest == param[1..];
      assert Count('.', rest) <= 1;
      SplitModelJoin(rest);
      assert param == "-" + rest;
    } else {
      assert rest == param;
      SplitModelJoin(rest);
    }
  }

  /**
   * `format_param(param)`, direction part: `Model.arel_table[attribute]` when the model is
   * present, `Arel.sql(attribute)` otherwise, ascending or descending.
   */
  function FormatParam(param: string): (r: OrderArg)
    ensures r.ModelColumnOrder? || r.SqlOrder?
    ensures r.direction == Desc <==> StartsWith(Strip(param), "-")
    ensures r.ModelColumnOrder? <==> DeserializeParam(param).model.Some? && !IsBlank(DeserializeParam(param).model.value)
    ensures r.ModelColumnOrder? ==> r.model == DeserializeParam(param).model.value && r.column == DeserializeParam(param).attribute
    ensures r.SqlOrder? ==> r.sql == DeserializeParam(param).attribute
  {
    var t := DeserializeParam(param);
    assert !IsBlank("-") by { assert !IsBlankSpace("-"[0]); }
    var direction := if t.desc.Some? && !IsBlank(t.desc.value) then Desc else Asc;
    if t.model.Some? && !IsBlank(t.model.value) then ModelColumnOrder(t.model.value, t.attribute, direction)
    else SqlOrder(t.attribute, direction)
  }

  /**
   * The reject test of `ensure_permitted_sort_params!` for one token. A token naming a model
   * looks in the registry's last entry, which raises when there is no entry or it is not a hash.
   */
  function Permitted(items: seq<SortItem>, t: Token): (r: Result<bool>)
    ensures t.model.None? ==> r == Ok(t.attribute in PlainAttributes(items))
    ensures t.model.Some? && items != [] && items[|items| - 1].Nested? ==>
      r == Ok(t.attribute in ModelAttributes(items[|items| - 1].models, t.model.value))
    ensures r.Err? <==> t.model.Some? && (items == [] || items[|items| - 1].Attribute?)
  {
    AttributeInRegistry(items, t.attribute);
    match t.model
    case None => Ok(Attribute(t.attribute) in items)
    case Some(m) =>
      if items == [] then Err(NoMethodError("nil", "fetch"))
      else match items[|items| - 1]
        case Attribute(_) => Err(NoMethodError("Symbol", "fetch"))
        case Nested(models) => Ok(t.attribute in ModelAttributes(models, m))
  }

  /** `map(&method(:deserialize_param))` over the comma fields. */
  function Tokens(fields: seq<string>): (ts: seq<Token>)
    ensures |ts| == |fields|
    ensures forall i :: 0 <= i < |ts| ==> ts[i] == DeserializeParam(fields[i])
  {
    seq(|fields|, i requires 0 <= i < |fields| => DeserializeParam(fields[i]))
  }

  /** The name an unpermitted token is reported under: `model.attribute`, without the marker. */
  function ReportedName(t: Token): (r: string)
    ensures t.model.None? ==> r == t.attribute
    ensures t.model.Some? ==> r == t.model.value + "." + t.attribute
  {
    SerializeParam(None, t.model, t.attribute)
  }

  /**
   * The unpermitted tokens, by their reported names, in input order and without removing
   * repeats; the first token whose check raises stops the scan.
   */
  function Unpermitted(items: seq<SortItem>, tokens: seq<Token>): (r: Result<seq<string>>)
    ensures r.Ok? ==> |r.value| <= |tokens|
    decreases |tokens|
  {
    if tokens == [] then Ok([])
    else
      var permitted :- Permitted(items, tokens[0]);
      var rest :- Unpermitted(items, tokens[1..]);
      Ok((if permitted then [] else [ReportedName(tokens[0])]) + rest)
  }

  /** A single token is reported exactly when it is not permitted, and an error in its check is passed on. */
  lemma UnpermittedOne(items: seq<SortItem>, t: Token)
    ensures Permitted(items, t).Err? ==> Unpermitted(items, [t]) == Err(Permitted(items, t).error)
    ensures Permitted(items, t) == Ok(true) ==> Unpermitted(items, [t]) == Ok([])
    ensures Permitted(items, t) == Ok(false) ==> Unpermitted(items, [t]) == Ok([ReportedName(t)])
  {
    assert [t][0] == t && [t][1..] == [];
    assert Unpermitted(items, []) == Ok([]);
    assert [ReportedName(t)] + [] == [ReportedName(t)];
  }

  /** The report for two lists of tokens is the report for the first followed by the report for the second. */
  lemma UnpermittedAppend(items: seq<SortItem>, a: seq<Token>, b: seq<Token>)
    ensures Unpermitted(items, a).Ok? && Unpermitted(items, b).Ok? ==>
      Unpermitted(items, a + b) == Ok(Unpermitted(items, a).value + Unpermitted(items, b).value)
    ensures Unpermitted(items, a).Err? ==> Unpermitted(items, a + b) == Unpermitted(items, a)
  {
    UnpermittedConcat(items, a, b);
  }

  /** Two reports in sequence: the first raise wins, otherwise the names concatenate. */
  function Combine(x: Result<seq<string>>, y: Result<seq<string>>): Result<seq<string>> {
    if x.Err? then x else if y.Err? then y else Ok(x.value + y.value)
  }

  lemma CombineAssoc(x: Result<seq<string>>, y: Result<seq<string>>, z: Result<seq<string>>)
    ensures Combine(Combine(x, y), z) == Combine(x, Combine(y, z))
  {
    if x.Ok? && y.Ok? && z.Ok? {
      assert (x.value + y.value) + z.value == x.value + (y.value + z.value);
    }
  }

  /** The report of a single token. */
  function Report(items: seq<SortItem>, t: Token): Result<seq<string>> {
    Unpermitted(items, [t])
  }

  lemma UnpermittedCons(items: seq<SortItem>, tokens: seq<Token>)
    requires tokens != []
    ensures Unpermitted(items, tokens) == Combine(Report(items, tokens[0]), Unpermitted(items, tokens[1..]))
  {
    var t := tokens[0];
    UnpermittedOne(items, t);
    if Permitted(items, t).Ok? && Unpermitted(items, tokens[1..]).Ok? {
      var rest := Unpermitted(items, tokens[1..]).value;
      if Permitted(items, t).value {
        assert [] + rest == rest;
      }
    }
  }

  lemma {:induction false} UnpermittedConcat(items: seq<SortItem>, a: seq<Token>, b: seq<Token>)
    ensures Unpermitted(items, a + b) == Combine(Unpermitted(items, a), Unpermitted(items, b))
    decreases |a|
  {
    if a == [] {
      assert a + b == b;
      if Unpermitted(items, b).Ok? {
        assert [] + Unpermitted(items, b).value == Unpermitted(items, b).value;
      }
    } else {
      assert (a + b)[0] == a[0];
      assert (a + b)[1..] == a[1..] + b;
      UnpermittedCons(items, a);
      UnpermittedCons(items, a + b);
      UnpermittedConcat(items, a[1..], b);
      CombineAssoc(Report(items, a[0]), Unpermitted(items, a[1..]), Unpermitted(items, b));
    }
  }

  /** Nothing is reported exactly when every token is permitted. */
  lemma {:induction false} UnpermittedEmpty(items: seq<SortItem>, tokens: seq<Token>)
    ensures Unpermitted(items, tokens) == Ok([]) <==>
      forall i :: 0 <= i < |tokens| ==> Permitted(items, tokens[i]) == Ok(true)
    decreases |tokens|
  {
    if tokens != [] {
      UnpermittedEmpty(items, tokens[1..]);
      assert forall i :: 1 <= i < |tokens| ==> tokens[i] == tokens[1..][i - 1];
    }
  }

  /** `ensure_permitted_sort_params!(sort_params)`. */
  function EnsurePermitted(items: seq<SortItem>, sortParams: string): (r: Result<()>)
    ensures var u := Unpermitted(items, Tokens(RubySplit(sortParams, ',')));
      && (r.Ok? <==> u == Ok([]))
      && (u.Err? ==> r == Err(u.error))
      && (u.Ok? && u.value != [] ==> r == Err(UnpermittedSortParameters(Errors.Message(u.value))))
  {
    var unpermitted :- Unpermitted(items, Tokens(RubySplit(sortParams, ',')));
    if |unpermitted| == 0 then Ok(())
    else Err(UnpermittedSortParameters(Errors.Message(unpermitted)))
  }

  /** The models the tokens name, nil ones dropped (`compact`), in token order. */
  function Models(tokens: seq<Token>): (r: seq<string>)
    ensures forall m :: m in r <==> exists i :: 0 <= i < |tokens| && tokens[i].model == Some(m)
    decreases |tokens|
  {
    if tokens == [] then []
    else
      var rest := Models(tokens[1..]);
      assert forall i :: 1 <= i < |tokens| ==> tokens[i] == tokens[1..][i - 1];
      assert forall i :: 0 <= i < |tokens[1..]| ==> tokens[1..][i] == tokens[i + 1];
      match tokens[0].model
      case None => rest
      case Some(m) => [m] + rest
  }

  /** `add_joins_for_nested_attributes`: the distinct models in first-seen order (`uniq`). */
  function Relationships(tokens: seq<Token>): (r: seq<string>)
    ensures Distinct(r)
    ensures forall m :: m in r <==> m in Models(tokens)
  {
    AppendNew([], Models(tokens))
  }

  /** The models joined keep the order in which the tokens first name them. */
  lemma RelationshipsFirstSeen(tokens: seq<Token>, a: nat, b: nat)
    requires a < b < |Relationships(tokens)|
    ensures FirstIndex(Models(tokens), Relationships(tokens)[a]) < FirstIndex(Models(tokens), Relationships(tokens)[b])
  {
    AppendNewKeepsOrder([], Models(tokens), a, b);
  }

  /** `left_joins(*relationships)` when there is at least one, the collection itself otherwise. */
  function AddJoins(c: Collection, sortParams: Option<string>): (r: Collection)
    ensures sortParams.None? || Relationships(Tokens(RubySplit(sortParams.value, ','))) == [] ==> r == c
    ensures sortParams.Some? && Relationships(Tokens(RubySplit(sortParams.value, ','))) != [] ==>
      r == c.Then(LeftJoins(Relationships(Tokens(RubySplit(sortParams.value, ',')))))
  {
    match sortParams
    case None => c
    case Some(s) =>
      var relationships := Relationships(Tokens(RubySplit(s, ',')));
      if relationships == [] then c else c.Then(LeftJoins(relationships))
  }

  /** `formatted_sort_params`: one term per comma field, in field order. */
  function OrderTerms(fields: seq<string>): (r: seq<OrderArg>)
    ensures |r| == |fields|
    ensures forall i :: 0 <= i < |r| ==> r[i] == FormatParam(fields[i])
  {
    seq(|fields|, i requires 0 <= i < |fields| => FormatParam(fields[i]))
  }

  /** `reorder(nil)` adds no order term. */
  function DefaultOrder(defaultSort: Option<OrderArg>): seq<OrderArg> {
    if defaultSort.Some? then [defaultSort.value] else []
  }

  /** `add_order_attributes`: reorder by the default sort when there is no param, by the tokens otherwise. */
  function AddOrder(settings: SortSettings, c: Collection, sortParams: Option<string>): Collection {
    c.Then(Reorder(if sortParams.None? then DefaultOrder(settings.defaultSort) else OrderTerms(RubySplit(sortParams.value, ','))))
  }

  /** `add_unique_order_attributes`: `order` appends the unique attributes after whatever is there. */
  function AddUnique(settings: SortSettings, c: Collection): Collection {
    c.Then(Order(settings.uniqueSortAttributes))
  }

  /**
   * `sort(collection, sort_params)`: the permission check (skipped for a nil param), then
   * the joins, the reorder and the unique order, in that order.
   */
  function Sort(settings: SortSettings, c: Collection, sortParams: Option<string>): (r: Result<Collection>)
    ensures r.Err? <==> sortParams.Some? && EnsurePermitted(settings.sortAttributes, sortParams.value).Err?
    ensures r.Ok? ==> r.value.source == c.source
  {
    var _ :- if sortParams.Some? then EnsurePermitted(settings.sortAttributes, sortParams.value) else Ok(());
    Ok(AddUnique(settings, AddOrder(settings, AddJoins(c, sortParams), sortParams)))
  }

  /**
   * A successful sort adds at most one join, then exactly one reorder, and ends with the
   * unique order, whatever the tokens and the registry.
   */
  lemma {:induction false} SortShape(settings: SortSettings, c: Collection, sortParams: Option<string>)
    requires Sort(settings, c, sortParams).Ok?
    ensures var ops := Sort(settings, c, sortParams).value.ops;
      && |c.ops| + 2 <= |ops| <= |c.ops| + 3
      && ops[..|c.ops|] == c.ops
      && ops[|ops| - 1] == Order(settings.uniqueSortAttributes)
      && ops[|ops| - 2].Reorder?
      && (|ops| == |c.ops| + 3 ==> ops[|c.ops|].LeftJoins?)
  {
    var joined := AddJoins(c, sortParams);
    AddJoinsShape(c, sortParams);
    var terms := if sortParams.None? then DefaultOrder(settings.defaultSort) else OrderTerms(RubySplit(sortParams.value, ','));
    assert Sort(settings, c, sortParams).value.ops == joined.ops + [Reorder(terms)] + [Order(settings.uniqueSortAttributes)];
    TailShape(c.ops, joined.ops, terms, settings.uniqueSortAttributes);
  }

  /** `add_joins` adds at most one call, a `left_joins`. */
  lemma AddJoinsShape(c: Collection, sortParams: Option<string>)
    ensures var j := AddJoins(c, sortParams).ops;
      j == c.ops || (|j| == |c.ops| + 1 && j[..|c.ops|] == c.ops && j[|c.ops|].LeftJoins?)
  {
    var j := AddJoins(c, sortParams).ops;
    if j != c.ops {
      assert j[..|c.ops|] == c.ops;
    }
  }

  lemma TailShape(before: seq<Op>, joined: seq<Op>, terms: seq<OrderArg>, unique: seq<OrderArg>)
    requires joined == before || (|joined| == |before| + 1 && joined[..|before|] == before && joined[|before|].LeftJoins?)
    ensures var ops := joined + [Reorder(terms)] + [Order(unique)];
      && |before| + 2 <= |ops| <= |before| + 3
      && ops[..|before|] == before
      && ops[|ops| - 1] == Order(unique)
      && ops[|ops| - 2].Reorder?
      && (|ops| == |before| + 3 ==> ops[|before|].LeftJoins?)
  {
    var ops := joined + [Reorder(terms)] + [Order(unique)];
    assert ops[..|joined|] == joined;
    assert ops[..|before|] == joined[..|before|];
  }

  /** Without a sort param nothing is checked or joined: reorder by the default sort, then the unique order. */
  lemma SortWithoutParam(settings: SortSettings, c: Collection)
    ensures Sort(settings, c, None) == Ok(c.Then(Reorder(DefaultOrder(settings.defaultSort))).Then(Order(settings.uniqueSortAttributes)))
  {
  }

  /**
   * With a sort param that passes the check, the reorder holds one term per token, in token
   * order, descending exactly for the tokens that start with `-`.
   */
  lemma SortReordersByTokens(settings: SortSettings, c: Collection, s: string)
    requires Sort(settings, c, Some(s)).Ok?
    ensures var ops := Sort(settings, c, Some(s)).value.ops;
      var fields := RubySplit(s, ',');
      ops[|ops| - 2] == Reorder(OrderTerms(fields))
      && forall i :: 0 <= i < |fields| ==> (ops[|ops| - 2].args[i].direction == Desc <==> StartsWith(Strip(fields[i]), "-"))
  {
  }

  /** A rejected sort param raises the message naming every unpermitted token. */
  lemma SortRejects(settings: SortSettings, c: Collection, s: string)
    requires Unpermitted(settings.sortAttributes, Tokens(RubySplit(s, ','))).Ok?
    requires Unpermitted(settings.sortAttributes, Tokens(RubySplit(s, ','))).value != []
    ensures Sort(settings, c, Some(s)) ==
      Err(UnpermittedSortParameters(Errors.Message(Unpermitted(settings.sortAttributes, Tokens(RubySplit(s, ','))).value)))
  {
  }
}
