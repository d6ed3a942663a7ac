# JSON:API query builder — a Dafny model

This project models the core of `jsonapi-query_builder`, a Ruby library. The library turns
the `sort`, `include`, `filter` and `page` strings of a JSON:API request into calls on an
ActiveRecord relation. The relation is modelled abstractly: a `Collection` is its source plus
the log of calls made on it (`where`, `order`, `reorder`, `left_joins`, `limit`, `includes`).
"Which calls happen, in what order, with which arguments" then becomes a postcondition.

Modules, one per source file (`Wrappers`, `Text` and `Relation` hold shared definitions):

- `SortParam`: one `sort` token, with an optional leading `-` for descending.
- `SortStatic` and `SortDynamic`: sort strategies, either callables or classes.
- `SortMixin`:
  - the class-level sort registry, which is the `SortDeclarations` class;
  - the `model.attribute` token parser;
  - the permission check;
  - the `sort` pipeline: joins, then reorder, then the unique tie-breaker.
- `Errors`: the English message of `UnpermittedSortParameters`.
- `IncludeParam`: the include tree.
  - Parsing `a.b.c` into a chain.
  - Merging siblings that share a relationship, as functions and as the source's loops.
  - Serialising back to `includes` arguments.
- `IncludeMixin`: the flat formatter behind `add_includes`.
- `Filter`: models `Mixins::Filter` and its copy `Mixins::Filtering`.
  - The registry is the `FilterDeclarations` class.
  - `serialize_filter`, `check_condition`, and the `filter` fold. The fold writes each entry's options back.
- `Keyset`: the keyset paginator.
- `Paginate`: the paginator declaration, the default page parameters, and `paginate`, which stores the details.

Ruby strings and symbols are both `string`. Ruby's `String#split`, `strip`, `presence`,
`to_i`, `to_sentence` and `pluralize` are written out in `Text`, `Keyset` and `Errors`. A
method that raises returns `Err(NoMethodError(receiver, method))` or
`Err(UnpermittedSortParameters(message))`.

Some behaviours of the code are worth stating outright. Where the library's own test files expect something else, the model follows the code:

- `ensure_permitted_sort_params!` reports the unpermitted sort names with repeats: there is no `uniq`.
- A nil sort parameter reorders by `_default_sort` exactly as declared. It is not dispatched through a sort strategy. `reorder(nil)` adds no term.
- `add_includes` passes one array of formatted fields to a single `includes` call, even for an empty parameter, and never merges fields (lib/jsonapi/query_builder/mixins/include.rb:7-9 and 17-24). spec/jsonapi/query_builder/mixins/include_spec.rb:37-80 expects splatted, merged arguments and no call for an empty parameter.
- `Param#serialize` gives one hash per child, and `deserialize_params` keeps relationships in first-seen order (lib/jsonapi/query_builder/mixins/include/param.rb:13-19 and 42-48). spec/jsonapi/query_builder/mixins/include/param_spec.rb:84 and 110-113 expect sibling hashes merged into one, with `:comments` listed first.

## Model

| member | source | states |
|---|---|---|
| SortParam.New | lib/jsonapi/query_builder/mixins/sort/param.rb:16-24 | The token is stripped. `descending` is `"-"` exactly when the stripped token starts with `-`, and nil otherwise. The attribute never holds a line break. |
| SortParam.DeserializeParams | lib/jsonapi/query_builder/mixins/sort/param.rb:9-11 | nil gives no params. Otherwise there is one param per `split(",")` field, in field order. |
| SortParam.DirectionOfNew | lib/jsonapi/query_builder/mixins/sort/param.rb:30-32 | The direction is `:desc` exactly when the stripped token starts with `-`. |
| SortParam.SerializeNew | lib/jsonapi/query_builder/mixins/sort/param.rb:26-28 | `serialize(new(t))` equals `t.strip` exactly when the stripped token has no line break. |
| SortParam.OnlyOneDashConsumed | lib/jsonapi/query_builder/mixins/sort/param.rb:21 | `--a` parses to the attribute `-a`, descending. |
| SortParam.PaddingIgnored | lib/jsonapi/query_builder/mixins/sort/param.rb:21 | White space around a token never reaches the param. |
| SortParam.DeserializeParamsRoundTrip | lib/jsonapi/query_builder/mixins/sort/param.rb:9-11 | A sort string of clean fields is rebuilt exactly by serialising its params and joining them with commas. |
| SortStatic.New | lib/jsonapi/query_builder/mixins/sort/static.rb:10-13 | The attribute and strategy are stored as given. Without a strategy, the default appends `order(attribute => direction)`. |
| SortStatic.DefaultResults | lib/jsonapi/query_builder/mixins/sort/static.rb:12 | Without a strategy, `results` appends exactly one `order(attribute => direction)`. |
| SortStatic.ResultsDispatch | lib/jsonapi/query_builder/mixins/sort/static.rb:15-21 | A callable is called with `(collection, direction)`. A class is built from `(collection, direction)` and its `results` returned. |
| SortStatic.ResultsUseOnlyDirection | lib/jsonapi/query_builder/mixins/sort/static.rb:15-21 | `results` depends on the param's direction only. |
| SortDynamic.New | lib/jsonapi/query_builder/mixins/sort/dynamic.rb:10-13 | The prefix and the strategy are stored as given. |
| SortDynamic.MatchesExactlyExtensions | lib/jsonapi/query_builder/mixins/sort/dynamic.rb:15-17 | `matches?` holds exactly for the attributes that extend the prefix. The empty prefix matches everything. |
| SortDynamic.MatchedAttributeIsSuffix | lib/jsonapi/query_builder/mixins/sort/dynamic.rb:20 | On a match, the attribute passed on is the suffix after the prefix. |
| SortDynamic.UnmatchedAttribute | lib/jsonapi/query_builder/mixins/sort/dynamic.rb:20 | `sub` removes the first occurrence of the prefix wherever it is. Without an occurrence, the attribute is unchanged. |
| SortDynamic.ResultsDispatch | lib/jsonapi/query_builder/mixins/sort/dynamic.rb:19-26 | The strategy receives `(collection, suffix, direction)`, either as a call or as a new instance's `results`. |
| SortMixin.RegisterSorts | lib/jsonapi/query_builder/mixins/sort.rb:31-34 | The registry ends with one hash. That hash's keys are the old and new models. A model given again has its list replaced, and other models keep theirs. |
| SortMixin.RegisterSortsAppends | lib/jsonapi/query_builder/mixins/sort.rb:33 | The plain attributes are the old ones followed by the new ones. |
| SortMixin.AttributeInRegistry | lib/jsonapi/query_builder/mixins/sort.rb:58-59 | `include?` on the registry finds exactly the plain attributes. |
| SortMixin.SortDeclarations.constructor | lib/jsonapi/query_builder/mixins/sort.rb:18-20 | A new query class has an empty registry and no unique or default sort. |
| SortMixin.SortDeclarations.UniqueSortAttributes | lib/jsonapi/query_builder/mixins/sort.rb:14-16 | The declared list, or `[id: :asc]` until one is declared. |
| SortMixin.SortDeclarations.SetUniqueSortAttributes | lib/jsonapi/query_builder/mixins/sort.rb:22-24 | Replaces the whole list and nothing else. |
| SortMixin.SortDeclarations.SetDefaultSort | lib/jsonapi/query_builder/mixins/sort.rb:27-29 | Stores the default sort and nothing else. |
| SortMixin.SortDeclarations.SortsBy | lib/jsonapi/query_builder/mixins/sort.rb:31-34 | The registry becomes `RegisterSorts` of the old one, and the plain attributes grow by the new ones. Well-formedness is kept: only the last entry is a hash. |
| SortMixin.SortDeclarations.Configuration | lib/jsonapi/query_builder/mixins/sort.rb:12-20 | `sort` sees the registry, the default sort, and the unique attributes with their `[id: :asc]` fallback. |
| SortMixin.SplitModel | lib/jsonapi/query_builder/mixins/sort.rb:97 | There is no model exactly when there is no dot. The attribute has no dot and no line break. |
| SortMixin.SplitModelAtLastDot | lib/jsonapi/query_builder/mixins/sort.rb:97 | The model is the segment before the last dot. The attribute is what follows it, up to the first line break. |
| SortMixin.DeserializeParam | lib/jsonapi/query_builder/mixins/sort.rb:96-100 | `desc` is `"-"` exactly for a stripped token starting with `-`. `model` is nil exactly when the token has no dot. |
| SortMixin.SerializeDeserializeParam | lib/jsonapi/query_builder/mixins/sort.rb:96-106 | `serialize_param` rebuilds a stripped token with at most one dot and no line break. |
| SortMixin.FormatParam | lib/jsonapi/query_builder/mixins/sort.rb:108-114 | Descending exactly for `-` tokens. It is a model column exactly when the model is present, and an SQL fragment of the attribute otherwise. |
| SortMixin.Permitted | lib/jsonapi/query_builder/mixins/sort.rb:57-60 | A plain token needs its attribute among the plain attributes. A model token needs it in that model's list in the trailing hash. A model token raises when the registry is empty or does not end with a hash. |
| SortMixin.UnpermittedOne | lib/jsonapi/query_builder/mixins/sort.rb:57-61 | A token is reported as `model.attribute`, without `-`, exactly when it is not permitted. |
| SortMixin.UnpermittedAppend | lib/jsonapi/query_builder/mixins/sort.rb:53-61 | Reports concatenate in token order, with no removal of repeats, and the first raise wins. |
| SortMixin.UnpermittedEmpty | lib/jsonapi/query_builder/mixins/sort.rb:63 | Nothing is reported exactly when every token is permitted. |
| SortMixin.EnsurePermitted | lib/jsonapi/query_builder/mixins/sort.rb:52-70 | Passes exactly when nothing is reported. Otherwise it raises with the message listing every reported name. |
| SortMixin.Relationships | lib/jsonapi/query_builder/mixins/sort.rb:73-79 | The joined models are distinct, and are exactly the models the tokens name. |
| SortMixin.RelationshipsFirstSeen | lib/jsonapi/query_builder/mixins/sort.rb:78 | Joined models keep the order in which tokens first name them. |
| SortMixin.AddJoins | lib/jsonapi/query_builder/mixins/sort.rb:72-82 | One `left_joins` with those models when there is at least one. Otherwise the collection is unchanged. |
| SortMixin.OrderTerms | lib/jsonapi/query_builder/mixins/sort.rb:92-94 | One order term per field, in field order. |
| SortMixin.Sort | lib/jsonapi/query_builder/mixins/sort.rb:37-44 | Raises exactly when a sort param is given and fails the check. The relation's source is kept. |
| SortMixin.SortShape | lib/jsonapi/query_builder/mixins/sort.rb:37-44 | The earlier calls are kept. Then come at most one join, exactly one reorder, and finally the unique `order`. |
| SortMixin.SortWithoutParam | lib/jsonapi/query_builder/mixins/sort.rb:37-44 | Without a param: no check and no join; reorder by the default sort, then the unique order. |
| SortMixin.SortReordersByTokens | lib/jsonapi/query_builder/mixins/sort.rb:84-94 | The reorder holds one term per token, in order. A term is descending exactly for tokens starting with `-`. |
| SortMixin.SortRejects | lib/jsonapi/query_builder/mixins/sort.rb:63-69 | A rejected param raises the message built from the unpermitted names. |
| Errors.ToSentenceSpelled | lib/jsonapi/query_builder/errors/unpermitted_sort_parameters.rb:9 | `to_sentence` writes each name in input order. Connectors are `" and "` for two names, `", "` then `", and "` for three or more. |
| Errors.Message | lib/jsonapi/query_builder/errors/unpermitted_sort_parameters.rb:7-13 | The message begins with the sentence of names. |
| Errors.MessageNumber | lib/jsonapi/query_builder/errors/unpermitted_sort_parameters.rb:10-11 | One name: `… is not a permitted sort attribute`. Otherwise: `… are not permitted sort attributes`. It ends in `s` exactly when the count is not one. |
| Errors.MessageLists | lib/jsonapi/query_builder/errors/unpermitted_sort_parameters.rb:8-9 | The names appear in the message in input order. |
| IncludeParam.New | lib/jsonapi/query_builder/mixins/include/param.rb:52-60 | A token that is empty once stripped raises. A node has at most one child. A token with no dot gives a leaf holding the stripped token. |
| IncludeParam.NewFailsExactly | lib/jsonapi/query_builder/mixins/include/param.rb:52-60 | A token raises exactly when it is empty once stripped, or ends in `.` once stripped. Every other token parses. |
| IncludeParam.NewSplitsAtFirstDot | lib/jsonapi/query_builder/mixins/include/param.rb:53-58 | The relationship is the text before the first dot. The rest is the only child. |
| IncludeParam.NewIsChain | lib/jsonapi/query_builder/mixins/include/param.rb:53-58 | A token with k dots parses to a chain of k+1 nodes. |
| IncludeParam.NewWellFormed | lib/jsonapi/query_builder/mixins/include/param.rb:52-60 | A parsed token has no repeated siblings. |
| IncludeParam.Find | lib/jsonapi/query_builder/mixins/include/param.rb:32 | `find` gives the first child with that relationship, or nothing exactly when none has it. |
| IncludeParam.MergeChildren | lib/jsonapi/query_builder/mixins/include/param.rb:30-40 | The merged node keeps the receiver's relationship. |
| IncludeParam.AddChild | lib/jsonapi/query_builder/mixins/include/param.rb:32-36 | The relationship is appended only if not yet present. |
| IncludeParam.AddChildCases | lib/jsonapi/query_builder/mixins/include/param.rb:32-36 | A new relationship appends the child. A known one merges it recursively into the existing child, in place. |
| IncludeParam.MergeIntoRelationships | lib/jsonapi/query_builder/mixins/include/param.rb:31-37 | The relationships are the receiver's, in order, then the new incoming ones in first-seen order. |
| IncludeParam.MergeIntoKeepsOthers | lib/jsonapi/query_builder/mixins/include/param.rb:31-37 | Children that the other node does not mention are unchanged and stay in place. |
| IncludeParam.MergeIntoAppendsIncoming | lib/jsonapi/query_builder/mixins/include/param.rb:35 | Every appended child is one of the incoming children, unchanged. |
| IncludeParam.MergeChildrenWellFormed | lib/jsonapi/query_builder/mixins/include/param.rb:30-40 | Merging well-formed trees never creates a repeated sibling, at any depth. |
| IncludeParam.MergeChildrenInPlace | lib/jsonapi/query_builder/mixins/include/param.rb:30-40 | The source's find-or-append loop, with its recursive merge, computes `MergeChildren`. |
| IncludeParam.Collect | lib/jsonapi/query_builder/mixins/include/param.rb:12 | `map(&method(:new))` gives all params when every field parses. Otherwise the error of a failing field. |
| IncludeParam.DeserializeParams | lib/jsonapi/query_builder/mixins/include/param.rb:9-20 | nil gives no params. |
| IncludeParam.DeserializeParamsDistinct | lib/jsonapi/query_builder/mixins/include/param.rb:9-20 | One node per distinct top-level relationship, in first-seen order. No repeated sibling anywhere. |
| IncludeParam.DeserializeParamsInPlace | lib/jsonapi/query_builder/mixins/include/param.rb:9-20 | The source's map followed by its `each_with_object` loop computes `DeserializeParams`. |
| IncludeParam.MergeParams | lib/jsonapi/query_builder/mixins/include/param.rb:13-19 | The memo loop merges each param into an earlier one with its relationship, or appends it. |
| IncludeParam.CollectFirstErr | lib/jsonapi/query_builder/mixins/include/param.rb:12 | The first field that raises decides the error. |
| IncludeParam.DeserializeSerialize | lib/jsonapi/query_builder/mixins/include/param.rb:42-48 | `serialize` loses nothing: the tree is read back from its output. |
| IncludeParam.SerializeChain | lib/jsonapi/query_builder/mixins/include/param.rb:42-48 | A leaf gives the bare relationship. One child gives `{relationship => child}`. |
| IncludeMixin.FormatRelationship | lib/jsonapi/query_builder/mixins/include.rb:26-32 | A relationship without a dot gives its symbol. Otherwise the result is a one-pair hash. |
| IncludeMixin.FormatRelationshipSegments | lib/jsonapi/query_builder/mixins/include.rb:26-32 | It succeeds exactly when the text is non-empty and does not end with a dot. The chain's keys are the dot-separated segments, unstripped, and joining them gives the text back. |
| IncludeMixin.FormatAll | lib/jsonapi/query_builder/mixins/include.rb:23 | Succeeds exactly when every token formats. One entry per token, in order. |
| IncludeMixin.FormattedIncludeParams | lib/jsonapi/query_builder/mixins/include.rb:17-24 | nil gives `[]`. Otherwise there is one entry per comma field, in field order. Entry i is the format of field i stripped at its ends only. It raises exactly when some stripped field does not format. |
| IncludeMixin.AddIncludes | lib/jsonapi/query_builder/mixins/include.rb:7-9 | Exactly one `includes` call, with the formatted list. |
| IncludeMixin.AddIncludesWithoutParam | lib/jsonapi/query_builder/mixins/include.rb:7-18 | With no include parameter, `includes([])` is still called once. |
| IncludeMixin.NoMerging | lib/jsonapi/query_builder/mixins/include.rb:20-23 | `a.b,a.c` gives two entries, `{a: :b}` then `{a: :c}`, with no merging. |
| IncludeMixin.AgreesWithIncludeTree | lib/jsonapi/query_builder/mixins/include.rb:26-32 | On a token without white space, this formatter and the include tree succeed together and give the same `includes` argument. |
| Filter.DefaultFilterWhere | lib/jsonapi/query_builder/mixins/filter.rb:44 | The default strategy adds one `where(attribute => query)`, nil included. |
| Filter.RegisterAppends | lib/jsonapi/query_builder/mixins/filter.rb:45 | A new attribute is appended after all existing ones. |
| Filter.RegisterReplaces | lib/jsonapi/query_builder/mixins/filter.rb:45 | A known attribute has its entry replaced where it stands. Every other entry is untouched. |
| Filter.RegisterKeepsKeysDistinct | lib/jsonapi/query_builder/mixins/filtering.rb:16 | Each attribute keeps a single entry. |
| Filter.FilterDeclarations.constructor | lib/jsonapi/query_builder/mixins/filter.rb:10-12 | No filters are registered before the first `filters_by`. |
| Filter.FilterDeclarations.FiltersBy | lib/jsonapi/query_builder/mixins/filter.rb:43-46 | The registry becomes `Register` of the old one, with the default `where` strategy when none is given. Attributes stay distinct. |
| Filter.DefaultCondition | lib/jsonapi/query_builder/mixins/filter.rb:84 | Yields `true` exactly when the query is present, or `allow_nil` is truthy and the key exists. |
| Filter.Explicit | lib/jsonapi/query_builder/mixins/filter.rb:83 | `options.slice(:if, :unless)`: empty exactly when neither is given. A given `if` comes first and a given `unless` last. |
| Filter.WriteOptions | lib/jsonapi/query_builder/mixins/filter.rb:81-84 | Writes `query_parameter`, defaulting to the attribute, and the query, where blank or missing values give nil. The conditions are the given `if` and `unless`, `if` first. With neither, they are one `if` holding the default condition. |
| Filter.SerializeFilter | lib/jsonapi/query_builder/mixins/filter.rb:78-89 | Returns the written options and the callable itself. A class is instantiated with `(collection, query)` before any condition is checked. |
| Filter.RewriteHarmless | lib/jsonapi/query_builder/mixins/filtering.rb:41-44 | Writing into the stored options never changes what a later call writes. |
| Filter.ConditionValue | lib/jsonapi/query_builder/mixins/filter.rb:92-99 | Raises exactly for a method name that the filter does not answer. That includes every method name on a callable. |
| Filter.CheckConditionStrict | lib/jsonapi/query_builder/mixins/filter.rb:91-100 | `if` passes only on `true` and `unless` only on `false`. nil and other values fail both. |
| Filter.AllConditions | lib/jsonapi/query_builder/mixins/filter.rb:64-66 | `all?` holds exactly when every condition checks true. |
| Filter.StepDefaultCondition | lib/jsonapi/query_builder/mixins/filter.rb:64-84 | Without `if`/`unless`, a filter applies exactly when the query is present, or `allow_nil` is set and the key is there. The strategy then receives nil. Otherwise the collection passes through. |
| Filter.StepExplicitConditions | lib/jsonapi/query_builder/mixins/filtering.rb:24-44 | Explicit conditions replace the default: `allow_nil` no longer matters. When they all pass, the strategy applies. |
| Filter.SymbolConditionOnCallable | lib/jsonapi/query_builder/mixins/filter.rb:64-96 | A method-name condition on a callable strategy raises `NoMethodError` once it is reached. An `if` always is. An `unless` is when there is no `if` or the `if` passed. |
| Filter.IfCheckedBeforeUnless | lib/jsonapi/query_builder/mixins/filter.rb:64-83 | An `if` that does not pass skips the filter without evaluating the `unless`, even one that would raise. |
| Filter.FoldFilters | lib/jsonapi/query_builder/mixins/filter.rb:60-61 | With no filters, the collection comes back. |
| Filter.FoldFiltersConcat | lib/jsonapi/query_builder/mixins/filtering.rb:20-30 | The fold composes: filtering by `fs + gs` is filtering by `fs`, then by `gs`. A raise stops it. |
| Filter.FoldErrorStops | lib/jsonapi/query_builder/mixins/filter.rb:61-69 | Once a step raises, that error is the result. |
| Filter.FoldAfterRewrite | lib/jsonapi/query_builder/mixins/filter.rb:78-84 | After earlier calls wrote into any of the stored options, a later fold gives the same result. |
| Filter.FilterDeclarations.Filter | lib/jsonapi/query_builder/mixins/filter.rb:60-70 | The loop computes the fold over the registry in order. Each visited entry's options are written back, and all of them are on success. The attributes are unchanged. |
| Filter.FilterParams | lib/jsonapi/query_builder/mixins/filter.rb:74-76 | `params[:filter]`, or `{}`. |
| Keyset.ExtractPaginationParams | lib/jsonapi/query_builder/paginator/keyset.rb:21-28 | Column and position default to nil, direction to `:after`, limit to 25. A present key wins, even when its value is nil. |
| Keyset.ToSym | lib/jsonapi/query_builder/paginator/keyset.rb:47 | `to_sym` succeeds exactly on strings and symbols. |
| Keyset.ToInteger | lib/jsonapi/query_builder/paginator/keyset.rb:39 | `to_i`: an integer is itself and nil is 0. It raises exactly on booleans. |
| Keyset.IntegerToSToI | lib/jsonapi/query_builder/paginator/keyset.rb:39 | A limit given as the decimal string of an integer reads as that integer. |
| Keyset.ApplyOrder | lib/jsonapi/query_builder/paginator/keyset.rb:46-52 | Reorders by the column, ascending for `:after` and descending otherwise. A direction that is not a string raises. |
| Keyset.ApplyFilter | lib/jsonapi/query_builder/paginator/keyset.rb:54-60 | A strict `>` for `:after`, and a strict `<` otherwise. |
| Keyset.ApplyPagination | lib/jsonapi/query_builder/paginator/keyset.rb:30-36 | Without a column, the collection is returned unchanged. |
| Keyset.PaginationWithColumn | lib/jsonapi/query_builder/paginator/keyset.rb:36-43 | With a column: reorder, then `limit(limit.to_i)`, then, with a position, the strict cut. It raises exactly for a non-string direction or a boolean limit. |
| Keyset.CutAgreesWithOrder | lib/jsonapi/query_builder/paginator/keyset.rb:46-60 | Ascending pages cut with `>`, and descending pages with `<`. |
| Keyset.Paginate | lib/jsonapi/query_builder/paginator/keyset.rb:12-17 | The details are the defaulted parameters, and the records are the paginated collection. |
| Keyset.PaginateWithoutParams | lib/jsonapi/query_builder/paginator/keyset.rb:9-10 | With no parameters, the collection is untouched, and the details are nil, nil, `after`, 25. |
| Keyset.PaginateByColumnOnly | lib/jsonapi/query_builder/paginator/keyset.rb:36-39 | `{column: :id}` gives `id ASC` with the default limit 25. |
| Keyset.PaginateBefore | lib/jsonapi/query_builder/paginator/keyset.rb:46-60 | `{column: :id, limit: 10, position: 5, direction: :before}` gives `id DESC`, limit 10, and `id < 5`. |
| Paginate.Run | lib/jsonapi/query_builder/mixins/paginate.rb:30 | The keyset paginator gives its records and its parameter record as details. Other paginators are given. |
| Paginate.DefaultPageParams | lib/jsonapi/query_builder/mixins/paginate.rb:37-39 | Every requested key passes through unchanged. The number is 1 unless one was requested. |
| Paginate.PaginateDeclarations.constructor | lib/jsonapi/query_builder/mixins/paginate.rb:17-19 | No paginator is declared at first. |
| Paginate.PaginateDeclarations.SetPaginator | lib/jsonapi/query_builder/mixins/paginate.rb:13-15 | The last declaration wins. |
| Paginate.PaginateDeclarations.CurrentPaginator | lib/jsonapi/query_builder/mixins/paginate.rb:17-19 | The declared paginator, or Pagy. |
| Paginate.PaginatedQuery.Paginate | lib/jsonapi/query_builder/mixins/paginate.rb:29-33 | Explicit page params are passed as given. Otherwise the defaults are used. Returns the records and stores the details. A raise leaves the details unchanged. |
| Paginate.KeysetWithDefaultParams | lib/jsonapi/query_builder/mixins/paginate.rb:37-39 | With the keyset paginator and no page parameters, the collection is untouched and the details are the keyset defaults. |

## Left out

- The Pagy and Kaminari paginators: all their paging arithmetic comes from the gems. `Paginate.Run` takes them as a given function.
- ActiveRecord and Arel are not modelled. Order, where, join and include terms are opaque values, and no SQL is generated. `classify.constantize` (a `NameError` for an unknown model) is not modelled.
- Identity and aliasing in the include tree are not modelled: `merge_children` returning `self`, and one child object shared by two trees. Trees are values, and in-place updates are modelled as loops that return the new value.
- Request parameters that are neither strings nor nil (nested hashes, arrays, numbers in `filter`) are not modelled. In `Keyset`, values are nil, strings, integers or booleans. Floats are not modelled.
- Filter.ConditionValue: a method-name condition on a callable always raises. The model ignores the few names a Proc does answer, such as `lambda?`.
- SortMixin.SortItem: the values of `sorts_by`'s keyword arguments are modelled as lists of attribute names only. A single name (whose `include?` is a substring test, or raises for a symbol) and a nested hash (which `deep_merge` merges key by key) are not modelled.
- Filter.WriteOptions: a `query_parameter` that does not answer `to_sym` is not modelled, because option names are strings here.
- User-supplied strategies, procs and classes are modelled as total functions that do not raise.
- The `sort_params`, `include_params` and `page_params` readers of `params` are modelled as parameters.
- Concurrency is not modelled: class-level registries are shared across requests.
- The abstract bases `BaseFilter`, `BaseSort`, `DynamicSort` and `BasePaginator` are not modelled on their own. They appear only as the class variant of each strategy type.
