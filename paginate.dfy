/**
 * `Mixins::Paginate`: a class-level choice of paginator (Pagy unless declared) and an
 * instance method that pages a collection, returns the records and keeps the details.
 */
module Paginate {
  import opened Wrappers
  import opened Relation
  import Keyset

  type PageParams = Keyset.PageParams

  /** The paginator classes a query can declare. */
  datatype Paginator = Pagy | PagyCountless | Kaminari | KeysetPaginator | CustomPaginator(name: string)

  /** The details a paginator reports: the keyset record, or what a gem-backed paginator builds. */
  datatype Details = KeysetDetails(params: Keyset.KeysetParams) | ExternalDetails(description: string)

  /** The paginators backed by the Pagy and Kaminari gems, or declared by the application. */
  type External = (Paginator, Collection, PageParams) -> Result<(Collection, Details)>

  /** `_paginator.new(collection).paginate(page_params)`: the keyset paginator is modelled, the others are given. */
  function Run(p: Paginator, collection: Collection, pageParams: PageParams, external: External): (r: Result<(Collection, Details)>)
    ensures p.KeysetPaginator? ==>
      (r.Ok? <==> Keyset.Paginate(collection, pageParams).Ok?)
      && (r.Ok? ==> r.value == (Keyset.Paginate(collection, pageParams).value.0, KeysetDetails(Keyset.ExtractPaginationParams(pageParams))))
    ensures !p.KeysetPaginator? ==> r == external(p, collection, pageParams)
  {
    if p.KeysetPaginator? then
      var page :- Keyset.Paginate(collection, pageParams);
      Ok((page.0, KeysetDetails(page.1)))
    else external(p, collection, pageParams)
  }

  /**
   * `page_params`: `{number: 1, **params.fetch(:page, {})}`. The requested keys all pass
   * through unchanged, a requested number wins, and the number is 1 otherwise.
   */
  function DefaultPageParams(page: Option<PageParams>): (r: PageParams)
    ensures r.Keys == {"number"} + (if page.Some? then page.value.Keys else {})
    ensures page.Some? ==> forall k :: k in page.value ==> r[k] == page.value[k]
    ensures page.None? || "number" !in page.value ==> r["number"] == Int(1)
  {
    map["number" := Int(1)] + page.GetOr(map[])
  }

  /** A query class's paginator declaration: `@paginator`. */
  class PaginateDeclarations {
    var paginator: Option<Paginator>

    /** No `paginator` call yet. */
    constructor ()
      ensures paginator == None
    {
      paginator := None;
    }

    /** `paginator(paginator)`: the last call wins. */
    method SetPaginator(p: Paginator)
      modifies this
      ensures paginator == Some(p)
    {
      paginator := Some(p);
    }

    /** `_paginator`: the declared paginator, or Pagy. */
    function CurrentPaginator(): (p: Paginator)
      reads this
      ensures paginator.None? ==> p == Pagy
      ensures paginator.Some? ==> p == paginator.value
    {
      paginator.GetOr(Pagy)
    }
  }

  /** A query instance: its `params[:page]` and the `pagination_details` it keeps. */
  class PaginatedQuery {
    const page: Option<PageParams>
    var paginationDetails: Option<Details>

    constructor (page: Option<PageParams>)
      ensures this.page == page && paginationDetails == None
    {
      this.page := page;
      paginationDetails := None;
    }

    /**
     * `paginate(collection, page_params = page_params)`: explicit page parameters are passed
     * as given, with no number added; the records are returned and the details stored. A
     * paginator that raises leaves the details as they were.
     */
    method Paginate(declarations: PaginateDeclarations, collection: Collection, pageParams: Option<PageParams>, external: External)
      returns (r: Result<Collection>)
      modifies this
      ensures var used := if pageParams.Some? then pageParams.value else DefaultPageParams(page);
        var run := Run(declarations.CurrentPaginator(), collection, used, external);
        (run.Ok? ==> r == Ok(run.value.0) && paginationDetails == Some(run.value.1))
        && (run.Err? ==> r == Err(run.error) && paginationDetails == old(paginationDetails))
    {
      var used := if pageParams.Some? then pageParams.value else DefaultPageParams(page);
      var run := Run(declarations.CurrentPaginator(), collection, used, external);
      if run.Err? {
        return Err(run.error);
      }
      paginationDetails := Some(run.value.1);
      return Ok(run.value.0);
    }
  }

  /**
   * With the keyset paginator and no page parameters in the request, the defaults carry
   * number 1, which the keyset paginator ignores: the collection comes back untouched and
   * the details are the keyset defaults.
   */
  lemma KeysetWithDefaultParams(collection: Collection, external: External)
    ensures Run(KeysetPaginator, collection, DefaultPageParams(None), external)
      == Ok((collection, KeysetDetails(Keyset.KeysetParams(Nil, Nil, Str("after"), Int(25)))))
  {
    var params := DefaultPageParams(None);
    assert params == map["number" := Int(1)];
    assert Keyset.ExtractPaginationParams(params) == Keyset.KeysetParams(Nil, Nil, Str("after"), Int(25));
  }
}
