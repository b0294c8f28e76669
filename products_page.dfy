/**
 * The products page: the query descriptor it builds from the URL and the
 * filters store, and the rows it hands the table.
 */
module ProductsPage {
  import opened Wrappers
  import opened Types
  import opened QueryParams
  import FiltersStore
  import ProductColumns

  /** `ProductsQueryParams`: every field is a string, `""` when unset. */
  datatype ProductsQueryParams = ProductsQueryParams(
    search: string, page: string, sortBy: string, sortDir: string, filters: string)

  /** `searchParams.get(k) || ""`. */
  function ParamOrEmpty(p: Params, k: string): (v: string)
    ensures v != "" <==> k in p && p[k] != ""
    ensures v != "" ==> v == p[k]
  {
    Get(p, k).GetOr("")
  }

  /** The `queryParams` literal of the page. */
  function BuildQueryParams(searchParams: Params, store: FiltersStore.FiltersState): (q: ProductsQueryParams)
    reads store
    ensures q.filters == store.GetFormattedFilters()
    ensures q.filters == "" <==> !store.FiltersExist()
    ensures q.search == ParamOrEmpty(searchParams, "search") && q.page == ParamOrEmpty(searchParams, PageKey)
    ensures q.sortBy == ParamOrEmpty(searchParams, "sort_by") && q.sortDir == ParamOrEmpty(searchParams, "sort_dir")
  {
    ProductsQueryParams(
      ParamOrEmpty(searchParams, "search"),
      ParamOrEmpty(searchParams, PageKey),
      ParamOrEmpty(searchParams, "sort_by"),
      ParamOrEmpty(searchParams, "sort_dir"),
      store.GetFormattedFilters())
  }

  const DescriptorKeys: seq<string> := ["search", "page", "sort_by", "sort_dir", "filters"]

  /** `Object.entries(queryParams)`: the five keys, in the literal's order. */
  function Entries(q: ProductsQueryParams): (es: seq<(string, string)>)
    ensures |es| == |DescriptorKeys|
    ensures forall i :: 0 <= i < |es| ==> es[i].0 == DescriptorKeys[i]
  {
    [("search", q.search), ("page", q.page), ("sort_by", q.sortBy), ("sort_dir", q.sortDir),
     ("filters", q.filters)]
  }

  /** `data?.products || []`: the fetched products, or none before the first response. */
  function TableData(data: Option<ProductsResponse>): (rows: seq<Product>)
    ensures data.None? ==> rows == []
    ensures data.Some? ==> rows == data.value.products
  {
    match data
    case None => []
    case Some(d) => d.products
  }

  /**
   * After a successful delete of `id`, the rows the table shows are the
   * previous rows without that id, in their order; with no cached response
   * there are still no rows.
   */
  lemma TableDataAfterDelete(data: Option<ProductsResponse>, id: int)
    ensures TableData(ProductColumns.CacheAfterDelete(data, id))
         == ProductColumns.WithoutId(TableData(data), id)
  {
  }

  /**
   * The categories filter writes `updateSearchParams({ filters: getFormattedFilters() })`;
   * reading the URL back gives the same table, and no filters leave no parameter.
   */
  lemma FiltersThroughUrl(p: Params, t: FiltersStore.Table)
    requires FiltersStore.WellFormed(t)
    ensures var next := Updated(p, [ParamUpdate("filters", Some(FiltersStore.Format(t)))], true);
      FiltersStore.Parse(Get(next, "filters")) == if t == [] then None else Some(t)
  {
    var us := [ParamUpdate("filters", Some(FiltersStore.Format(t)))];
    if t == [] {
      UpdateClearsEmpty(p, us, true, 0);
    } else {
      UpdateSetsValue(p, us, true, 0);
      FiltersStore.ParseFormat(t);
    }
  }
}
