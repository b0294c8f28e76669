# Simple admin dashboard: a verified model of its URL, filter and UI state logic

This project models, in Dafny, the state logic of a React admin dashboard for
products: how the products page turns the browser's query string and the
filters store into a request, how sortable headers and the pagination bar
rewrite the query string, how the filters store reads and writes its
`key:value;key:value` parameter, how the file picker keeps its list of files,
how the sidebar tracks collapsed sections, how server validation errors reach
the form, and how the two route guards decide what to render.

The modules follow the source files:

- `query_params.dfy` models `useQueryParamsUpdater`. The search parameters are
  a `map<string, string>`. `UpdateSearchParams` and `RemoveSearchParams` are
  the hook's loops, each proved equal to a specification function
  (`Updated`, `Removed`). The class `SearchParamsState` holds the committed
  parameters.
- `filters_store.dfy` models `useFiltersStore`. A filters object is a sequence of
  key/value pairs in insertion order. The class `FiltersState` holds the
  store's one field, `filters`, which is `None` while it is `undefined`.
- `product_columns.dfy` models `ProductColumns.tsx`: the sort toggle, the
  arrows, the column list, the cache update after a delete and the delete
  guard (class `DeleteAction`).
- `pagination.dfy` models `Pagination.tsx`: the page-click guard, the
  `renderPageNumbers` loop and the disabled controls.
- `products_page.dfy` models the `queryParams` descriptor of `Products.tsx`.
- `products_api.dfy` models the URLs of `api/products.ts`.
  `form_url_encoding.dfy` is the `application/x-www-form-urlencoded`
  serializer (WHATWG URL Standard, section 5.2) that `URLSearchParams.toString` applies.
- `file_picker.dfy` models `DragAndDropFilePicker.tsx` as the class
  `FilePickerState`, with a `files` field.
- `sidebar.dfy` models `Sidebar.tsx`. Its class `SidebarState` holds the
  collapsed-state map.
- `form_errors.dfy` models `setValidationErrors` as a loop that fills a field→message map.
- `private_route.dfy` and `guest_route.dfy` model the two route guards.
- `strings.dfy`, `wrappers.dfy` and `types.dfy` hold shared helpers and the
  record types of `types.ts`: JavaScript-style `split` and `join`,
  `startsWith`, decimal rendering of integers, and `Option`.

JavaScript's `null` and `undefined` are `Option.None`. The `updates` record
of `updateSearchParams` and the `errors` record of `setValidationErrors` are
sequences of entries in `Object.entries` order.

## Model

| member | source | states |
|---|---|---|
| QueryParams.UpdateSearchParams | src/hooks/useQueryParamsUpdater.ts:6-22 | the loop over the entries, followed by the optional `page` deletion, yields exactly `Updated(searchParams, updates, resetPage)` |
| QueryParams.RemoveSearchParams | src/hooks/useQueryParamsUpdater.ts:25-31 | the loop over the keys, followed by the optional `page` deletion, yields exactly `Removed(searchParams, keys, resetPage)` |
| QueryParams.Removed | src/hooks/useQueryParamsUpdater.ts:25-31 | a key survives iff it was present, is not listed, and is not `page` under reset; survivors keep their values |
| QueryParams.DropPage | src/hooks/useQueryParamsUpdater.ts:20 | `page` is absent iff reset was asked or it was absent before; other keys are untouched |
| QueryParams.ApplyUpdatesAt | src/hooks/useQueryParamsUpdater.ts:12-18 | after the loop, each key's value is decided by the last update naming it, or is its old value |
| QueryParams.ApplyUpdates | src/hooks/useQueryParamsUpdater.ts:12-18 | the `forEach` of `delete`/`set` in entry order; a key present afterwards was present before or is named by an update (its value is given by `ApplyUpdatesAt`) |
| QueryParams.Updated | src/hooks/useQueryParamsUpdater.ts:6-22 | what `updateSearchParams` commits: with reset `page` is absent, and keys the update does not name keep their values; `UpdateClearsEmpty`, `UpdateSetsValue` and `UpdateIdempotent` give the rest |
| QueryParams.UpdateClearsEmpty | src/hooks/useQueryParamsUpdater.ts:13-14 | a key updated to `null` or `""` is absent afterwards |
| QueryParams.UpdateSetsValue | src/hooks/useQueryParamsUpdater.ts:15-16 | a key updated to a non-empty value maps to that value, unless it is `page` and the page is reset |
| QueryParams.UpdateFrame | src/hooks/useQueryParamsUpdater.ts:10-20 | keys the update does not name keep their values, and so does `page` without reset |
| QueryParams.UpdateResetsPage | src/hooks/useQueryParamsUpdater.ts:8-20 | with the default reset, `page` is gone afterwards |
| QueryParams.UpdateIdempotent | src/hooks/useQueryParamsUpdater.ts:6-22 | applying the same update twice gives the parameters of applying it once |
| QueryParams.SearchParamsState.constructor | src/hooks/useQueryParamsUpdater.ts:4 | the committed parameters start as the router's current ones |
| QueryParams.SearchParamsState.Update | src/hooks/useQueryParamsUpdater.ts:22 | `setSearchParams` commits `Updated(old params, updates, resetPage)` |
| QueryParams.SearchParamsState.Remove | src/hooks/useQueryParamsUpdater.ts:31 | `setSearchParams` commits `Removed(old params, keys, resetPage)` |
| QueryParams.SortUpdateExample | src/components/tables/ProductColumns.tsx:75 | from `?search=shoe&page=2`, sorting by price gives `?search=shoe&sort_by=price&sort_dir=asc`, and `page` is dropped |
| FiltersStore.Lookup | src/store/useFiltersStore.ts:6 | a key has a value iff it is one of the table's keys |
| FiltersStore.Put | src/store/useFiltersStore.ts:29-35 | the spread-and-set: the key gets the new value, other keys are unchanged, a new key is appended at the end, and an existing key leaves the length unchanged (its position is fixed by `PutInPlace`) |
| FiltersStore.PutInPlace | src/store/useFiltersStore.ts:29-35 | setting a key the table holds replaces that entry in place: the entries before and after it keep their order |
| FiltersStore.PutKeepsDistinct | src/store/useFiltersStore.ts:29-35 | setting a key keeps the keys distinct |
| FiltersStore.Delete | src/store/useFiltersStore.ts:37-45 | the copy-and-delete: the key is gone, other keys are unchanged, and distinct keys stay distinct; the order of what remains comes from `DeleteInPlace` |
| FiltersStore.DeleteInPlace | src/store/useFiltersStore.ts:39-40 | deleting a stored key removes exactly its entry; the others stay where they were |
| FiltersStore.DeleteAbsent | src/store/useFiltersStore.ts:39-40 | deleting a key that is not stored leaves the table as it was |
| FiltersStore.Format | src/store/useFiltersStore.ts:49-54 | the joined `key:value` text is empty iff the table is empty |
| FiltersStore.ParseSegment | src/store/useFiltersStore.ts:21-22 | a kept segment has a non-empty, colon-free key and value |
| FiltersStore.ParseEntry | src/store/useFiltersStore.ts:21-22 | `k:v` parses back to `(k, v)` when both are non-empty and colon-free |
| FiltersStore.ParseSegmentExtraColons | src/store/useFiltersStore.ts:21 | in `k:v:rest`, the value is only the text between the first two colons |
| FiltersStore.ParseSegmentsStep | src/store/useFiltersStore.ts:20-23 | one step of the `reduce`: a bad segment is skipped, a good one sets its key |
| FiltersStore.ParseSegments | src/store/useFiltersStore.ts:20-23 | the `reduce` from the left: at most one entry per segment, each with a non-empty, colon-free key and value |
| FiltersStore.Parse | src/store/useFiltersStore.ts:15-24 | `filtersFromUrl`: `undefined` exactly for an absent or empty parameter; otherwise a table with distinct keys and non-empty text free of `:` and `;` |
| FiltersStore.ParseFormat | src/store/useFiltersStore.ts:15-54 | round trip: parsing the formatted table gives the table back, or `undefined` for the empty table |
| FiltersStore.ParseSegmentsWellFormed | src/store/useFiltersStore.ts:20-23 | whatever the parser builds has distinct keys with non-empty text free of `:` and `;` |
| FiltersStore.ParseStable | src/store/useFiltersStore.ts:15-54 | formatting a parsed table and parsing it again gives the same table |
| FiltersStore.FiltersState.constructor | src/store/useFiltersStore.ts:27 | the initial `filters` is what `filtersFromUrl` reads from the `filters` parameter |
| FiltersStore.FiltersState.SetFilter | src/store/useFiltersStore.ts:29-35 | `filters` becomes `Put(old filters or {}, key, value)`; only that key changes |
| FiltersStore.FiltersState.RemoveFilter | src/store/useFiltersStore.ts:37-45 | `filters` becomes the object without the key, which is an object even when it was `undefined` |
| FiltersStore.FiltersState.ResetFilters | src/store/useFiltersStore.ts:47 | `filters` is `undefined`, with nothing formatted and no filter present |
| FiltersStore.FiltersState.GetFormattedFilters | src/store/useFiltersStore.ts:49-54 | the text is empty iff there are no entries; when the store's keys are distinct (`Valid`) and no key or value is empty or holds `:` or `;`, it parses back to the entries |
| FiltersStore.FiltersState.FiltersExist | src/store/useFiltersStore.ts:56-58 | true iff some key has a value |
| ProductColumns.ToggleSortDir | src/components/tables/ProductColumns.tsx:67-77 | every click drops `page` and leaves every key other than `sort_by` and `sort_dir` unchanged; the three branches are `ToggleOtherColumn`, `ToggleAscending` and `ToggleOff` |
| ProductColumns.ToggleOtherColumn | src/components/tables/ProductColumns.tsx:67-77 | clicking a column not sorted on sets `sort_by` to it and `sort_dir` to `asc`, drops `page`, and keeps the rest |
| ProductColumns.ToggleAscending | src/components/tables/ProductColumns.tsx:68-70 | clicking the ascending-sorted column switches it to `desc`, drops `page`, and keeps `sort_by` |
| ProductColumns.ToggleOff | src/components/tables/ProductColumns.tsx:68-72 | clicking the sorted column in any other direction removes `sort_by`, `sort_dir` and `page` |
| ProductColumns.ThreeClicksUnsort | src/components/tables/ProductColumns.tsx:67-77 | three clicks on an unsorted column remove the sort and `page` and leave everything else |
| ProductColumns.Arrows | src/components/tables/ProductColumns.tsx:84-99 | the up and down arrows are never both fully shown |
| ProductColumns.ArrowsFollowCycle | src/components/tables/ProductColumns.tsx:67-99 | successive clicks show up, then down, then neither |
| ProductColumns.ProductColumnList | src/components/tables/ProductColumns.tsx:14-51 | five columns; a column sorts iff its accessor key is id, name or price, and then by that key |
| ProductColumns.ColumnsSortable | src/components/tables/ProductColumns.tsx:14-51 | the accessor keys in table order are id, name, price, category, actions, and the sortable ones are exactly id, name and price |
| ProductColumns.WithoutId | src/components/tables/ProductColumns.tsx:121 | a product is kept iff it was listed and has a different id |
| ProductColumns.WithoutIdAppend | src/components/tables/ProductColumns.tsx:121 | the filter splits over concatenation, so kept products stay in order |
| ProductColumns.WithoutIdNoMatch | src/components/tables/ProductColumns.tsx:121 | a list without the id is unchanged |
| ProductColumns.WithoutIdIdempotent | src/components/tables/ProductColumns.tsx:114-124 | removing the same id twice gives the same list as removing it once |
| ProductColumns.CacheAfterDelete | src/components/tables/ProductColumns.tsx:117-123 | no cached data stays none; otherwise pagination is kept and exactly the products with another id remain |
| ProductColumns.DeleteAction.constructor | src/components/tables/ProductColumns.tsx:105-110 | the action belongs to its row's product, and no record is marked at first |
| ProductColumns.DeleteAction.ClickDeleteButton | src/components/tables/ProductColumns.tsx:148 | the button always marks the placeholder record `{id: 123, name: "Sample Record"}` |
| ProductColumns.DeleteAction.HandleDelete | src/components/tables/ProductColumns.tsx:129-132 | a delete happens iff a record is marked, and it always deletes the row's own product id, whatever record is marked |
| Pagination.HandlePageClick | src/components/Pagination.tsx:24-28 | a page outside `[1, last_page]` leaves the parameters unchanged |
| Pagination.PageClickInRange | src/components/Pagination.tsx:24-28 | an in-range click sets `page` to the number's decimal text, without page reset, and keeps every other key |
| Pagination.FirstPageClick | src/components/Pagination.tsx:5-27 | clicking page 1 writes `FIRST_PAGE` |
| Pagination.PageWindow | src/components/Pagination.tsx:32-35 | the button numbers run consecutively from `max(1, current - 2)`, and a number is shown iff it lies between `max(1, current - 2)` and `min(last_page, current + 2)` |
| Pagination.PageWindowBounds | src/components/Pagination.tsx:32-35 | at most five buttons, all within `[1, last_page]` |
| Pagination.PageWindowHasCurrent | src/components/Pagination.tsx:32-35 | an in-range current page is among the buttons, at most two away from each |
| Pagination.RenderPageNumbers | src/components/Pagination.tsx:30-53 | the loop pushes one button per window page, in order, disabled iff placeholder data, highlighted iff it is the current page |
| Pagination.ExactlyCurrentHighlighted | src/components/Pagination.tsx:41-45 | with the current page in range, exactly one button is highlighted |
| Pagination.BarControls | src/components/Pagination.tsx:57-69 | page numbers are listed only with `has_pages`, and then they are the window; Previous is disabled iff there is no previous page or the data is a placeholder, Next likewise; the page buttons are disabled iff the data is a placeholder |
| Pagination.EnabledNeighbourClickTakesEffect | src/components/Pagination.tsx:57-69 | with consistent backend flags, an enabled Previous or Next click moves to the neighbouring page; placeholder data disables both |
| ProductsPage.ParamOrEmpty | src/pages/Products.tsx:30-33 | `get(k) \|\| ""` is non-empty iff the key has a non-empty value, and is then that value |
| ProductsPage.BuildQueryParams | src/pages/Products.tsx:29-35 | each field comes from its parameter, and `filters` is the store's formatted text, empty iff no filter exists |
| ProductsPage.Entries | src/pages/Products.tsx:17-23 | the entries are the five descriptor keys, in the literal's order |
| ProductsPage.TableData | src/pages/Products.tsx:47 | the table rows are the fetched products, or none before a response |
| ProductsPage.TableDataAfterDelete | src/components/tables/ProductColumns.tsx:114-124 | after a successful delete, the rows shown are the previous rows without that id, in order; with no cached response there are none |
| ProductsPage.FiltersThroughUrl | src/components/Filters.tsx:83 | writing the formatted filters to the URL and reading them back gives the same table; no filters leave no parameter |
| FormUrlEncoding.Utf8 | src/api/products.ts:20 | one to four bytes; a single byte exactly for ASCII, equal to the code point |
| FormUrlEncoding.PercentBytes | src/api/products.ts:20 | three `%XX` characters per byte |
| FormUrlEncoding.EncodeChar | src/api/products.ts:20 | an unreserved character is kept; the output uses only encoded characters |
| FormUrlEncoding.Encode | src/api/products.ts:20 | the output holds no separator characters, and plain text is its own encoding |
| FormUrlEncoding.NoSeparators | src/api/products.ts:20 | encoded text never holds `&` or `=` |
| FormUrlEncoding.PairSplits | src/api/products.ts:20 | one `name=value` pair holds no `&` and splits at `=` into its encoded name and value |
| FormUrlEncoding.Serialize | src/api/products.ts:20 | `toString()` of the entries is empty iff there are none; `SerializeSplits` recovers the pairs from it |
| FormUrlEncoding.SerializeSplits | src/api/products.ts:20 | the query string splits back at `&` into the pairs, and each pair at `=` into its encoded name and value |
| ProductsApi.NonEmptyEntries | src/api/products.ts:15-17 | an entry is kept iff it is in the descriptor and its value is not `""`; the order is fixed by `NonEmptyEntriesAppend` |
| ProductsApi.NonEmptyEntriesAppend | src/api/products.ts:15-17 | the filter distributes over concatenation, so the kept entries stay in `Object.entries` order |
| ProductsApi.NonEmptyEntriesKeepsAll | src/api/products.ts:15-17 | entries without empty values are kept as they are, in order |
| ProductsApi.FilteredQueryParams | src/api/products.ts:15-17 | the descriptor's entries whose value is not `""`, each keyed by a descriptor key |
| ProductsApi.ProductsUrl | src/api/products.ts:22 | the list URL starts with `/products?` |
| ProductsApi.ProductsUrlQuery | src/api/products.ts:15-22 | for every descriptor, the text after `/products?` is empty iff every field is empty; otherwise it splits at `&` into one pair per kept entry, in order, and each pair splits at `=` into its encoded name and value |
| ProductsApi.AllEmptyUrl | src/api/products.ts:15-22 | an all-empty descriptor requests `/products?` with no parameters |
| ProductsApi.SearchAndPageUrl | src/api/products.ts:15-22 | a search term and a page alone give `/products?search=…&page=…` in the descriptor's order |
| ProductsApi.FiltersAreEncoded | src/api/products.ts:15-22 | a single filter `k:v` is sent as `filters=k%3Av`, with the colon percent-encoded |
| ProductsApi.EncodeAppend | src/api/products.ts:20 | encoding distributes over concatenation |
| ProductsApi.ProductPath | src/api/products.ts:30 | `/products/{id}` starts with `/products/` and its tail reads back as the id |
| ProductsApi.ShowProduct | src/api/products.ts:29-35 | a GET of `/products/` followed by text that reads back as the id |
| ProductsApi.CreateProduct | src/api/products.ts:37-47 | a POST to `/products` |
| ProductsApi.UpdateProduct | src/api/products.ts:49-65 | a POST of `/products/` followed by text that reads back as the id |
| ProductsApi.DeleteProduct | src/api/products.ts:67-71 | a DELETE of `/products/` followed by text that reads back as the id |
| ProductsApi.ProductPathsDistinct | src/api/products.ts:29-71 | different ids get different paths; show, update and delete share the path; create posts to the collection path |
| Strings.Split | src/store/useFiltersStore.ts:20-21 | `split` returns at least one piece, none holding the separator, and the whole string when the separator is absent |
| Strings.Join | src/store/useFiltersStore.ts:53 | the joined text starts with the first part, followed by the separator when there are more parts; `SplitJoin` and `JoinEmpty` give the rest |
| Strings.SplitJoin | src/store/useFiltersStore.ts:20-53 | splitting a join gives the parts back when no part holds the separator |
| Strings.JoinEmpty | src/store/useFiltersStore.ts:53 | a join is empty iff there are no parts or one empty part |
| Strings.NatToString | src/api/products.ts:30 | the decimal digits of a natural number, starting with `0` only for 0 itself |
| Strings.IntToString | src/api/products.ts:30 | the `${id}` text: digits only for a non-negative id, a `-` and digits otherwise, with no leading zero except for 0 itself; `ParseIntToString` reads it back |
| Strings.ParseIntToString | src/api/products.ts:30 | the decimal rendering of an integer reads back as that integer |
| FilePicker.CapBatch | src/components/DragAndDropFilePicker.tsx:31-35 | a batch longer than the cap is cut to its first `maxFilesCount` files; any other batch is kept whole |
| FilePicker.AfterDrop | src/components/DragAndDropFilePicker.tsx:23-46 | multiple mode: a full list is unchanged, otherwise the old list is followed by the capped batch; single mode: the first dropped file alone, or nothing |
| FilePicker.RemoveAt | src/components/DragAndDropFilePicker.tsx:60 | exactly the element at the index is removed and the others keep their order; an index outside the list removes nothing |
| FilePicker.RemoveAtMultiset | src/components/DragAndDropFilePicker.tsx:60 | removal takes out one occurrence of that file and nothing else |
| FilePicker.Reported | src/components/DragAndDropFilePicker.tsx:62-66 | multiple mode reports the list, possibly `[]`; single mode reports the first file or `null` |
| FilePicker.UnboundedNeverTruncates | src/components/DragAndDropFilePicker.tsx:18-31 | with the default cap, a drop appends the whole batch and never warns |
| FilePicker.CapIsPerBatch | src/components/DragAndDropFilePicker.tsx:31-38 | the cap limits the batch, not the total: a list below the cap can end above it |
| FilePicker.DropKeepsExisting | src/components/DragAndDropFilePicker.tsx:38 | in multiple mode, the old files stay first and in order |
| FilePicker.SingleModeHoldsOne | src/components/DragAndDropFilePicker.tsx:43-44 | single mode never holds more than one file |
| FilePicker.FilePickerState.constructor | src/components/DragAndDropFilePicker.tsx:15-21 | the picker starts with no files, with its mode and cap fixed |
| FilePicker.FilePickerState.OnDrop | src/components/DragAndDropFilePicker.tsx:23-46 | the list becomes `AfterDrop` of the old list; `onChange` gets that same list (or the single file or `null`) and is not called for a full list; the warning is raised exactly for a full list or an over-long batch |
| FilePicker.FilePickerState.RemoveFile | src/components/DragAndDropFilePicker.tsx:59-67 | the list loses the element at the index and `onChange` gets what `Reported` says |
| Sidebar.AnyPrefix | src/components/Sidebar.tsx:51-53 | true iff the path starts with one of the active paths |
| Sidebar.IsSubLinkActive | src/components/Sidebar.tsx:47-55 | true iff the path starts with some sub-link's target or one of its active paths |
| Sidebar.EditPathActivatesProducts | src/components/Sidebar.tsx:28-55 | a path under `/products/edit` makes the Products section active |
| Sidebar.InitialCollapsedState | src/components/Sidebar.tsx:36-43 | the state has exactly the navigation titles, each collapsed |
| Sidebar.Toggled | src/components/Sidebar.tsx:70-75 | the title's flag becomes the negation of its old value (a missing entry reads as false); every other entry is unchanged |
| Sidebar.ToggleTwice | src/components/Sidebar.tsx:70-75 | toggling a known section twice restores the state |
| Sidebar.ExpandActiveSections | src/components/Sidebar.tsx:57-68 | sections with an active sub-link are expanded; every other entry keeps its flag |
| Sidebar.ExpandNeverCollapses | src/components/Sidebar.tsx:57-68 | the location effect never collapses an expanded section |
| Sidebar.SidebarState.constructor | src/components/Sidebar.tsx:36-43 | every navigation item starts collapsed, so no section lists its sub-links |
| Sidebar.SidebarState.ToggleCollapse | src/components/Sidebar.tsx:70-75 | the state becomes `Toggled(old state, title)`: that section's sub-links switch between listed and hidden, and no other section changes |
| Sidebar.SidebarState.OnLocationChange | src/components/Sidebar.tsx:57-68 | active sections of the navigation items are expanded and the others keep their flags; a listed section stays listed, and a path under `/products/edit` lists the Products sub-links |
| Sidebar.SidebarState.SubLinksListed | src/components/Sidebar.tsx:101 | sub-links are listed iff their section is not collapsed |
| FormErrors.FirstMessage | src/utils/formErrors.ts:8 | `value[0]`: the first message, or `undefined` for an empty list |
| FormErrors.SetValidationErrors | src/utils/formErrors.ts:3-10 | one `setError` call per entry, in order, carrying the first message; fields outside the record are untouched; each record field ends with its first message; an empty record makes no calls |
| FormErrors.KeysBeforeStep | src/utils/formErrors.ts:7 | one more entry adds exactly its field to the set of touched fields |
| PrivateRoute.Guard | src/routes/PrivateRoute.tsx:6-25 | spinner and no redirect while loading; no user gives nothing rendered and a redirect to `/login`; a user gives the children and no redirect |
| GuestRoute.Guard | src/routes/GuestRoute.tsx:6-25 | spinner and no redirect while loading; a user gives nothing rendered and a redirect to `/`; no user gives the children and no redirect |
| GuestRoute.ExactlyOneGuardRenders | src/routes/GuestRoute.tsx:20-24 | once loaded, exactly one of the two guards renders its children and exactly one redirects |
| GuestRoute.LoadingShowsSpinner | src/routes/GuestRoute.tsx:16-18 | while loading, both guards show the spinner and neither redirects |

## Left out

- Network and I/O: the HTTP calls of `api/products.ts`, including the form-data bodies of create and update and the response parsing, together with the toasts, `navigate` and rendering. Requests are modelled by their verb and path only.
- react-query's caching, `keepPreviousData`, `invalidateQueries` and retries are library behaviour. Only the `setQueriesData` updater function is modelled. The mutation's pending state (src/components/tables/ProductColumns.tsx:147,151) is not modelled either: it disables the delete button and shows a spinner while the delete is in flight, so `DeleteAction` can be clicked at any time.
- `URLSearchParams` is modelled as a map, so neither the order of keys in the query string nor multi-valued keys are modelled. The filters object is modelled as an ordered sequence of pairs, so the order of its serialisation is defined.
- JavaScript orders integer-like object keys (such as `"10"`) before the others. The filters table keeps plain insertion order for every key.
- FiltersStore.FiltersState.SetFilter: values are strings only. `FilterValue`'s number, boolean and `undefined` values, and their `${value}` renderings, are not modelled.
- FormUrlEncoding.Utf8: strings are modelled as sequences of Unicode code points. JavaScript strings holding a lone surrogate, which the WHATWG serializer writes out as U+FFFD, fall outside the model.
- FilePicker.FilePickerState.OnDrop: the `useCallback` dependency list leaves out `maxFilesCount`, so a changed cap would only be seen by a later drop. The model always uses the current cap. The file types accepted by the dropzone are left to the caller. `maxFilesCount` is a natural number or unbounded; fractional or negative caps are not modelled.
- The Sidebar's `NavLink` highlighting and the page rendering are left out.
- `AuthContext`, the axios interceptors and token refresh, the search box's 500 ms debounce, and the create, edit and login pages are left out: they are timers, cookies, library validation or HTTP. The route guards take `isLoading` and the user as inputs.
- JavaScript `number` values are modelled as `int`: page numbers, `current_page`, `last_page` and product ids. For safe integers (magnitude below 2^53), `toString()` and template strings render them as `Strings.IntToString` does. The model does not cover the loss of precision beyond 2^53 (a `number` holds larger integers inexactly, an `int` exactly). Nor does it cover the exponent form JavaScript writes for magnitudes of 10^21 and more (`1e+21`), or fractional values, `NaN` and infinities and how they render.
- Pagination: the `Consistent` predicate describes how the backend is assumed to set `has_prev_page`/`has_next_page`. The component itself does not check it.
