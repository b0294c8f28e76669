/**
 * The product table's columns: the sort toggle of a sortable header, which
 * of its arrows is shown, the column list, and the delete action (its guard
 * and the cache update after a successful delete).
 */
module ProductColumns {
  import opened Wrappers
  import opened Types
  import opened QueryParams

  const SortBy := "sort_by"
  const SortDir := "sort_dir"
  const Asc := "asc"
  const Desc := "desc"

  /** `toggleSortDir` of the header whose `sortableKey` is `key`. */
  function ToggleSortDir(p: Params, key: string): (r: Params)
    ensures PageKey !in r
    ensures forall k :: OtherKey(k) ==> Get(r, k) == Get(p, k)
  {
    if Get(p, SortBy) == Some(key) then
      if Get(p, SortDir) == Some(Asc) then
        Updated(p, [ParamUpdate(SortDir, Some(Desc))], true)
      else
        Removed(p, [SortBy, SortDir], true)
    else
      Updated(p, [ParamUpdate(SortBy, Some(key)), ParamUpdate(SortDir, Some(Asc))], true)
  }

  predicate OtherKey(k: string) {
    k != SortBy && k != SortDir && k != PageKey
  }

  /** A column other than the sorted one starts ascending; `page` is dropped. */
  lemma ToggleOtherColumn(p: Params, key: string)
    requires Get(p, SortBy) != Some(key) && key != ""
    ensures var r := ToggleSortDir(p, key);
      && Get(r, SortBy) == Some(key) && Get(r, SortDir) == Some(Asc)
      && PageKey !in r
      && forall k :: OtherKey(k) ==> Get(r, k) == Get(p, k)
  {
    var us := [ParamUpdate(SortBy, Some(key)), ParamUpdate(SortDir, Some(Asc))];
    UpdateSetsValue(p, us, true, 0);
    UpdateSetsValue(p, us, true, 1);
    forall k | OtherKey(k) ensures Get(Updated(p, us, true), k) == Get(p, k) {
      UpdateFrame(p, us, true, k);
    }
  }

  /** The sorted column going from ascending to descending keeps `sort_by`. */
  lemma ToggleAscending(p: Params, key: string)
    requires Get(p, SortBy) == Some(key) && Get(p, SortDir) == Some(Asc)
    ensures var r := ToggleSortDir(p, key);
      && Get(r, SortBy) == Some(key) && Get(r, SortDir) == Some(Desc)
      && PageKey !in r
      && forall k :: OtherKey(k) ==> Get(r, k) == Get(p, k)
  {
    var us := [ParamUpdate(SortDir, Some(Desc))];
    UpdateSetsValue(p, us, true, 0);
    UpdateFrame(p, us, true, SortBy);
    forall k | OtherKey(k) ensures Get(Updated(p, us, true), k) == Get(p, k) {
      UpdateFrame(p, us, true, k);
    }
  }

  /** The sorted column in any other direction loses its sort altogether. */
  lemma ToggleOff(p: Params, key: string)
    requires Get(p, SortBy) == Some(key) && Get(p, SortDir) != Some(Asc)
    ensures ToggleSortDir(p, key) == p - {SortBy, SortDir, PageKey}
  {
  }

  /** From any state not sorted by this column, three clicks remove the sort. */
  lemma ThreeClicksUnsort(p: Params, key: string)
    requires Get(p, SortBy) != Some(key) && key != ""
    ensures ToggleSortDir(ToggleSortDir(ToggleSortDir(p, key), key), key)
         == p - {SortBy, SortDir, PageKey}
  {
    var p1 := ToggleSortDir(p, key);
    ToggleOtherColumn(p, key);
    var p2 := ToggleSortDir(p1, key);
    ToggleAscending(p1, key);
    var p3 := ToggleSortDir(p2, key);
    ToggleOff(p2, key);
    var want := p - {SortBy, SortDir, PageKey};
    forall k ensures Get(p3, k) == Get(want, k) {
      if OtherKey(k) {
        assert Get(p3, k) == Get(p2, k) == Get(p1, k) == Get(p, k);
      }
    }
    GetExtensional(p3, want);
  }

  /** Which arrow of the header is fully shown. */
  datatype ArrowState = ArrowState(upShown: bool, downShown: bool)

  function Arrows(p: Params, key: string): (a: ArrowState)
    ensures !(a.upShown && a.downShown)
  {
    ArrowState(
      Get(p, SortBy) == Some(key) && Get(p, SortDir) == Some(Asc),
      Get(p, SortBy) == Some(key) && Get(p, SortDir) == Some(Desc))
  }

  /** The arrows follow the cycle: up, then down, then neither. */
  lemma ArrowsFollowCycle(p: Params, key: string)
    requires Get(p, SortBy) != Some(key) && key != ""
    ensures var p1 := ToggleSortDir(p, key);
            var p2 := ToggleSortDir(p1, key);
            var p3 := ToggleSortDir(p2, key);
            && Arrows(p1, key) == ArrowState(true, false)
            && Arrows(p2, key) == ArrowState(false, true)
            && Arrows(p3, key) == ArrowState(false, false)
  {
    var p1 := ToggleSortDir(p, key);
    ToggleOtherColumn(p, key);
    ToggleAscending(p1, key);
    ThreeClicksUnsort(p, key);
  }

  /** A column of `getProductColumns`; `sortKey` is the header's `sortableKey`. */
  datatype Column = Column(accessorKey: string, title: string, sortKey: Option<string>)

  function ProductColumnList(): (cols: seq<Column>)
    ensures |cols| == 5
    ensures forall i :: 0 <= i < |cols| ==>
      (cols[i].sortKey.Some? <==> cols[i].accessorKey in {"id", "name", "price"})
    ensures forall i :: 0 <= i < |cols| && cols[i].sortKey.Some? ==>
      cols[i].sortKey.value == cols[i].accessorKey
  {
    [ Column("id", "ID", Some("id")),
      Column("name", "Name", Some("name")),
      Column("price", "Price", Some("price")),
      Column("category", "Category", None),
      Column("actions", "Actions", None) ]
  }

  function AccessorKeys(cols: seq<Column>): seq<string> {
    seq(|cols|, i requires 0 <= i < |cols| => cols[i].accessorKey)
  }

  function SortableKeys(cols: seq<Column>): set<string> {
    set i | 0 <= i < |cols| && cols[i].sortKey.Some? :: cols[i].accessorKey
  }

  /** The columns in table order, of which exactly id, name and price sort. */
  lemma ColumnsSortable()
    ensures AccessorKeys(ProductColumnList()) == ["id", "name", "price", "category", "actions"]
    ensures SortableKeys(ProductColumnList()) == {"id", "name", "price"}
  {
    var cols := ProductColumnList();
    assert cols[0].accessorKey == "id" && cols[1].accessorKey == "name" && cols[2].accessorKey == "price";
    assert forall x :: x in SortableKeys(cols) ==> x in {"id", "name", "price"};
  }

  // ---- deletion ----

  /** `products.filter((p) => p.id !== id)`. */
  function WithoutId(products: seq<Product>, id: int): (r: seq<Product>)
    ensures |r| <= |products|
    ensures forall q :: q in r <==> q in products && q.id != id
  {
    if |products| == 0 then []
    else if products[0].id == id then WithoutId(products[1..], id)
    else [products[0]] + WithoutId(products[1..], id)
  }

  /** Filtering splits over concatenation: the kept products stay in their order. */
  lemma {:induction false} WithoutIdAppend(a: seq<Product>, b: seq<Product>, id: int)
    ensures WithoutId(a + b, id) == WithoutId(a, id) + WithoutId(b, id)
  {
    if |a| > 0 {
      var ab := a + b;
      assert ab[0] == a[0];
      assert ab[1..] == a[1..] + b;
      WithoutIdAppend(a[1..], b, id);
      if a[0].id == id {
        assert WithoutId(ab, id) == WithoutId(ab[1..], id);
        assert WithoutId(a, id) == WithoutId(a[1..], id);
      } else {
        assert WithoutId(ab, id) == [a[0]] + WithoutId(ab[1..], id);
        assert WithoutId(a, id) == [a[0]] + WithoutId(a[1..], id);
      }
    } else {
      assert a + b == b;
    }
  }

  /** A list without that id is left as it is. */
  lemma {:induction false} WithoutIdNoMatch(products: seq<Product>, id: int)
    requires forall i :: 0 <= i < |products| ==> products[i].id != id
    ensures WithoutId(products, id) == products
  {
    if |products| > 0 {
      WithoutIdNoMatch(products[1..], id);
    }
  }

  /** The `setQueriesData` updater after a successful delete of `id`. */
  function CacheAfterDelete(oldData: Option<ProductsResponse>, id: int): (r: Option<ProductsResponse>)
    ensures oldData.None? ==> r.None?
    ensures oldData.Some? ==> r.Some? && r.value.pagination == oldData.value.pagination
    ensures oldData.Some? ==> forall q :: q in r.value.products <==> q in oldData.value.products && q.id != id
  {
    match oldData
    case None => None
    case Some(d) => Some(d.(products := WithoutId(d.products, id)))
  }

  /** Deleting twice leaves the same cache as deleting once. */
  lemma {:induction false} WithoutIdIdempotent(products: seq<Product>, id: int)
    ensures WithoutId(WithoutId(products, id), id) == WithoutId(products, id)
  {
    var r := WithoutId(products, id);
    forall i | 0 <= i < |r| ensures r[i].id != id {
      assert r[i] in r;
    }
    WithoutIdNoMatch(r, id);
  }

  /** The record the delete button marks for the confirmation dialog. */
  datatype RecordRef = RecordRef(id: int, name: string)

  /** The row's delete action; the button always marks the same placeholder record. */
  class DeleteAction {
    const product: Product
    var recordToDelete: Option<RecordRef>

    constructor (product: Product)
      ensures this.product == product && recordToDelete == None
    {
      this.product := product;
      recordToDelete := None;
    }

    method ClickDeleteButton()
      modifies this
      ensures recordToDelete == Some(RecordRef(123, "Sample Record"))
    {
      recordToDelete := Some(RecordRef(123, "Sample Record"));
    }

    /**
     * `handleDelete`: the id handed to the delete mutation, if any. The
     * marked record only gates the call; the id is always the row's own.
     */
    method HandleDelete() returns (deleted: Option<int>)
      ensures deleted.Some? <==> recordToDelete.Some?
      ensures deleted.Some? ==> deleted.value == product.id
    {
      if recordToDelete == None {
        return None;
      }
      deleted := Some(product.id);
    }
  }
}
