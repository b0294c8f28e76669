/**
 * The query-parameter updater hook: `updateSearchParams` merges a partial
 * update into a copy of the URL's search parameters, deleting every key whose
 * new value is `null` or `""`, and by default drops `page`;
 * `removeSearchParams` deletes a list of keys (and by default `page`).
 * The URL's parameters are a map from key to value; `setSearchParams` is the
 * commit of `SearchParamsState`.
 */
module QueryParams {
  import opened Wrappers

  type Params = map<string, string>

  const PageKey := "page"

  /** One entry of the `updates` record; `null` is `None`. */
  datatype ParamUpdate = ParamUpdate(key: string, value: Option<string>)

  /** `searchParams.get(k)`. */
  function Get(p: Params, k: string): Option<string> {
    if k in p then Some(p[k]) else None
  }

  /** `value === null || value === ""`: the update deletes its key. */
  predicate Clears(v: Option<string>) {
    v == None || v == Some("")
  }

  /** What `get` answers for a key after an update with value `v`. */
  function Effect(v: Option<string>): Option<string> {
    if Clears(v) then None else v
  }

  /** A `Record` has each key once. */
  predicate DistinctKeys(us: seq<ParamUpdate>) {
    forall i, j :: 0 <= i < j < |us| ==> us[i].key != us[j].key
  }

  predicate Mentions(us: seq<ParamUpdate>, k: string) {
    exists i :: 0 <= i < |us| && us[i].key == k
  }

  /** One step of the `forEach`: `params.delete(key)` or `params.set(key, value)`. */
  function ApplyUpdate(p: Params, u: ParamUpdate): Params {
    if Clears(u.value) then p - {u.key} else p[u.key := u.value.value]
  }

  /** The `forEach` over the update entries, in order. */
  function ApplyUpdates(p: Params, us: seq<ParamUpdate>): (r: Params)
    ensures forall k :: k in r ==> k in p || Mentions(us, k)
    decreases |us|
  {
    if |us| == 0 then p
    else
      var init := us[..|us| - 1];
      assert forall k :: Mentions(init, k) ==> Mentions(us, k) by {
        forall k | Mentions(init, k) ensures Mentions(us, k) {
          var i :| 0 <= i < |init| && init[i].key == k;
          assert us[i] == init[i];
        }
      }
      ApplyUpdate(ApplyUpdates(p, init), us[|us| - 1])
  }

  function DropPage(p: Params, resetPage: bool): (r: Params)
    ensures PageKey !in r <==> resetPage || PageKey !in p
    ensures forall k :: k != PageKey ==> Get(r, k) == Get(p, k)
  {
    if resetPage then p - {PageKey} else p
  }

  /** The parameters `updateSearchParams(updates, resetPage)` commits. */
  function Updated(p: Params, us: seq<ParamUpdate>, resetPage: bool): (r: Params)
    ensures resetPage ==> PageKey !in r
    ensures forall k :: !Mentions(us, k) && !(resetPage && k == PageKey) ==> Get(r, k) == Get(p, k)
  {
    forall k | !Mentions(us, k) ensures Get(ApplyUpdates(p, us), k) == Get(p, k) {
      ApplyUpdatesAt(p, us, k);
      FinalUnmentioned(us, k, Get(p, k));
    }
    DropPage(ApplyUpdates(p, us), resetPage)
  }

  /** The parameters `removeSearchParams(keys, resetPage)` commits. */
  function Removed(p: Params, keys: seq<string>, resetPage: bool): (r: Params)
    ensures forall k :: k in r <==> k in p && k !in keys && !(resetPage && k == PageKey)
    ensures forall k :: k in r ==> r[k] == p[k]
  {
    DropPage(p - KeySet(keys), resetPage)
  }

  function KeySet(keys: seq<string>): set<string> {
    set k | k in keys
  }

  /**
   * The value the key `k` ends with after the updates, starting from `start`:
   * decided by the last update that names `k`.
   */
  function Final(us: seq<ParamUpdate>, k: string, start: Option<string>): Option<string>
    decreases |us|
  {
    if |us| == 0 then start
    else if us[|us| - 1].key == k then Effect(us[|us| - 1].value)
    else Final(us[..|us| - 1], k, start)
  }

  lemma {:induction false} ApplyUpdatesAt(p: Params, us: seq<ParamUpdate>, k: string)
    ensures Get(ApplyUpdates(p, us), k) == Final(us, k, Get(p, k))
    decreases |us|
  {
    if |us| > 0 {
      ApplyUpdatesAt(p, us[..|us| - 1], k);
    }
  }

  lemma {:induction false} FinalUnmentioned(us: seq<ParamUpdate>, k: string, start: Option<string>)
    requires !Mentions(us, k)
    ensures Final(us, k, start) == start
    decreases |us|
  {
    if |us| > 0 {
      assert us[|us| - 1].key != k;
      var init := us[..|us| - 1];
      assert !Mentions(init, k) by {
        forall i | 0 <= i < |init| ensures init[i].key != k {
          assert init[i] == us[i];
        }
      }
      FinalUnmentioned(init, k, start);
    }
  }

  /** The update at index `i` is the last one naming its key, so it decides that key. */
  lemma {:induction false} FinalLastMention(us: seq<ParamUpdate>, i: int, start: Option<string>)
    requires 0 <= i < |us|
    requires forall j :: i < j < |us| ==> us[j].key != us[i].key
    ensures Final(us, us[i].key, start) == Effect(us[i].value)
    decreases |us|
  {
    if i < |us| - 1 {
      var init := us[..|us| - 1];
      assert init[i] == us[i];
      FinalLastMention(init, i, start);
    }
  }

  lemma {:induction false} FinalMentioned(us: seq<ParamUpdate>, k: string, a: Option<string>, b: Option<string>)
    requires Mentions(us, k)
    ensures Final(us, k, a) == Final(us, k, b)
    decreases |us|
  {
    if us[|us| - 1].key != k {
      var init := us[..|us| - 1];
      var i :| 0 <= i < |us| && us[i].key == k;
      assert init[i] == us[i];
      FinalMentioned(init, k, a, b);
    }
  }

  lemma GetExtensional(a: Params, b: Params)
    requires forall k :: Get(a, k) == Get(b, k)
    ensures a == b
  {
    assert a.Keys == b.Keys by {
      forall k ensures k in a <==> k in b {
        assert Get(a, k) == Get(b, k);
      }
    }
    forall k | k in a ensures a[k] == b[k] {
      assert Get(a, k) == Get(b, k);
    }
  }

  // ---- properties of updateSearchParams ----

  /** Keys set to `null` or `""` are absent afterwards. */
  lemma UpdateClearsEmpty(p: Params, us: seq<ParamUpdate>, resetPage: bool, i: int)
    requires DistinctKeys(us) && 0 <= i < |us| && Clears(us[i].value)
    ensures us[i].key !in Updated(p, us, resetPage)
  {
    ApplyUpdatesAt(p, us, us[i].key);
    FinalLastMention(us, i, Get(p, us[i].key));
  }

  /** Keys given a non-empty value map to exactly that value (unless `page` is reset). */
  lemma UpdateSetsValue(p: Params, us: seq<ParamUpdate>, resetPage: bool, i: int)
    requires DistinctKeys(us) && 0 <= i < |us| && !Clears(us[i].value)
    requires !(resetPage && us[i].key == PageKey)
    ensures Get(Updated(p, us, resetPage), us[i].key) == us[i].value
  {
    ApplyUpdatesAt(p, us, us[i].key);
    FinalLastMention(us, i, Get(p, us[i].key));
  }

  /** Keys the update does not name keep their values; so does `page` unless reset. */
  lemma UpdateFrame(p: Params, us: seq<ParamUpdate>, resetPage: bool, k: string)
    requires !Mentions(us, k)
    requires !(resetPage && k == PageKey)
    ensures Get(Updated(p, us, resetPage), k) == Get(p, k)
  {
    ApplyUpdatesAt(p, us, k);
    FinalUnmentioned(us, k, Get(p, k));
  }

  /** With `resetPage`, `page` is gone whatever the update says. */
  lemma UpdateResetsPage(p: Params, us: seq<ParamUpdate>)
    ensures PageKey !in Updated(p, us, true)
  {
  }

  /** Applying the same update twice is applying it once. */
  lemma UpdateIdempotent(p: Params, us: seq<ParamUpdate>, resetPage: bool)
    ensures Updated(Updated(p, us, resetPage), us, resetPage) == Updated(p, us, resetPage)
  {
    var once := Updated(p, us, resetPage);
    var twice := Updated(once, us, resetPage);
    forall k ensures Get(twice, k) == Get(once, k) {
      if !(resetPage && k == PageKey) {
        ApplyUpdatesAt(p, us, k);
        ApplyUpdatesAt(once, us, k);
        if Mentions(us, k) {
          FinalMentioned(us, k, Get(once, k), Get(p, k));
        } else {
          FinalUnmentioned(us, k, Get(p, k));
          FinalUnmentioned(us, k, Get(once, k));
        }
      }
    }
    GetExtensional(twice, once);
  }

  // ---- the hook's loops ----

  /** `updateSearchParams`: the copy, the `forEach` loop, the `page` deletion. */
  method UpdateSearchParams(searchParams: Params, updates: seq<ParamUpdate>, resetPage: bool)
    returns (params: Params)
    ensures params == Updated(searchParams, updates, resetPage)
  {
    params := searchParams;
    var i := 0;
    while i < |updates|
      invariant 0 <= i <= |updates|
      invariant params == ApplyUpdates(searchParams, updates[..i])
    {
      var u := updates[i];
      if u.value == None || u.value == Some("") {
        params := params - {u.key};
      } else {
        params := params[u.key := u.value.value];
      }
      assert updates[..i + 1][..i] == updates[..i];
      i := i + 1;
    }
    assert updates[..|updates|] == updates;
    if resetPage {
      params := params - {PageKey};
    }
  }

  /** `removeSearchParams`: the copy, the deletion of each listed key, the `page` deletion. */
  method RemoveSearchParams(searchParams: Params, keys: seq<string>, resetPage: bool)
    returns (params: Params)
    ensures params == Removed(searchParams, keys, resetPage)
  {
    params := searchParams;
    var i := 0;
    while i < |keys|
      invariant 0 <= i <= |keys|
      invariant params == searchParams - KeySet(keys[..i])
    {
      params := params - {keys[i]};
      assert KeySet(keys[..i + 1]) == KeySet(keys[..i]) + {keys[i]} by {
        assert keys[..i + 1] == keys[..i] + [keys[i]];
      }
      i := i + 1;
    }
    assert keys[..|keys|] == keys;
    if resetPage {
      params := params - {PageKey};
    }
  }

  /** The router's search parameters; `setSearchParams` replaces them. */
  class SearchParamsState {
    var params: Params

    constructor (initial: Params)
      ensures params == initial
    {
      params := initial;
    }

    method Update(updates: seq<ParamUpdate>, resetPage: bool)
      modifies this
      ensures params == Updated(old(params), updates, resetPage)
    {
      var next := UpdateSearchParams(params, updates, resetPage);
      params := next;
    }

    method Remove(keys: seq<string>, resetPage: bool)
      modifies this
      ensures params == Removed(old(params), keys, resetPage)
    {
      var next := RemoveSearchParams(params, keys, resetPage);
      params := next;
    }
  }

  /**
   * A first click on the price header (src/components/tables/ProductColumns.tsx:75)
   * starting from `?search=shoe&page=2`: the loop sets `sort_by` and `sort_dir`
   * (src/hooks/useQueryParamsUpdater.ts:12-18) and the default reset drops
   * `page` (line 20), giving `?search=shoe&sort_by=price&sort_dir=asc`.
   */
  lemma SortUpdateExample()
    ensures Updated(map["search" := "shoe", "page" := "2"],
                    [ParamUpdate("sort_by", Some("price")), ParamUpdate("sort_dir", Some("asc"))], true)
         == map["search" := "shoe", "sort_by" := "price", "sort_dir" := "asc"]
  {
    var p := map["search" := "shoe", "page" := "2"];
    var us := [ParamUpdate("sort_by", Some("price")), ParamUpdate("sort_dir", Some("asc"))];
    assert us[..1] == [us[0]];
    assert us[..1][..0] == [];
    assert ApplyUpdates(p, us[..1]) == p["sort_by" := "price"];
    assert ApplyUpdates(p, us) == p["sort_by" := "price"]["sort_dir" := "asc"];
    assert p["sort_by" := "price"]["sort_dir" := "asc"] - {PageKey}
        == map["search" := "shoe", "sort_by" := "price", "sort_dir" := "asc"];
  }
}
