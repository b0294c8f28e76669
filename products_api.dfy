/**
 * The product API's requests: the list query with its empty entries dropped,
 * and the paths of the single-product calls. The HTTP exchange itself is not
 * part of this model.
 */
module ProductsApi {
  import opened ProductsPage
  import FormUrlEncoding
  import Strings

  /** `.filter(([, value]) => value !== "")` on the entries. */
  function NonEmptyEntries(es: seq<(string, string)>): (r: seq<(string, string)>)
    ensures |r| <= |es|
    ensures forall e :: e in r <==> e in es && e.1 != ""
  {
    if |es| == 0 then []
    else if es[0].1 == "" then NonEmptyEntries(es[1..])
    else [es[0]] + NonEmptyEntries(es[1..])
  }

  /** Entries that are all non-empty are kept as they are, in order. */
  lemma {:induction false} NonEmptyEntriesKeepsAll(es: seq<(string, string)>)
    requires forall i :: 0 <= i < |es| ==> es[i].1 != ""
    ensures NonEmptyEntries(es) == es
  {
    if |es| > 0 {
      NonEmptyEntriesKeepsAll(es[1..]);
    }
  }

  /** The filter works entry by entry, so the kept entries keep their order. */
  lemma {:induction false} NonEmptyEntriesAppend(a: seq<(string, string)>, b: seq<(string, string)>)
    ensures NonEmptyEntries(a + b) == NonEmptyEntries(a) + NonEmptyEntries(b)
  {
    if |a| > 0 {
      assert (a + b)[0] == a[0];
      assert (a + b)[1..] == a[1..] + b;
      NonEmptyEntriesAppend(a[1..], b);
    } else {
      assert a + b == b;
    }
  }

  function FilteredQueryParams(q: ProductsQueryParams): (es: seq<(string, string)>)
    ensures forall e :: e in es <==> e in Entries(q) && e.1 != ""
    ensures forall e :: e in es ==> e.0 in DescriptorKeys
  {
    NonEmptyEntries(Entries(q))
  }

  /** `/products?` followed by the serialized remaining entries. */
  function ProductsUrl(q: ProductsQueryParams): (url: string)
    ensures Strings.StartsWith(url, "/products?")
  {
    var url := "/products?" + FormUrlEncoding.Serialize(FilteredQueryParams(q));
    assert url[..10] == "/products?";
    url
  }

  /**
   * For every descriptor, the text after `/products?` is the serialized
   * non-empty entries: nothing at all when every field is empty, and
   * otherwise one `&`-separated pair per kept entry, in order, each splitting
   * at `=` into its encoded name and value.
   */
  lemma ProductsUrlQuery(q: ProductsQueryParams)
    ensures |ProductsUrl(q)| >= 10
    ensures ProductsUrl(q)[10..] == FormUrlEncoding.Serialize(FilteredQueryParams(q))
    ensures FilteredQueryParams(q) == [] <==> ProductsUrl(q) == "/products?"
    ensures FilteredQueryParams(q) != [] ==>
      Strings.Split(ProductsUrl(q)[10..], '&') == FormUrlEncoding.Pairs(FilteredQueryParams(q))
    ensures forall i :: 0 <= i < |FilteredQueryParams(q)| ==>
      Strings.Split(FormUrlEncoding.Pairs(FilteredQueryParams(q))[i], '=')
        == [FormUrlEncoding.Encode(FilteredQueryParams(q)[i].0), FormUrlEncoding.Encode(FilteredQueryParams(q)[i].1)]
  {
    var es := FilteredQueryParams(q);
    var tail := FormUrlEncoding.Serialize(es);
    var url := ProductsUrl(q);
    assert url == "/products?" + tail;
    assert url[10..] == tail;
    assert url == "/products?" <==> tail == "";
    if es != [] {
      FormUrlEncoding.SerializeSplits(es);
    }
  }

  /** An all-empty descriptor asks for `/products?` with no parameters. */
  lemma AllEmptyUrl()
    ensures ProductsUrl(ProductsQueryParams("", "", "", "", "")) == "/products?"
  {
    var es := Entries(ProductsQueryParams("", "", "", "", ""));
    assert NonEmptyEntries(es) == [] by {
      forall e ensures e !in NonEmptyEntries(es) {
        assert e in es ==> e.1 == "";
      }
    }
  }

  predicate PlainText(s: string) {
    forall i :: 0 <= i < |s| ==> FormUrlEncoding.Unreserved(s[i])
  }

  /**
   * `?search=shoe&page=2` and the like: a search term and a page, with the
   * other fields empty, give exactly those two parameters in the descriptor's order.
   */
  lemma SearchAndPageUrl(search: string, page: string)
    requires search != "" && page != "" && PlainText(search) && PlainText(page)
    ensures ProductsUrl(ProductsQueryParams(search, page, "", "", ""))
         == "/products?search=" + search + "&page=" + page
  {
    SearchAndPageShape(search, page);
    SearchAndPageText(search, page);
  }

  // The lemmas below up to `FiltersAreEncoded` split the two worked examples
  // into small proof obligations: a literal's plainness, the regrouping of a
  // concatenation, one filtered entry. In one goal, the solver unfolds
  // `Encode`, `Join` and `NonEmptyEntries` on the literals past the
  // resource limit.
  lemma SearchAndPageShape(search: string, page: string)
    requires search != "" && page != "" && PlainText(search) && PlainText(page)
    ensures ProductsUrl(ProductsQueryParams(search, page, "", "", ""))
         == "/products?" + (("search" + "=" + search) + "&" + ("page" + "=" + page))
  {
    SearchAndPageKept(search, page);
    SearchAndPagePairs(search, page);
    JoinTwo("search" + "=" + search, "page" + "=" + page);
  }

  lemma SearchAndPageText(search: string, page: string)
    ensures "/products?" + (("search" + "=" + search) + "&" + ("page" + "=" + page))
         == "/products?search=" + search + "&page=" + page
  {
  }

  lemma SearchAndPageKept(search: string, page: string)
    requires search != "" && page != ""
    ensures FilteredQueryParams(ProductsQueryParams(search, page, "", "", "")) == [("search", search), ("page", page)]
  {
    KeepFirstTwo(Entries(ProductsQueryParams(search, page, "", "", "")));
  }

  lemma SearchAndPagePairs(search: string, page: string)
    requires PlainText(search) && PlainText(page)
    ensures FormUrlEncoding.Pairs([("search", search), ("page", page)]) == ["search" + "=" + search, "page" + "=" + page]
  {
    SearchAndPageKeysPlain();
    PairsOfTwo("search", search, "page", page);
  }

  lemma SearchAndPageKeysPlain()
    ensures PlainText("search") && PlainText("page")
  {
  }

  /** Two plain-text entries serialize to their own text. */
  lemma PairsOfTwo(n1: string, v1: string, n2: string, v2: string)
    requires PlainText(n1) && PlainText(v1) && PlainText(n2) && PlainText(v2)
    ensures FormUrlEncoding.Pairs([(n1, v1), (n2, v2)]) == [n1 + "=" + v1, n2 + "=" + v2]
  {
    var ps := FormUrlEncoding.Pairs([(n1, v1), (n2, v2)]);
    assert |ps| == 2 && ps[0] == FormUrlEncoding.Pair((n1, v1)) && ps[1] == FormUrlEncoding.Pair((n2, v2));
  }

  lemma JoinTwo(a: string, b: string)
    ensures Strings.Join([a, b], '&') == a + "&" + b
  {
  }

  lemma KeepFirstTwo(es: seq<(string, string)>)
    requires |es| == 5 && es[0].1 != "" && es[1].1 != ""
    requires es[2].1 == "" && es[3].1 == "" && es[4].1 == ""
    ensures NonEmptyEntries(es) == [es[0], es[1]]
  {
    var e1 := es[1..];
    var e2 := e1[1..];
    var e3 := e2[1..];
    var e4 := e3[1..];
    assert e4[1..] == [];
    assert NonEmptyEntries(e4) == [];
    assert NonEmptyEntries(e3) == [];
    assert NonEmptyEntries(e2) == [];
    assert NonEmptyEntries(e1) == [es[1]];
  }

  lemma KeepLast(es: seq<(string, string)>)
    requires |es| == 5 && es[4].1 != ""
    requires es[0].1 == "" && es[1].1 == "" && es[2].1 == "" && es[3].1 == ""
    ensures NonEmptyEntries(es) == [es[4]]
  {
    var e1 := es[1..];
    var e2 := e1[1..];
    var e3 := e2[1..];
    var e4 := e3[1..];
    assert e4 == [es[4]];
    assert e4[1..] == [];
    assert NonEmptyEntries(e4) == [es[4]];
    assert NonEmptyEntries(e3) == [es[4]];
    assert NonEmptyEntries(e2) == [es[4]];
    assert NonEmptyEntries(e1) == [es[4]];
  }

  /**
   * A single filter `k:v` in plain text reaches the server as
   * `filters=k%3Av`: the colon is percent-encoded.
   */
  lemma FiltersAreEncoded(k: string, v: string)
    requires PlainText(k) && PlainText(v)
    ensures ProductsUrl(ProductsQueryParams("", "", "", "", k + ":" + v))
         == "/products?filters=" + k + "%3A" + v
  {
    FiltersShape(k, v);
    FiltersText(k, v);
  }

  // Scaffolding for `FiltersAreEncoded`, split for the same reason as above.
  lemma FiltersShape(k: string, v: string)
    requires PlainText(k) && PlainText(v)
    ensures ProductsUrl(ProductsQueryParams("", "", "", "", k + ":" + v))
         == "/products?" + ("filters" + "=" + (k + "%3A" + v))
  {
    var f := k + ":" + v;
    FiltersKept(f);
    EncodeColonText(k, v);
    FiltersPair(f, k + "%3A" + v);
  }

  lemma FiltersKept(f: string)
    requires f != ""
    ensures FilteredQueryParams(ProductsQueryParams("", "", "", "", f)) == [("filters", f)]
  {
    KeepLast(Entries(ProductsQueryParams("", "", "", "", f)));
  }

  lemma FiltersPair(f: string, encoded: string)
    requires FormUrlEncoding.Encode(f) == encoded
    ensures FormUrlEncoding.Serialize([("filters", f)]) == "filters" + "=" + encoded
  {
    FiltersKeyPlain();
    SerializeOne("filters", f);
  }

  lemma FiltersKeyPlain()
    ensures PlainText("filters")
  {
  }

  /** A single entry with a plain-text name serializes to `name=` and the encoded value. */
  lemma SerializeOne(name: string, value: string)
    requires PlainText(name)
    ensures FormUrlEncoding.Serialize([(name, value)]) == name + "=" + FormUrlEncoding.Encode(value)
  {
    var ps := FormUrlEncoding.Pairs([(name, value)]);
    assert ps == [FormUrlEncoding.Pair((name, value))];
  }

  lemma EncodeColonText(k: string, v: string)
    requires PlainText(k) && PlainText(v)
    ensures FormUrlEncoding.Encode(k + ":" + v) == k + "%3A" + v
  {
    assert k + ":" + v == k + ([':'] + v);
    EncodeAppend(k, [':'] + v);
    EncodeAppend([':'], v);
    EncodeColon();
  }

  lemma EncodeColon()
    ensures FormUrlEncoding.Encode([':']) == "%3A"
  {
    assert FormUrlEncoding.Utf8(':') == [58];
    assert FormUrlEncoding.PercentBytes([58]) == ['%', '3', 'A'];
    assert FormUrlEncoding.Encode([':']) == FormUrlEncoding.EncodeChar(':') + FormUrlEncoding.Encode([]);
  }

  lemma FiltersText(k: string, v: string)
    ensures "/products?" + ("filters" + "=" + (k + "%3A" + v)) == "/products?filters=" + k + "%3A" + v
  {
  }

  lemma {:induction false} EncodeAppend(a: string, b: string)
    ensures FormUrlEncoding.Encode(a + b) == FormUrlEncoding.Encode(a) + FormUrlEncoding.Encode(b)
  {
    if |a| > 0 {
      var ab := a + b;
      assert ab[0] == a[0];
      assert ab[1..] == a[1..] + b;
      EncodeAppend(a[1..], b);
      calc {
        FormUrlEncoding.Encode(ab);
        FormUrlEncoding.EncodeChar(a[0]) + FormUrlEncoding.Encode(a[1..] + b);
        FormUrlEncoding.EncodeChar(a[0]) + (FormUrlEncoding.Encode(a[1..]) + FormUrlEncoding.Encode(b));
        (FormUrlEncoding.EncodeChar(a[0]) + FormUrlEncoding.Encode(a[1..])) + FormUrlEncoding.Encode(b);
        FormUrlEncoding.Encode(a) + FormUrlEncoding.Encode(b);
      }
    } else {
      assert a + b == b;
    }
  }

  datatype Verb = GET | POST | DELETE

  datatype Request = Request(verb: Verb, path: string)

  const ProductsPath := "/products"

  /** `/products/${id}`. */
  function ProductPath(id: int): (path: string)
    ensures Strings.StartsWith(path, ProductsPath + "/")
    ensures Strings.ParseInt(path[|ProductsPath| + 1..]) == id
  {
    var path := ProductsPath + "/" + Strings.IntToString(id);
    assert path[..|ProductsPath| + 1] == ProductsPath + "/";
    assert path[|ProductsPath| + 1..] == Strings.IntToString(id);
    Strings.ParseIntToString(id);
    path
  }

  /** `showProduct(id)`: a GET of the product's own path. */
  function ShowProduct(id: int): (r: Request)
    ensures r.verb == GET && Strings.StartsWith(r.path, ProductsPath + "/")
    ensures Strings.ParseInt(r.path[|ProductsPath| + 1..]) == id
  {
    Request(GET, ProductPath(id))
  }

  /** `createProduct`: a POST to the collection path. */
  function CreateProduct(): (r: Request)
    ensures r.verb == POST && r.path == "/products"
  {
    Request(POST, ProductsPath)
  }

  /** `updateProduct({ id })`: a POST (not a PUT) to the product's own path. */
  function UpdateProduct(id: int): (r: Request)
    ensures r.verb == POST && Strings.StartsWith(r.path, ProductsPath + "/")
    ensures Strings.ParseInt(r.path[|ProductsPath| + 1..]) == id
  {
    Request(POST, ProductPath(id))
  }

  /** `deleteProduct(id)`: a DELETE of the product's own path. */
  function DeleteProduct(id: int): (r: Request)
    ensures r.verb == DELETE && Strings.StartsWith(r.path, ProductsPath + "/")
    ensures Strings.ParseInt(r.path[|ProductsPath| + 1..]) == id
  {
    Request(DELETE, ProductPath(id))
  }

  /** Distinct products get distinct paths; the collection path is none of them. */
  lemma ProductPathsDistinct(a: int, b: int)
    ensures ProductPath(a) == ProductPath(b) <==> a == b
    ensures CreateProduct().path != ProductPath(a)
    ensures ShowProduct(a).path == UpdateProduct(a).path == DeleteProduct(a).path
  {
    if ProductPath(a) == ProductPath(b) {
      assert ProductPath(a)[|ProductsPath| + 1..] == ProductPath(b)[|ProductsPath| + 1..];
    }
    assert |ProductPath(a)| > |ProductsPath|;
  }
}
