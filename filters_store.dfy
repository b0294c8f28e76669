/**
 * The filters store: a table of filter keys and values kept in insertion
 * order, read once from the URL's `filters` parameter (`k:v;k2:v2`), edited
 * by `setFilter`, `removeFilter` and `resetFilters`, and written back as the
 * `key:value` strings joined by `;`.
 */
module FiltersStore {
  import opened Wrappers
  import Strings

  /** A JavaScript object's entries, in insertion order. */
  type Table = seq<(string, string)>

  function Keys(t: Table): set<string> {
    set i | 0 <= i < |t| :: t[i].0
  }

  lemma KeysCons(e: (string, string), t: Table)
    ensures Keys([e] + t) == {e.0} + Keys(t)
  {
    var s := [e] + t;
    forall x | x in Keys(s) ensures x in {e.0} + Keys(t) {
      var i :| 0 <= i < |s| && s[i].0 == x;
      if i > 0 { assert t[i - 1] == s[i]; }
    }
    forall x | x in Keys(t) ensures x in Keys(s) {
      var i :| 0 <= i < |t| && t[i].0 == x;
      assert s[i + 1] == t[i];
    }
    assert s[0] == e;
  }

  predicate DistinctKeys(t: Table) {
    forall i, j :: 0 <= i < j < |t| ==> t[i].0 != t[j].0
  }

  /** `t[k]`. */
  function Lookup(t: Table, k: string): (r: Option<string>)
    ensures r.Some? <==> k in Keys(t)
  {
    if |t| == 0 then None
    else if t[0].0 == k then Some(t[0].1)
    else
      assert t == [t[0]] + t[1..];
      KeysCons(t[0], t[1..]);
      Lookup(t[1..], k)
  }

  /**
   * `{ ...t, [k]: v }`: an existing key keeps its place and takes the new
   * value; a new key goes to the end.
   */
  function Put(t: Table, k: string, v: string): (r: Table)
    ensures Keys(r) == Keys(t) + {k}
    ensures forall k' :: Lookup(r, k') == if k' == k then Some(v) else Lookup(t, k')
    ensures k !in Keys(t) ==> r == t + [(k, v)]
    ensures k in Keys(t) ==> |r| == |t|
    ensures forall e :: e in r ==> e == (k, v) || e in t
  {
    if |t| == 0 then
      KeysCons((k, v), []);
      assert [(k, v)] + [] == [(k, v)];
      [(k, v)]
    else
      assert t == [t[0]] + t[1..];
      KeysCons(t[0], t[1..]);
      if t[0].0 == k then
        KeysCons((k, v), t[1..]);
        [(k, v)] + t[1..]
      else
        var rest := Put(t[1..], k, v);
        KeysCons(t[0], rest);
        [t[0]] + rest
  }

  /**
   * Setting a key that the table already holds replaces that entry in place:
   * the entries before and after it, and their order, are unchanged.
   */
  lemma {:induction false} PutInPlace(t: Table, k: string, v: string, i: int)
    requires DistinctKeys(t) && 0 <= i < |t| && t[i].0 == k
    ensures Put(t, k, v) == t[..i] + [(k, v)] + t[i + 1..]
  {
    assert t == [t[0]] + t[1..];
    if i > 0 {
      assert t[0].0 != k;
      var rest := t[1..];
      DistinctTail(t);
      assert rest[i - 1] == t[i];
      PutInPlace(rest, k, v, i - 1);
      assert rest[..i - 1] == t[1..i];
      assert rest[i..] == t[i + 1..];
      assert [t[0]] + t[1..i] == t[..i];
    }
  }

  lemma DistinctTail(t: Table)
    requires DistinctKeys(t) && |t| > 0
    ensures DistinctKeys(t[1..])
  {
    var rest := t[1..];
    forall a, b | 0 <= a < b < |rest| ensures rest[a].0 != rest[b].0 {
      assert rest[a] == t[a + 1] && rest[b] == t[b + 1];
    }
  }

  /** Setting a key keeps the keys distinct. */
  lemma {:induction false} PutKeepsDistinct(t: Table, k: string, v: string)
    requires DistinctKeys(t)
    ensures DistinctKeys(Put(t, k, v))
  {
    if |t| > 0 {
      var r := Put(t, k, v);
      assert t == [t[0]] + t[1..];
      KeysCons(t[0], t[1..]);
      if t[0].0 != k {
        PutKeepsDistinct(t[1..], k, v);
        var rest := Put(t[1..], k, v);
        assert t[0].0 !in Keys(rest);
        DistinctCons(t[0], rest);
      } else {
        forall i, j | 0 <= i < j < |r| ensures r[i].0 != r[j].0 {
          assert r[j] == t[j];
          if i > 0 { assert r[i] == t[i]; }
        }
      }
    }
  }

  lemma DistinctCons(e: (string, string), t: Table)
    requires DistinctKeys(t) && e.0 !in Keys(t)
    ensures DistinctKeys([e] + t)
  {
    var s := [e] + t;
    forall i, j | 0 <= i < j < |s| ensures s[i].0 != s[j].0 {
      assert s[j] == t[j - 1];
      if i > 0 { assert s[i] == t[i - 1]; }
    }
  }

  /** `delete t[k]` on a copy. */
  function Delete(t: Table, k: string): (r: Table)
    ensures Keys(r) == Keys(t) - {k}
    ensures forall k' :: Lookup(r, k') == if k' == k then None else Lookup(t, k')
    ensures DistinctKeys(t) ==> DistinctKeys(r)
    ensures |r| <= |t|
  {
    if |t| == 0 then []
    else
      assert t == [t[0]] + t[1..];
      KeysCons(t[0], t[1..]);
      var rest := Delete(t[1..], k);
      if t[0].0 == k then rest
      else
        KeysCons(t[0], rest);
        [t[0]] + rest
  }

  /** Deleting a stored key closes the gap: the other entries keep their order. */
  lemma {:induction false} DeleteInPlace(t: Table, k: string, i: int)
    requires DistinctKeys(t) && 0 <= i < |t| && t[i].0 == k
    ensures Delete(t, k) == t[..i] + t[i + 1..]
  {
    assert t == [t[0]] + t[1..];
    var rest := t[1..];
    DistinctTail(t);
    if i == 0 {
      assert k !in Keys(rest) by {
        forall j | 0 <= j < |rest| ensures rest[j].0 != k {
          assert rest[j] == t[j + 1];
        }
      }
      DeleteAbsent(rest, k);
    } else {
      assert t[0].0 != k;
      assert rest[i - 1] == t[i];
      DeleteInPlace(rest, k, i - 1);
      assert rest[..i - 1] == t[1..i];
      assert rest[i..] == t[i + 1..];
      assert [t[0]] + t[1..i] == t[..i];
    }
  }

  /** Deleting a key that is not stored leaves the table as it is. */
  lemma {:induction false} DeleteAbsent(t: Table, k: string)
    requires k !in Keys(t)
    ensures Delete(t, k) == t
  {
    if |t| > 0 {
      assert t == [t[0]] + t[1..];
      KeysCons(t[0], t[1..]);
      DeleteAbsent(t[1..], k);
    }
  }

  // ---- serialisation: getFormattedFilters ----

  function FormatEntry(e: (string, string)): string {
    e.0 + ":" + e.1
  }

  function Segments(t: Table): seq<string> {
    seq(|t|, i requires 0 <= i < |t| => FormatEntry(t[i]))
  }

  /** The entries as `key:value`, joined by `;`. */
  function Format(t: Table): (s: string)
    ensures s == "" <==> t == []
  {
    Strings.JoinEmpty(Segments(t), ';');
    assert |t| == 1 ==> Segments(t)[0] == FormatEntry(t[0]);
    Strings.Join(Segments(t), ';')
  }

  // ---- parsing: filtersFromUrl ----

  /** `const [key, value] = filter.split(":")`, kept when both are non-empty. */
  function ParseSegment(seg: string): (r: Option<(string, string)>)
    ensures r.Some? ==> r.value.0 != "" && r.value.1 != ""
    ensures r.Some? ==> ':' !in r.value.0 && ':' !in r.value.1
  {
    var pieces := Strings.Split(seg, ':');
    var key := pieces[0];
    var value := if |pieces| > 1 then pieces[1] else "";
    if key != "" && value != "" then Some((key, value)) else None
  }

  /** The `reduce` over the `;`-separated segments, from the left. */
  function ParseSegments(segs: seq<string>): (r: Table)
    ensures |r| <= |segs|
    ensures forall e :: e in r ==> e.0 != "" && e.1 != "" && ':' !in e.0 && ':' !in e.1
    decreases |segs|
  {
    if |segs| == 0 then []
    else
      var acc := ParseSegments(segs[..|segs| - 1]);
      match ParseSegment(segs[|segs| - 1])
      case None => acc
      case Some(e) => Put(acc, e.0, e.1)
  }

  /** `filtersFromUrl`: an absent or empty parameter means no filters at all. */
  function Parse(filtersParam: Option<string>): (r: Option<Table>)
    ensures r.None? <==> filtersParam == None || filtersParam == Some("")
    ensures r.Some? ==> WellFormed(r.value)
  {
    if filtersParam == None || filtersParam == Some("") then None
    else
      ParseSegmentsWellFormed(Strings.Split(filtersParam.value, ';'));
      Some(ParseSegments(Strings.Split(filtersParam.value, ';')))
  }

  /** Tables the codec carries unchanged: keys once, no empty or reserved text. */
  predicate WellFormed(t: Table) {
    DistinctKeys(t) && forall i :: 0 <= i < |t| ==> EntryOk(t[i])
  }

  predicate EntryOk(e: (string, string)) {
    && e.0 != "" && e.1 != ""
    && ':' !in e.0 && ':' !in e.1
    && ';' !in e.0 && ';' !in e.1
  }

  lemma ParseEntry(k: string, v: string)
    requires k != "" && v != "" && ':' !in k && ':' !in v
    ensures ParseSegment(FormatEntry((k, v))) == Some((k, v))
  {
    assert FormatEntry((k, v)) == k + [':'] + v;
    Strings.SplitAfterSeparator(k, v, ':');
  }

  /** In `k:v:rest`, only the text between the first and second colon is the value. */
  lemma ParseSegmentExtraColons(k: string, v: string, rest: string)
    requires ':' !in k && ':' !in v
    ensures ParseSegment(k + ":" + v + ":" + rest) ==
            if k != "" && v != "" then Some((k, v)) else None
  {
    assert k + ":" + v + ":" + rest == k + [':'] + (v + [':'] + rest);
    Strings.SplitAfterSeparator(k, v + [':'] + rest, ':');
    Strings.SplitAfterSeparator(v, rest, ':');
  }

  /** A segment that does not parse is dropped; one that does sets its key. */
  lemma ParseSegmentsStep(segs: seq<string>, seg: string)
    ensures ParseSegment(seg).None? ==> ParseSegments(segs + [seg]) == ParseSegments(segs)
    ensures ParseSegment(seg).Some? ==>
      var e := ParseSegment(seg).value;
      Lookup(ParseSegments(segs + [seg]), e.0) == Some(e.1) &&
      Keys(ParseSegments(segs + [seg])) == Keys(ParseSegments(segs)) + {e.0}
  {
    assert (segs + [seg])[..|segs|] == segs;
  }

  lemma {:induction false} ParseSegmentsOfSegments(t: Table)
    requires WellFormed(t)
    ensures ParseSegments(Segments(t)) == t
    decreases |t|
  {
    if |t| > 0 {
      var n := |t| - 1;
      var init := t[..n];
      assert WellFormed(init) by {
        forall i | 0 <= i < |init| ensures init[i] == t[i] { }
      }
      assert Segments(t)[..n] == Segments(init);
      ParseSegmentsOfSegments(init);
      ParseEntry(t[n].0, t[n].1);
      assert t[n].0 !in Keys(init);
      assert init + [t[n]] == t;
    }
  }

  /** Round trip: parsing the serialised table gives the table back. */
  lemma ParseFormat(t: Table)
    requires WellFormed(t)
    ensures Parse(Some(Format(t))) == if t == [] then None else Some(t)
  {
    if t != [] {
      var segs := Segments(t);
      forall i | 0 <= i < |segs| ensures ';' !in segs[i] {
        assert segs[i] == t[i].0 + [':'] + t[i].1;
      }
      Strings.SplitJoin(segs, ';');
      ParseSegmentsOfSegments(t);
    }
  }

  /** What the parser produces is always carried unchanged by the codec. */
  lemma {:induction false} ParseSegmentsWellFormed(segs: seq<string>)
    requires forall i :: 0 <= i < |segs| ==> ';' !in segs[i]
    ensures WellFormed(ParseSegments(segs))
    decreases |segs|
  {
    if |segs| > 0 {
      var init := segs[..|segs| - 1];
      var last := segs[|segs| - 1];
      var acc := ParseSegments(init);
      ParseSegmentsWellFormed(init);
      match ParseSegment(last)
      case None =>
      case Some(e) =>
        var r := Put(acc, e.0, e.1);
        PutKeepsDistinct(acc, e.0, e.1);
        assert ';' !in e.0 && ';' !in e.1 by {
          var pieces := Strings.Split(last, ':');
          assert e.0 == pieces[0] && e.1 == pieces[1];
          SplitPiecesKeepAbsent(last, ':', ';');
        }
        forall i | 0 <= i < |r| ensures EntryOk(r[i]) {
          assert r[i] in r;
          if r[i] != e {
            var j :| 0 <= j < |acc| && acc[j] == r[i];
          }
        }
    }
  }

  /** A character absent from the input is absent from every piece. */
  lemma {:induction false} SplitPiecesKeepAbsent(s: string, sep: char, c: char)
    requires c !in s
    ensures forall i :: 0 <= i < |Strings.Split(s, sep)| ==> c !in Strings.Split(s, sep)[i]
  {
    if |s| > 0 {
      assert c !in s[1..];
      SplitPiecesKeepAbsent(s[1..], sep, c);
    }
  }

  /** Serialising a parsed table and parsing it again changes nothing. */
  lemma ParseStable(filtersParam: Option<string>)
    requires Parse(filtersParam).Some?
    ensures var t := Parse(filtersParam).value;
            Parse(Some(Format(t))) == if t == [] then None else Some(t)
  {
    var segs := Strings.Split(filtersParam.value, ';');
    ParseSegmentsWellFormed(segs);
    ParseFormat(Parse(filtersParam).value);
  }

  /**
   * The store. `filters` is `undefined` (`None`) until a filter is set, and
   * again after `resetFilters`; after `removeFilter` it is an object, possibly
   * empty.
   */
  class FiltersState {
    var filters: Option<Table>

    ghost predicate Valid()
      reads this
    {
      filters.Some? ==> DistinctKeys(filters.value)
    }

    /** `state.filters || {}`. */
    function Entries(): Table
      reads this
    {
      filters.GetOr([])
    }

    /** The initial state reads the URL's `filters` parameter. */
    constructor (filtersParam: Option<string>)
      ensures Valid()
      ensures filters == Parse(filtersParam)
    {
      filters := Parse(filtersParam);
      if filtersParam != None && filtersParam != Some("") {
        ParseSegmentsWellFormed(Strings.Split(filtersParam.value, ';'));
      }
    }

    method SetFilter(key: string, value: string)
      requires Valid()
      modifies this
      ensures Valid()
      ensures filters == Some(Put(old(Entries()), key, value))
      ensures Lookup(Entries(), key) == Some(value)
      ensures forall k :: k != key ==> Lookup(Entries(), k) == Lookup(old(Entries()), k)
    {
      PutKeepsDistinct(Entries(), key, value);
      filters := Some(Put(Entries(), key, value));
    }

    method RemoveFilter(key: string)
      requires Valid()
      modifies this
      ensures Valid()
      ensures filters == Some(Delete(old(Entries()), key))
      ensures Lookup(Entries(), key) == None
      ensures forall k :: k != key ==> Lookup(Entries(), k) == Lookup(old(Entries()), k)
    {
      filters := Some(Delete(Entries(), key));
    }

    method ResetFilters()
      modifies this
      ensures Valid()
      ensures filters == None
      ensures !FiltersExist() && GetFormattedFilters() == ""
    {
      filters := None;
    }

    /** `getFormattedFilters`: empty exactly when there are no entries. */
    function GetFormattedFilters(): (s: string)
      reads this
      ensures s == "" <==> Entries() == []
      ensures Valid() && (forall i :: 0 <= i < |Entries()| ==> EntryOk(Entries()[i])) ==>
        Parse(Some(s)) == if Entries() == [] then None else Some(Entries())
    {
      assert Valid() && (forall i :: 0 <= i < |Entries()| ==> EntryOk(Entries()[i])) ==>
        Parse(Some(Format(Entries()))) == if Entries() == [] then None else Some(Entries())
      by {
        if Valid() && (forall i :: 0 <= i < |Entries()| ==> EntryOk(Entries()[i])) {
          ParseFormat(Entries());
        }
      }
      Format(Entries())
    }

    /** `filtersExist`: some key has a value. */
    function FiltersExist(): (b: bool)
      reads this
      ensures b <==> exists k :: Lookup(Entries(), k).Some?
    {
      if |Entries()| > 0 then
        assert Lookup(Entries(), Entries()[0].0).Some?;
        true
      else false
    }
  }
}
