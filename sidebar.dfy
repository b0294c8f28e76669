/**
 * The sidebar: which navigation sections are collapsed, the toggle of one
 * section, the prefix test that marks a section active for the current path,
 * and the effect that expands active sections when the location changes.
 */
module Sidebar {
  import opened Wrappers
  import Strings

  /** A sub-link; an absent `activePaths` is the empty list. */
  datatype SubLink = SubLink(title: string, to: string, activePaths: seq<string>)

  datatype NavigationItem = NavigationItem(title: string, to: Option<string>, subLinks: Option<seq<SubLink>>)

  const NavigationItems: seq<NavigationItem> := [
    NavigationItem("Dashboard", Some("/"), None),
    NavigationItem("Products", None, Some([
      SubLink("All Products", "/products/all", ["/products/edit"]),
      SubLink("Create Product", "/products/create", [])]))
  ]

  /** Section title to "collapsed". */
  type CollapsedState = map<string, bool>

  /** `activePaths?.some((p) => pathname.startsWith(p))`. */
  function AnyPrefix(pathname: string, prefixes: seq<string>): (r: bool)
    ensures r <==> exists i :: 0 <= i < |prefixes| && Strings.StartsWith(pathname, prefixes[i])
  {
    if |prefixes| == 0 then false
    else Strings.StartsWith(pathname, prefixes[0]) || AnyPrefix(pathname, prefixes[1..])
  }

  predicate SubLinkMatches(pathname: string, link: SubLink) {
    Strings.StartsWith(pathname, link.to) || AnyPrefix(pathname, link.activePaths)
  }

  /** `isSubLinkActive`: the path starts with some sub-link's target or one of its active paths. */
  function IsSubLinkActive(pathname: string, subLinks: seq<SubLink>): (r: bool)
    ensures r <==> exists i :: 0 <= i < |subLinks| && SubLinkMatches(pathname, subLinks[i])
  {
    if |subLinks| == 0 then false
    else SubLinkMatches(pathname, subLinks[0]) || IsSubLinkActive(pathname, subLinks[1..])
  }

  /** A path under `/products/edit` makes the Products section active. */
  lemma EditPathActivatesProducts(pathname: string)
    requires Strings.StartsWith(pathname, "/products/edit")
    ensures NavigationItems[1].title == "Products"
    ensures IsSubLinkActive(pathname, NavigationItems[1].subLinks.value)
  {
    var links := NavigationItems[1].subLinks.value;
    assert AnyPrefix(pathname, links[0].activePaths);
    assert SubLinkMatches(pathname, links[0]);
  }

  predicate HasTitle(items: seq<NavigationItem>, n: int, t: string)
    requires 0 <= n <= |items|
  {
    exists j :: 0 <= j < n && items[j].title == t
  }

  /** The `reduce` building the initial state: every section starts collapsed. */
  method InitialCollapsedState(items: seq<NavigationItem>) returns (acc: CollapsedState)
    ensures forall t :: t in acc <==> HasTitle(items, |items|, t)
    ensures forall t :: t in acc ==> acc[t]
  {
    acc := map[];
    for i := 0 to |items|
      invariant forall t :: t in acc <==> HasTitle(items, i, t)
      invariant forall t :: t in acc ==> acc[t]
    {
      acc := acc[items[i].title := true];
    }
  }

  /** `toggleCollapse(title)`: `!prevState[title]`, where a missing entry reads as false. */
  function Toggled(state: CollapsedState, title: string): (r: CollapsedState)
    ensures r.Keys == state.Keys + {title}
    ensures r[title] == !(title in state && state[title])
    ensures forall t :: t in state && t != title ==> r[t] == state[t]
  {
    state[title := !(title in state && state[title])]
  }

  /** Toggling twice restores a section that had an entry. */
  lemma ToggleTwice(state: CollapsedState, title: string)
    requires title in state
    ensures Toggled(Toggled(state, title), title) == state
  {
  }

  predicate SectionActive(item: NavigationItem, pathname: string) {
    item.subLinks.Some? && IsSubLinkActive(pathname, item.subLinks.value)
  }

  predicate ActiveTitle(items: seq<NavigationItem>, n: int, t: string, pathname: string)
    requires 0 <= n <= |items|
  {
    exists j :: 0 <= j < n && items[j].title == t && SectionActive(items[j], pathname)
  }

  /**
   * The location effect's `forEach`: every section with an active sub-link is
   * expanded, every other entry keeps its flag.
   */
  method ExpandActiveSections(state: CollapsedState, items: seq<NavigationItem>, pathname: string)
    returns (next: CollapsedState)
    ensures forall t :: t in next <==> t in state || ActiveTitle(items, |items|, t, pathname)
    ensures forall t :: t in next ==>
      next[t] == if ActiveTitle(items, |items|, t, pathname) then false else state[t]
  {
    next := state;
    for i := 0 to |items|
      invariant forall t :: t in next <==> t in state || ActiveTitle(items, i, t, pathname)
      invariant forall t :: t in next ==>
        next[t] == if ActiveTitle(items, i, t, pathname) then false else state[t]
    {
      var nav := items[i];
      if nav.subLinks.Some? {
        if IsSubLinkActive(pathname, nav.subLinks.value) {
          next := next[nav.title := false];
        }
      }
    }
  }

  /** The location effect never collapses a section. */
  lemma ExpandNeverCollapses(state: CollapsedState, next: CollapsedState, items: seq<NavigationItem>, pathname: string, t: string)
    requires forall t :: t in next <==> t in state || ActiveTitle(items, |items|, t, pathname)
    requires forall t :: t in next ==>
      next[t] == if ActiveTitle(items, |items|, t, pathname) then false else state[t]
    requires t in state && !state[t]
    ensures t in next && !next[t]
  {
  }

  class SidebarState {
    var collapsed: CollapsedState

    /** The initial state: every navigation item collapsed. */
    constructor ()
      ensures forall t :: t in collapsed <==> HasTitle(NavigationItems, |NavigationItems|, t)
      ensures forall t :: t in collapsed ==> collapsed[t]
      ensures forall i :: 0 <= i < |NavigationItems| ==> !SubLinksListed(NavigationItems[i].title)
    {
      var initial := InitialCollapsedState(NavigationItems);
      collapsed := initial;
    }

    method ToggleCollapse(title: string)
      modifies this
      ensures collapsed == Toggled(old(collapsed), title)
      ensures SubLinksListed(title) == !old(SubLinksListed(title))
      ensures forall t :: t != title ==> SubLinksListed(t) == old(SubLinksListed(t))
    {
      collapsed := collapsed[title := !(title in collapsed && collapsed[title])];
    }

    method OnLocationChange(pathname: string)
      modifies this
      ensures forall t :: t in collapsed <==> t in old(collapsed) || ActiveTitle(NavigationItems, |NavigationItems|, t, pathname)
      ensures forall t :: t in collapsed ==>
        collapsed[t] == if ActiveTitle(NavigationItems, |NavigationItems|, t, pathname) then false else old(collapsed)[t]
      ensures Strings.StartsWith(pathname, "/products/edit") ==> SubLinksListed("Products")
      ensures forall t :: old(SubLinksListed(t)) ==> SubLinksListed(t)
    {
      var next := ExpandActiveSections(collapsed, NavigationItems, pathname);
      collapsed := next;
      if Strings.StartsWith(pathname, "/products/edit") {
        EditPathActivatesProducts(pathname);
        assert SectionActive(NavigationItems[1], pathname);
        assert ActiveTitle(NavigationItems, |NavigationItems|, "Products", pathname);
      }
    }

    /** `!collapsedState[nav.title]`: the sub-links are listed only for an expanded section. */
    function SubLinksListed(title: string): (listed: bool)
      reads this
      ensures listed <==> !(title in collapsed && collapsed[title])
    {
      !(title in collapsed && collapsed[title])
    }
  }
}
