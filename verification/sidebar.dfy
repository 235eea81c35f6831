/** The sidebar's collapsible navigation groups: which groups start
    expanded, how clicking a group title toggles it, and which groups show
    their links. */
module Sidebar {
  import opened Common
  import opened Search

  /** A navigation group; a group without a title cannot be collapsed. */
  datatype NavGroup = NavGroup(id: string, title: Option<string>)

  /** The three groups of the sidebar, in order. */
  function NavGroups(): (gs: seq<NavGroup>)
    ensures |gs| == 3 && gs[0].id == "main" && gs[0].title.None?
    ensures gs[1].id == "lms" && gs[2].id == "shop"
  {
    [NavGroup("main", None), NavGroup("lms", Some("LMS Management")), NavGroup("shop", Some("Shop & Content"))]
  }

  /** The ids of the expanded groups, in the order they were expanded. */
  type Expanded = seq<string>

  predicate Distinct(s: Expanded) {
    forall i, j :: 0 <= i < j < |s| ==> s[i] != s[j]
  }

  /** Both titled groups start expanded. */
  function InitialExpanded(): (e: Expanded)
    ensures Distinct(e)
    ensures forall g :: g in e <==> g == "lms" || g == "shop"
  {
    ["lms", "shop"]
  }

  /** `toggleGroup`: drop the group when it is expanded, otherwise append
      it at the end. */
  function Toggle(e: Expanded, group: string): (r: Expanded)
    ensures group in r <==> group !in e
    ensures forall g :: g != group ==> (g in r <==> g in e)
    ensures group in e ==> |r| < |e|
    ensures group !in e ==> r == e + [group]
  {
    if group in e then
      var r := Filter(e, (g: string) => g != group);
      assert |r| < |e| by {
        var i :| 0 <= i < |e| && e[i] == group;
        FilterDropsOne(e, i, (g: string) => g != group);
      }
      r
    else e + [group]
  }

  /** A filter that rejects some element is strictly shorter than its input. */
  lemma {:induction false} FilterDropsOne<T>(s: seq<T>, i: int, p: T -> bool)
    requires 0 <= i < |s| && !p(s[i])
    ensures Count(s, p) < |s|
  {
    if i == 0 {
      assert Count(s, p) == Count(s[1..], p);
    } else {
      FilterDropsOne(s[1..], i - 1, p);
    }
  }

  /** Toggling keeps the list free of repeated ids. */
  lemma ToggleKeepsDistinct(e: Expanded, group: string)
    requires Distinct(e)
    ensures Distinct(Toggle(e, group))
  {
    if group in e {
      FilterKeepsPairwise(e, (g: string) => g != group, (a: string, b: string) => a != b);
    } else {
      var r := e + [group];
      forall i, j | 0 <= i < j < |r|
        ensures r[i] != r[j]
      {
        if j == |e| {
          assert r[i] == e[i];
        }
      }
    }
  }

  /** Toggling the same group twice restores which groups are expanded
      (the group may come back at a different place in the list). */
  lemma ToggleTwice(e: Expanded, group: string)
    ensures forall g :: g in Toggle(Toggle(e, group), group) <==> g in e
  {
  }

  /** Whether a title shows: the `group.title &&` test, false for a missing
      or empty title. */
  predicate HasTitle(group: NavGroup) {
    group.title.Some? && group.title.value != ""
  }

  /** The links of a group are hidden only when it has a title and is not
      expanded. */
  predicate ShowsItems(group: NavGroup, e: Expanded) {
    !(HasTitle(group) && group.id !in e)
  }

  /** An untitled group always shows its links; a titled one exactly when
      it is expanded. */
  lemma VisibilityRule(group: NavGroup, e: Expanded)
    ensures !HasTitle(group) ==> ShowsItems(group, e)
    ensures HasTitle(group) ==> (ShowsItems(group, e) <==> group.id in e)
  {
  }

  /** On first render every group shows its links; clicking a titled
      group's title hides its links and leaves the other groups as they
      were. */
  lemma FirstRenderAndToggle(group: NavGroup, other: NavGroup)
    requires group in NavGroups() && other in NavGroups()
    requires HasTitle(group) && other.id != group.id
    ensures ShowsItems(group, InitialExpanded()) && ShowsItems(other, InitialExpanded())
    ensures !ShowsItems(group, Toggle(InitialExpanded(), group.id))
    ensures ShowsItems(other, Toggle(InitialExpanded(), group.id))
  {
  }
}
