/**
 * The services section's category tabs (src/components/Home2.js): the
 * catalogue of services with their tags, and the list shown for the active
 * tab.
 */
module Services {
  import Lists

  /** A service card as the filter sees it: its title and its tags. */
  datatype Service = Service(title: string, tags: seq<string>)

  /** `ALL_ITEMS`, in display order. */
  const AllItems: seq<Service> := [
    Service("Brand Strategy", ["Brand"]),
    Service("Logo & Identity", ["Brand", "Design"]),
    Service("Web & UI", ["Digital", "Design"]),
    Service("Guidelines & Collateral", ["Brand", "Content"]),
    Service("Design Ops", ["Digital"]),
    Service("Motion & Micro-UX", ["Digital", "Design"])]

  /** The default `categories` prop: the tabs shown, "All" first. */
  const Categories: seq<string> := ["All", "Brand", "Design", "Digital", "Content"]

  /** `i.tags.includes(active)` */
  predicate Tagged(active: string, s: Service) { active in s.tags }

  /** Whether the tab `active` lists the service `s`. */
  predicate Listed(active: string, s: Service) { active == "All" || Tagged(active, s) }

  /**
   * `filtered` for the tab `active` over the catalogue `items`: everything
   * for "All", otherwise the services carrying that tag, each as often as
   * the catalogue has it, in catalogue order.
   */
  function Shown(items: seq<Service>, active: string): (r: seq<Service>)
    ensures active == "All" ==> r == items
    ensures forall s :: multiset(r)[s] == if Listed(active, s) then multiset(items)[s] else 0
    ensures Lists.IsSubsequence(r, items)
  {
    if active == "All" then
      Lists.SubsequenceOfItself(items);
      items
    else
      Lists.FilterIsSubsequence(items, s => Tagged(active, s));
      Lists.Filter(items, s => Tagged(active, s))
  }

  /**
   * Exactly one list meets `Shown`'s description: any sub-sequence of the
   * catalogue with those counts is the one shown.
   */
  lemma ShownIsUnique(items: seq<Service>, active: string, r: seq<Service>)
    requires Lists.IsSubsequence(r, items)
    requires forall s :: multiset(r)[s] == if Listed(active, s) then multiset(items)[s] else 0
    ensures r == Shown(items, active)
  {
    Lists.FilterUnique(items, s => Listed(active, s), r);
    if active == "All" {
      Lists.FilterAll(items, s => Listed(active, s));
    } else {
      FilterSameTest(items, active);
    }
  }

  lemma {:induction false} FilterSameTest(items: seq<Service>, active: string)
    requires active != "All"
    ensures Lists.Filter(items, s => Listed(active, s)) == Lists.Filter(items, s => Tagged(active, s))
    decreases |items|
  {
    if items != [] { FilterSameTest(items[1..], active); }
  }

  /** `filtered` on the page's own catalogue: it depends on the active tab alone. */
  function Filtered(active: string): (r: seq<Service>)
    ensures active == "All" ==> r == AllItems
    ensures forall s :: multiset(r)[s] == if Listed(active, s) then multiset(AllItems)[s] else 0
    ensures Lists.IsSubsequence(r, AllItems)
    ensures |r| <= |AllItems|
  {
    Lists.SubsequenceLength(Shown(AllItems, active), AllItems);
    Shown(AllItems, active)
  }

  /** A tag no service carries leaves the list empty. */
  lemma UnknownTagShowsNothing(items: seq<Service>, active: string)
    requires active != "All"
    requires forall k :: 0 <= k < |items| ==> active !in items[k].tags
    ensures Shown(items, active) == []
  {
    Lists.FilterNone(items, s => Tagged(active, s));
  }

  /** A service the tab lists is shown. */
  lemma ShownMember(items: seq<Service>, active: string, k: nat)
    requires k < |items| && Listed(active, items[k])
    ensures items[k] in Shown(items, active)
  {
    assert multiset(items)[items[k]] > 0;
  }

  /** A tag carried by the `j`-th service of the catalogue shows something. */
  lemma TabShows(tag: string, j: nat)
    requires j < |AllItems| && tag in AllItems[j].tags
    ensures Filtered(tag) != []
  {
    ShownMember(AllItems, tag, j);
  }

  /** Every default tab other than "All" shows at least one service. */
  lemma DefaultTabsNonEmpty(k: nat)
    requires 1 <= k < |Categories|
    ensures Filtered(Categories[k]) != []
  {
    if k == 1 { BrandTab(k); }
    else if k == 2 { DesignTab(k); }
    else if k == 3 { DigitalTab(k); }
    else { ContentTab(k); }
  }

  lemma BrandTab(k: nat)
    requires k == 1
    ensures Filtered(Categories[k]) != []
  {
    TabShows(Categories[k], 0);
  }

  lemma DesignTab(k: nat)
    requires k == 2
    ensures Filtered(Categories[k]) != []
  {
    TabShows(Categories[k], 1);
  }

  lemma DigitalTab(k: nat)
    requires k == 3
    ensures Filtered(Categories[k]) != []
  {
    TabShows(Categories[k], 2);
  }

  lemma ContentTab(k: nat)
    requires k == 4
    ensures Filtered(Categories[k]) != []
  {
    TabShows(Categories[k], 3);
  }
}
