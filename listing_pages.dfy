/** The per-category listing pages: Achievements, Projects, Publications,
    Certificates, Media and Service, one file each under src/pages.

    The five pages other than Achievements hold the same filter pipeline word
    for word; Achievements differs only in how it reads the value "achievement"
    of the category key. One class, parameterised by the page, models all six. */
module ListingPages {
  import opened Portfolio
  import opened Text
  import opened Lists
  import opened Ordering
  import opened ContentLoader

  datatype Page = AchievementsPage | ProjectsPage | PublicationsPage | CertificatesPage | MediaPage | ServicePage

  /** The category a page loads with `getItemsByCategory`. */
  function PageCategory(p: Page): (r: Category)
  {
    match p
    case AchievementsPage => Achievement
    case ProjectsPage => Project
    case PublicationsPage => Publication
    case CertificatesPage => Certificate
    case MediaPage => Media
    case ServicePage => Service
  }

  /** What a non-"all" category key `c` keeps. On every page it selects by the
      item's `type`; on Achievements the value "achievement" selects by the
      item's category instead. */
  predicate CategoryKeeps(p: Page, c: string, x: Item)
  {
    if p == AchievementsPage && c == "achievement" then x.category == Achievement
    else x.itemType == c
  }

  predicate ByPageCategory(p: Page, f: Filters, x: Item)
  {
    IsActive(f.category) ==> CategoryKeeps(p, f.category.value, x)
  }

  predicate ByPageYear(f: Filters, x: Item)
  {
    IsActive(f.year) ==> Decimal(x.year) == f.year.value
  }

  predicate ByPageVerified(f: Filters, x: Item)
  {
    IsActive(f.verified) ==> StatusName(x.verifiedStatus) == f.verified.value
  }

  predicate ByPageQuery(f: Filters, x: Item)
  {
    QueryActive(f.query) ==> SearchMatches(x, f.query.value)
  }

  /** All active keys of the filter record hold of the item. */
  predicate PageMatches(p: Page, f: Filters, x: Item)
  {
    ByPageCategory(p, f, x) && ByPageYear(f, x) && ByPageVerified(f, x) && ByPageQuery(f, x)
  }

  /** The list a page shows for a filter record: the matching items, newest first. */
  function PageView(p: Page, all: seq<Item>, f: Filters): (r: seq<Item>)
  {
    SortNewestFirst(Keep(all, (x: Item) => PageMatches(p, f, x)))
  }

  /** The filter record a page starts with. */
  const InitialFilters: Filters := Filters(Some("all"), Some("all"), Some("all"), Some(""))

  /** A filter record that constrains nothing. */
  predicate Unconstrained(f: Filters)
  {
    !IsActive(f.category) && !IsActive(f.year) && !IsActive(f.verified) && !QueryActive(f.query)
  }

  /** The page's view is newest first, holds exactly the items of the page that
      meet every active key, each as often as the page's list has it, and so
      is a sub-multiset of that list. */
  lemma PageViewSpec(p: Page, all: seq<Item>, f: Filters)
    ensures var r := PageView(p, all, f);
      && NewestFirst(r)
      && (forall x :: x in r <==> x in all && PageMatches(p, f, x))
      && (forall x :: multiset(r)[x] == if PageMatches(p, f, x) then multiset(all)[x] else 0)
      && multiset(r) <= multiset(all)
  {
    var keep := (x: Item) => PageMatches(p, f, x);
    SortSameMembers(Keep(all, keep));
    forall x {
      KeepCount(all, keep, x);
    }
  }

  /** With no active key the page shows every item of its list, newest first. */
  lemma UnconstrainedShowsAll(p: Page, all: seq<Item>, f: Filters)
    requires Unconstrained(f)
    ensures PageView(p, all, f) == SortNewestFirst(all)
    ensures multiset(PageView(p, all, f)) == multiset(all)
  {
    KeepAll(all, (x: Item) => PageMatches(p, f, x));
  }

  /** On Achievements, whose list holds only achievements, the category value
      "achievement" drops nothing. */
  lemma AchievementCategoryKeepsAll(dataset: seq<Item>, f: Filters)
    requires f.category == Some("achievement")
    requires !IsActive(f.year) && !IsActive(f.verified) && !QueryActive(f.query)
    ensures var all := ItemsByCategory(dataset, "achievement");
      PageView(AchievementsPage, all, f) == SortNewestFirst(all)
  {
    var all := ItemsByCategory(dataset, "achievement");
    forall x | x in all ensures PageMatches(AchievementsPage, f, x) {
      CategoryNameInjective(x.category, Achievement);
    }
    KeepAll(all, (x: Item) => PageMatches(AchievementsPage, f, x));
  }

  /** On the other pages the category value "achievement" is compared with the
      item's `type`, like every other value. */
  lemma OtherPagesCompareType(p: Page, f: Filters, x: Item)
    requires p != AchievementsPage && IsActive(f.category)
    ensures ByPageCategory(p, f, x) <==> x.itemType == f.category.value
  {
  }

  /** The component state of one listing page. */
  class ListingPage {
    const page: Page
    /** `getItemsByCategory(<the page's category>)` */
    const allItems: seq<Item>
    var activeFilters: Filters
    var filteredItems: seq<Item>

    /** Mounting: `filteredItems` starts as `allItems` in dataset order, unsorted. */
    constructor (page: Page, dataset: seq<Item>)
      ensures this.page == page
      ensures allItems == ItemsByCategory(dataset, CategoryName(PageCategory(page)))
      ensures activeFilters == InitialFilters
      ensures filteredItems == allItems
    {
      this.page := page;
      allItems := ItemsByCategory(dataset, CategoryName(PageCategory(page)));
      activeFilters := InitialFilters;
      filteredItems := ItemsByCategory(dataset, CategoryName(PageCategory(page)));
    }

    /** `filterItems(filters)`: copies `allItems`, narrows the copy one active
        key at a time (category, year, verification, query), sorts it newest
        first and stores it. `allItems` is left as it was. */
    method FilterItems(filters: Filters)
      modifies this`filteredItems
      ensures filteredItems == PageView(page, allItems, filters)
    {
      var c := (x: Item) => ByPageCategory(page, filters, x);
      var cy := (x: Item) => ByPageCategory(page, filters, x) && ByPageYear(filters, x);
      var cyv := (x: Item) => ByPageCategory(page, filters, x) && ByPageYear(filters, x) && ByPageVerified(filters, x);
      var all := (x: Item) => PageMatches(page, filters, x);
      var items := allItems;
      if IsActive(filters.category) {
        var p := (x: Item) => CategoryKeeps(page, filters.category.value, x);
        items := Keep(items, p);
        KeepSame(allItems, p, c);
      } else {
        KeepAll(allItems, c);
      }
      assert items == Keep(allItems, c);
      if IsActive(filters.year) {
        var p := (x: Item) => Decimal(x.year) == filters.year.value;
        items := Keep(items, p);
        KeepKeep(allItems, c, p, cy);
      } else {
        KeepKeep(allItems, c, (x: Item) => true, cy);
        KeepAll(Keep(allItems, c), (x: Item) => true);
      }
      assert items == Keep(allItems, cy);
      if IsActive(filters.verified) {
        var p := (x: Item) => StatusName(x.verifiedStatus) == filters.verified.value;
        items := Keep(items, p);
        KeepKeep(allItems, cy, p, cyv);
      } else {
        KeepKeep(allItems, cy, (x: Item) => true, cyv);
        KeepAll(Keep(allItems, cy), (x: Item) => true);
      }
      assert items == Keep(allItems, cyv);
      if QueryActive(filters.query) {
        var query := Lower(filters.query.value);
        var p := (x: Item) => MatchesQuery(x, query);
        items := Keep(items, p);
        KeepKeep(allItems, cyv, p, all);
      } else {
        KeepKeep(allItems, cyv, (x: Item) => true, all);
        KeepAll(Keep(allItems, cyv), (x: Item) => true);
      }
      items := SortNewestFirst(items);
      filteredItems := items;
    }

    /** `handleSearch(query)`: only the query key of the active filters
        changes, and the list is recomputed from the updated record. */
    method HandleSearch(query: string)
      modifies this
      ensures activeFilters == old(activeFilters).(query := Some(query))
      ensures activeFilters.category == old(activeFilters.category)
      ensures activeFilters.year == old(activeFilters.year)
      ensures activeFilters.verified == old(activeFilters.verified)
      ensures filteredItems == PageView(page, allItems, activeFilters)
    {
      var next := activeFilters.(query := Some(query));
      activeFilters := next;
      FilterItems(next);
    }

    /** `handleFilterChange(filters)`: the record replaces the active filters
        wholesale, and the list is recomputed from it. */
    method HandleFilterChange(filters: Filters)
      modifies this
      ensures activeFilters == filters
      ensures filteredItems == PageView(page, allItems, filters)
    {
      activeFilters := filters;
      FilterItems(filters);
    }
  }
}
