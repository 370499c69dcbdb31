/** The search-and-filter bar (src/components/filters/SearchAndFilter.tsx):
    a text box whose value is the component's own `query` state, a panel of
    three selectors that report a merged filter record to the page, a clear
    button, and the "filters active" badge. */
module FilterBar {
  import opened Portfolio
  import opened Ordering
  import opened ListingPages

  /** The keys the selectors write. */
  datatype FilterKey = CategoryKey | YearKey | VerifiedKey

  /** `hasActiveFilters`: some selector holds a value other than "" and "all",
      or the page's query is non-empty. */
  predicate HasActiveFilters(f: Filters)
  {
    IsActive(f.category) || IsActive(f.year) || IsActive(f.verified) || QueryActive(f.query)
  }

  /** `{ ...selectedFilters, [key]: value, query }` */
  function Merge(selected: Filters, key: FilterKey, value: string, query: string): (r: Filters)
    ensures r.query == Some(query)
    ensures r.category == if key == CategoryKey then Some(value) else selected.category
    ensures r.year == if key == YearKey then Some(value) else selected.year
    ensures r.verified == if key == VerifiedKey then Some(value) else selected.verified
  {
    match key
    case CategoryKey => selected.(category := Some(value), query := Some(query))
    case YearKey => selected.(year := Some(value), query := Some(query))
    case VerifiedKey => selected.(verified := Some(value), query := Some(query))
  }

  /** `{ query: '' }`: the three selector keys are absent. */
  const Cleared: Filters := Filters(None, None, None, Some(""))

  /** The badge is off exactly when a page given the record would apply no
      constraint, and then every listing page shows its whole list, newest
      first. */
  lemma BadgeOffMeansEverythingShown(p: Page, all: seq<Item>, f: Filters)
    ensures !HasActiveFilters(f) <==> Unconstrained(f)
    ensures !HasActiveFilters(f) ==> PageView(p, all, f) == SortNewestFirst(all)
  {
    if !HasActiveFilters(f) {
      UnconstrainedShowsAll(p, all, f);
    }
  }

  /** Choosing "all" in a selector never turns the badge on: the merged record
      is active exactly when the other two selectors or the local query are. */
  lemma ChoosingAllKeepsBadge(selected: Filters, key: FilterKey, query: string)
    ensures var r := Merge(selected, key, "all", query);
      HasActiveFilters(r) <==>
        (key != CategoryKey && IsActive(selected.category))
        || (key != YearKey && IsActive(selected.year))
        || (key != VerifiedKey && IsActive(selected.verified))
        || query != ""
  {
  }

  /** The component state of the bar. `selectedFilters` is the page's record,
      passed down on every render. */
  class SearchAndFilter {
    var selectedFilters: Filters
    var query: string
    var isFilterOpen: bool

    /** `useState(selectedFilters.query || '')` and a closed panel. */
    constructor (selected: Filters)
      ensures selectedFilters == selected
      ensures query == if selected.query.Some? then selected.query.value else ""
      ensures !isFilterOpen
    {
      selectedFilters := selected;
      query := if selected.query.Some? then selected.query.value else "";
      isFilterOpen := false;
    }

    /** The "filters active" badge of the bar. */
    predicate HasActive()
      reads this
    {
      HasActiveFilters(selectedFilters)
    }

    /** A later render with a new record. The local query is state, so it is
        not reset from the record. */
    method ReceiveProps(selected: Filters)
      modifies this`selectedFilters
      ensures selectedFilters == selected
      ensures query == old(query) && isFilterOpen == old(isFilterOpen)
    {
      selectedFilters := selected;
    }

    /** `handleSearch(value)`: the box shows `value`, which is passed to
        `onSearch` unchanged. */
    method HandleSearch(value: string) returns (searched: string)
      modifies this`query
      ensures query == value
      ensures searched == value
    {
      query := value;
      searched := value;
    }

    /** `handleFilterChange(key, value)`: the record passed to `onFilterChange`
        is the current record with `key` set to `value` and the query set to
        the box's text; nothing of the bar changes. */
    method HandleFilterChange(key: FilterKey, value: string) returns (emitted: Filters)
      ensures emitted == Merge(selectedFilters, key, value, query)
    {
      emitted := Merge(selectedFilters, key, value, query);
    }

    /** `clearFilters()`: the box is emptied, `onSearch('')` is called, then
        `onFilterChange({ query: '' })`. The record it sends turns the badge
        off. */
    method ClearFilters() returns (searched: string, emitted: Filters)
      modifies this`query
      ensures query == ""
      ensures searched == ""
      ensures emitted == Cleared
      ensures !HasActiveFilters(emitted)
    {
      query := "";
      searched := "";
      emitted := Cleared;
    }

    /** The filter button toggles the panel. */
    method ToggleFilterPanel()
      modifies this`isFilterOpen
      ensures isFilterOpen == !old(isFilterOpen)
    {
      isFilterOpen := !isFilterOpen;
    }
  }

  /** The clear button on a listing page: the bar's two callbacks run in
      order, the page re-renders the bar with its new record. The page ends up
      showing its whole list, newest first, and the badge is off. */
  method ClearOnPage(page: ListingPage, bar: SearchAndFilter)
    requires page != bar as object
    modifies page, bar
    ensures page.activeFilters == Cleared
    ensures page.filteredItems == SortNewestFirst(page.allItems)
    ensures bar.query == ""
    ensures bar.selectedFilters == Cleared && !bar.HasActive()
    ensures bar.isFilterOpen == old(bar.isFilterOpen)
  {
    var searched, emitted := bar.ClearFilters();
    page.HandleSearch(searched);
    page.HandleFilterChange(emitted);
    UnconstrainedShowsAll(page.page, page.allItems, emitted);
    bar.ReceiveProps(page.activeFilters);
  }

  /** A selector change on a listing page whose record the bar shows: the page
      takes the merged record, so only the chosen key and the query change,
      and the page shows what that record selects. */
  method ChangeFilterOnPage(page: ListingPage, bar: SearchAndFilter, key: FilterKey, value: string)
    requires page != bar as object
    requires bar.selectedFilters == page.activeFilters
    modifies page, bar
    ensures page.activeFilters == Merge(old(page.activeFilters), key, value, bar.query)
    ensures page.filteredItems == PageView(page.page, page.allItems, page.activeFilters)
    ensures bar.selectedFilters == page.activeFilters
    ensures bar.query == old(bar.query)
    ensures bar.isFilterOpen == old(bar.isFilterOpen)
  {
    var emitted := bar.HandleFilterChange(key, value);
    page.HandleFilterChange(emitted);
    bar.ReceiveProps(page.activeFilters);
  }

  /** Typing in the box of a listing page: the page's query becomes the text
      and its other keys stay as they were. */
  method SearchOnPage(page: ListingPage, bar: SearchAndFilter, text: string)
    requires page != bar as object
    modifies page, bar
    ensures bar.query == text
    ensures page.activeFilters == old(page.activeFilters).(query := Some(text))
    ensures page.filteredItems == PageView(page.page, page.allItems, page.activeFilters)
    ensures bar.selectedFilters == page.activeFilters
    ensures bar.isFilterOpen == old(bar.isFilterOpen)
  {
    var searched := bar.HandleSearch(text);
    page.HandleSearch(searched);
    bar.ReceiveProps(page.activeFilters);
  }
}
