# Portfolio query layer

A model of the logic behind a personal portfolio site (sobri3195/prestasi-Sobri, React and TypeScript). It covers:

- the data-access layer over the dataset's list of portfolio items: lookup by category, id and tag, search, filter, latest updates, and the year and tag lists;
- the filter pipeline of the six listing pages (Achievements, Projects, Publications, Certificates, Media, Service);
- the Timeline page, which filters, sorts, groups by year and counts;
- the search-and-filter bar's bookkeeping;
- the pure helpers in `utils.ts` (slugs, relative-time labels, the "new" badge and the lookup tables).

Modules, one per part of the program:

| module | file | models |
|---|---|---|
| `Portfolio` | portfolio.dfy | the item record of `src/types/portfolio.ts` and the filter record of `src/components/filters/SearchAndFilter.tsx` |
| `Text` | text.dfy | ASCII `toLowerCase`, `includes`, number-to-text, `parseInt` and the default string order |
| `Lists` | lists.dfy | `Array.prototype.filter` and its laws |
| `Ordering` | ordering.dfy | the stable newest-first sort, and the descending-year and ascending-tag orders |
| `ContentLoader` | content_loader.dfy | `src/lib/contentLoader.ts` |
| `Utils` | utils.dfy | `src/lib/utils.ts` |
| `ListingPages` | listing_pages.dfy | the filter pipeline of the six listing pages |
| `Timeline` | timeline.dfy | `src/pages/Timeline.tsx` |
| `FilterBar` | filter_bar.dfy | `src/components/filters/SearchAndFilter.tsx` |
| `Scenarios` | scenarios.dfy | worked examples on concrete items |

Dates become two numbers on each item:

- `ts`: what `new Date(date).getTime()` gives;
- `year`: what `getFullYear()` gives.

A year used as text is `Text.Decimal(year)`.

The comparator `(a, b) => b.ts - a.ts` under JavaScript's stable sort is `Ordering.SortNewestFirst`, an insertion sort. It is proved to be:

- sorted newest first;
- a permutation of its input;
- stable;
- the identity on already sorted input.

State is modelled where the program keeps it:

- **`ContentLoader.PortfolioStore`** holds the shared dataset array. `getLatestUpdates` reorders that array in place, so the store is an `array`.
- **`ListingPages.ListingPage`** holds a page's `allItems`, `activeFilters` and `filteredItems`. Its `FilterItems` rebinds a local list one active key at a time, as the page does.
- **`Timeline.TimelinePage`** holds the two selectors. `Timeline.GroupByYear` is the `reduce` loop over a dictionary.
- **`FilterBar.SearchAndFilter`** holds the bar's own `query` and `isFilterOpen` state.

## Model

| member | source | states |
|---|---|---|
| Portfolio.CategoryNameInjective | src/types/portfolio.ts:11 | two categories have the same dataset string exactly when they are the same category |
| Text.ParseDecimalOfDecimal | src/lib/contentLoader.ts:70-71 | `parseInt` of a year's `toString()` gives the year back |
| Text.DecimalInjective | src/lib/contentLoader.ts:70 | two years print the same text exactly when they are equal, so the `Set` of year strings has one entry per year |
| Text.ContainsAt | src/lib/contentLoader.ts:32-35 | `includes` holds exactly when the needle occurs at some offset |
| Text.LexLessTotal | src/lib/contentLoader.ts:77 | the default sort order puts any two different tags one before the other |
| Lists.KeepAppend | src/lib/contentLoader.ts:12 | `filter` distributes over concatenation, so it keeps the items' relative order |
| Lists.KeepKeep | src/lib/contentLoader.ts:45-63 | two successive filters equal one filter by the conjunction |
| Lists.KeepCount | src/lib/contentLoader.ts:12 | a filter keeps each passing item exactly as often as the input has it, and drops every other item |
| Lists.KeepFullLength | src/pages/Timeline.tsx:215 | a filter keeps the whole length exactly when every element passes |
| Lists.KeepSplitCount | src/pages/Timeline.tsx:31-38 | filters by two disjoint predicates together keep as many elements as a filter by their disjunction |
| Ordering.SortNewestFirst | src/lib/contentLoader.ts:23 | the sort returns a permutation of its input, newest first |
| Ordering.SortStable | src/lib/contentLoader.ts:23 | items with the same timestamp keep their relative order |
| Ordering.SortSortedIsIdentity | src/lib/contentLoader.ts:23 | a list already newest first comes back unchanged |
| Ordering.SortIdempotent | src/lib/contentLoader.ts:23 | sorting twice gives the same list as sorting once |
| Ordering.KeepNewestFirst | src/pages/Timeline.tsx:36 | filtering a newest-first list leaves it newest first |
| Ordering.DistinctDescending | src/lib/contentLoader.ts:70-71 | `Array.from(new Set(ys)).sort((a, b) => b - a)` is strictly descending and holds exactly the input's values |
| Ordering.DistinctAscending | src/lib/contentLoader.ts:76-77 | `Array.from(new Set(ts)).sort()` is strictly ascending and holds exactly the input's tags |
| ContentLoader.ItemsByCategory | src/lib/contentLoader.ts:8-13 | "all" returns the list itself; any other value keeps exactly the items of that category, each as often as the list has it |
| ContentLoader.ItemById | src/lib/contentLoader.ts:15-18 | the result is absent exactly when no item has the id, and otherwise is the first item with it |
| ContentLoader.LatestUpdates | src/lib/contentLoader.ts:20-25 | no contract of its own: `LatestUpdatesSpec`, `LatestUpdatesNewest` and `LatestUpdatesDefault` state what it returns |
| ContentLoader.LatestUpdatesSpec | src/lib/contentLoader.ts:20-25 | for a non-negative limit, returns min(limit, count) items, newest first, drawn from the list |
| ContentLoader.LatestUpdatesNewest | src/lib/contentLoader.ts:22-24 | no item left out is newer than an item returned |
| ContentLoader.LatestUpdatesDefault | src/lib/contentLoader.ts:20 | with no argument, the result has at most five items |
| ContentLoader.PortfolioStore.GetLatestUpdates | src/lib/contentLoader.ts:20-25 | the shared array ends up sorted newest first and a permutation of its old contents; the result is the first `limit` items of that order |
| ContentLoader.SearchItems | src/lib/contentLoader.ts:27-37 | keeps an item exactly when the lower-cased query occurs in its lower-cased title, summary, description or a tag, each as often as the list has it; the empty query keeps the list as it is |
| ContentLoader.FilterItems | src/lib/contentLoader.ts:39-66 | narrowing one active key at a time gives the single filter by the conjunction of the active keys |
| ContentLoader.FilterItemsSpec | src/lib/contentLoader.ts:45-65 | the result holds exactly the items meeting every active key, each as often as the list has it; with no active key it is the list |
| ContentLoader.FilterOrderIndependent | src/lib/contentLoader.ts:47-57 | the category, year and verification filters give the same result in any of their six orders |
| ContentLoader.Years | src/lib/contentLoader.ts:68-72 | no contract of its own: `YearsSpec` states what `getYears()` returns |
| ContentLoader.YearsSpec | src/lib/contentLoader.ts:68-72 | `getYears()` is digit strings without duplicates, strictly descending as numbers, holding exactly the items' years |
| ContentLoader.AllTags | src/lib/contentLoader.ts:74-78 | no contract of its own: `AllTagsSpec` states what `getAllTags()` returns |
| ContentLoader.AllTagsSpec | src/lib/contentLoader.ts:74-78 | `getAllTags()` is strictly ascending without duplicates and holds exactly the union of the items' tags |
| ContentLoader.ItemsByTag | src/lib/contentLoader.ts:80-83 | keeps exactly the items carrying the tag, each as often as the list has it |
| Utils.Slugify | src/lib/utils.ts:39-45 | no contract of its own: `SlugifyIsSlug`, `SlugifyFixesSlugs` and `SlugifyIdempotent` state what it returns |
| Utils.SlugifyIsSlug | src/lib/utils.ts:39-45 | `slugify` yields only `[a-z0-9-]`, never two dashes in a row and never a dash at either end |
| Utils.SlugifyFixesSlugs | src/lib/utils.ts:39-45 | a slug is its own slug |
| Utils.SlugifyIdempotent | src/lib/utils.ts:39-45 | slugifying twice equals slugifying once |
| Utils.CollapseNoDoubleDash | src/lib/utils.ts:43 | collapsing separator runs never leaves two dashes in a row |
| Utils.CollapseChars | src/lib/utils.ts:42-43 | after dropping disallowed characters and collapsing, only `[a-z0-9-]` remains |
| Utils.DiffInDays | src/lib/utils.ts:28 | the day count is the floor of the difference over one day, for negative differences too |
| Utils.RelativeBucket | src/lib/utils.ts:30-36 | the ladder chooses today, days, weeks (1 to 4), months (1 to 12) or years (at least 1), each for exactly its range of day counts |
| Utils.Render | src/lib/utils.ts:30-36 | no contract of its own: the label for each bucket, whose properties `TodayExactlyWithinOneDay` and `OneDayAgo` state |
| Utils.RelativeTimeText | src/lib/utils.ts:24-37 | no contract of its own: `getRelativeTime` as floor, bucket and label; `TodayExactlyWithinOneDay` and `OneDayAgo` state its properties |
| Utils.TodayExactlyWithinOneDay | src/lib/utils.ts:24-30 | "Hari ini" appears exactly for a difference of zero up to one day |
| Utils.OneDayAgo | src/lib/utils.ts:31 | a difference of one full day reads "1 hari yang lalu" |
| Utils.IsNewItem | src/lib/utils.ts:78-85 | no contract of its own: `IsNewItemWindow`, `DefaultWindow`, `FutureIsNew` and `NewerStaysNew` state when an item is new |
| Utils.IsNewItemWindow | src/lib/utils.ts:78-85 | an item is new exactly when it is less than `days + 1` whole days old |
| Utils.DefaultWindow | src/lib/utils.ts:78 | with the default window of 30 days, an item is new exactly when it is less than 31 whole days old |
| Utils.FutureIsNew | src/lib/utils.ts:82-84 | a future date is new for any non-negative window |
| Utils.NewerStaysNew | src/lib/utils.ts:78-85 | a date more recent than a new one is new too |
| Utils.CategoryIcon | src/lib/utils.ts:47-57 | no contract of its own: `LookupsTotal`, `LookupsDistinct` and `CategoryIconConstructorIsNotString` state what it returns |
| Utils.ColorByCategory | src/lib/utils.ts:87-97 | no contract of its own: `LookupsTotal`, `LookupsDistinct` and `ColorByCategoryToStringIsNotString` state what it returns |
| Utils.LookupsTotal | src/lib/utils.ts:47-57 | every string gets a non-empty icon and colour, and a string gets its own entry exactly when it is one of the six categories |
| Utils.LookupsDistinct | src/lib/utils.ts:87-97 | different categories get different icons and different colours |
| Utils.VerificationBadgeVariant | src/lib/utils.ts:59-70 | no contract of its own: `BadgeVariantSpec` states which status gets which variant |
| Utils.BadgeVariantSpec | src/lib/utils.ts:59-70 | each status has its own variant, and every other string gets "default" |
| Utils.CategoryIconConstructorIsNotString | src/lib/utils.ts:56 | as written, `getCategoryIcon("constructor")` yields an inherited member rather than a string; the corrected lookup yields the fallback |
| Utils.ColorByCategoryToStringIsNotString | src/lib/utils.ts:96 | as written, `getColorByCategory("toString")` yields an inherited member; the corrected lookup yields the fallback |
| Utils.LookupAsWrittenAgrees | src/lib/utils.ts:56 | away from the inherited names, the lookup as written and the corrected one agree |
| ListingPages.PageView | src/pages/Projects.tsx:38-71 | no contract of its own: the list a page shows for a record; `PageViewSpec` and `UnconstrainedShowsAll` state what it holds |
| ListingPages.PageViewSpec | src/pages/Projects.tsx:38-71 | a page's list is newest first and holds exactly the items of the page meeting every active key, each as often as the page's list has it |
| ListingPages.UnconstrainedShowsAll | src/pages/Achievements.tsx:37-73 | with no active key the page shows a newest-first permutation of its whole list |
| ListingPages.AchievementCategoryKeepsAll | src/pages/Achievements.tsx:41-47 | on Achievements the value "achievement" drops nothing from the page's list |
| ListingPages.OtherPagesCompareType | src/pages/Publications.tsx:41-43 | on the other pages an active category value is compared with the item's `type` |
| ListingPages.ListingPage.constructor | src/pages/Achievements.tsx:17-25 | the page starts with its category's items, every key at "all" with an empty query, and `filteredItems` equal to `allItems`, unsorted |
| ListingPages.ListingPage.FilterItems | src/pages/Achievements.tsx:37-74 | narrows a copy by category, year, verification and query, sorts it, and stores exactly the page view; `allItems` is untouched |
| ListingPages.ListingPage.HandleSearch | src/pages/Certificates.tsx:27-30 | only the query key changes, and the list is recomputed from the updated record |
| ListingPages.ListingPage.HandleFilterChange | src/pages/Media.tsx:32-35 | the record replaces the active filters wholesale, and the list is recomputed from it |
| Timeline.TimelineItems | src/pages/Timeline.tsx:26-29 | `filteredItems` is newest first and holds exactly the dataset items matching both selectors, drawn from the dataset |
| Timeline.TimelineItemsSpec | src/pages/Timeline.tsx:26-29 | each selected item appears as often as in the dataset; with both selectors at "all" the list is the whole dataset, newest first |
| Timeline.Groups | src/pages/Timeline.tsx:31-38 | no contract of its own: the `reduce` fold; `GroupsAreYears`, `GroupsSpec` and `GroupSizesSum` state what it holds |
| Timeline.GroupsAreYears | src/pages/Timeline.tsx:31-38 | the fold has a group exactly for each year that occurs, and each group is the items of that year in list order |
| Timeline.GroupsSpec | src/pages/Timeline.tsx:31-38 | every item lies in the group of its own year, and a group holds only items of its year |
| Timeline.GroupByYear | src/pages/Timeline.tsx:31-38 | the create-then-push loop builds exactly the fold's groups |
| Timeline.GroupsNewestFirst | src/pages/Timeline.tsx:36 | groups of a newest-first list are newest first |
| Timeline.GroupSizesSum | src/pages/Timeline.tsx:31-38 | the group sizes, each key taken once, add up to the number of items |
| Timeline.ParsedDescendingUnique | src/pages/Timeline.tsx:40 | two lists strictly descending by parsed value with the same members are equal |
| Timeline.SortedYears | src/pages/Timeline.tsx:40 | `sortedYears` holds exactly the group keys, strictly descending as numbers |
| Timeline.VerifiedCount | src/pages/Timeline.tsx:215 | the verified count is at most the number of shown items, and equal to it exactly when all are verified |
| Timeline.CategoryCount | src/pages/Timeline.tsx:221 | the distinct-category count is at most 6, at most the number of shown items, and at least 1 when any item is shown |
| Timeline.TimelinePage.constructor | src/pages/Timeline.tsx:12-13 | both selectors start at "all" |
| Timeline.TimelinePage.SetSelectedYear | src/pages/Timeline.tsx:68 | the year selector takes the chosen value, and the category selector is unchanged |
| Timeline.TimelinePage.SetSelectedCategory | src/pages/Timeline.tsx:84 | the category selector takes the chosen value, and the year selector is unchanged |
| Timeline.TimelinePage.Render | src/pages/Timeline.tsx:26-40 | the dataset is not reordered; the view's years are the group keys in `getYears` order, the groups hold every shown item exactly once, each group is newest first, and the counts are as above |
| FilterBar.HasActiveFilters | src/components/filters/SearchAndFilter.tsx:51-54 | no contract of its own: `BadgeOffMeansEverythingShown` and `ChoosingAllKeepsBadge` state when the badge is on |
| FilterBar.Merge | src/components/filters/SearchAndFilter.tsx:35-41 | the merged record has the chosen key set to the value and the query set to the bar's text; the other keys are unchanged |
| FilterBar.BadgeOffMeansEverythingShown | src/components/filters/SearchAndFilter.tsx:51-54 | the badge is off exactly when the record constrains nothing, and then every listing page shows its whole list, newest first |
| FilterBar.ChoosingAllKeepsBadge | src/components/filters/SearchAndFilter.tsx:35-54 | choosing "all" leaves the badge on exactly when another key or the text is active |
| FilterBar.SearchAndFilter.constructor | src/components/filters/SearchAndFilter.tsx:27-28 | the box starts with the record's query or "", and the panel starts closed |
| FilterBar.SearchAndFilter.HasActive | src/components/filters/SearchAndFilter.tsx:51-54 | no contract of its own: the badge of the bar, `HasActiveFilters` of the record it was given; `ClearFilters` and `ClearOnPage` show it off after clearing |
| FilterBar.SearchAndFilter.ReceiveProps | src/components/filters/SearchAndFilter.tsx:19-27 | a new render takes the page's record, and the bar's own query and panel state are kept |
| FilterBar.SearchAndFilter.HandleSearch | src/components/filters/SearchAndFilter.tsx:30-33 | the box shows the value, and the same value is passed on |
| FilterBar.SearchAndFilter.HandleFilterChange | src/components/filters/SearchAndFilter.tsx:35-42 | emits the merged record and changes nothing of the bar |
| FilterBar.SearchAndFilter.ClearFilters | src/components/filters/SearchAndFilter.tsx:44-49 | empties the box, passes "" on, and emits exactly `{ query: '' }`, which turns the badge off |
| FilterBar.SearchAndFilter.ToggleFilterPanel | src/components/filters/SearchAndFilter.tsx:73 | the panel flips between open and closed |
| FilterBar.ClearOnPage | src/components/filters/SearchAndFilter.tsx:44-49 | clearing on a listing page leaves the page showing its whole list, newest first, with the badge off; the filter panel stays open or closed as it was |
| FilterBar.ChangeFilterOnPage | src/components/filters/SearchAndFilter.tsx:35-42 | a selector change on a page changes only that key and the query, and the page shows what the new record selects; the bar's text and panel are unchanged |
| FilterBar.SearchOnPage | src/components/filters/SearchAndFilter.tsx:30-33 | typing on a page changes only the page's query key; the filter panel stays as it was |
| Scenarios.MissingIdIsAbsent | src/lib/contentLoader.ts:15-18 | an id that no item has finds nothing |
| Scenarios.LatestTwoProjects | src/lib/contentLoader.ts:20-25 | `getLatestUpdates(2)` over projects of 2021, 2023 and 2022, stored in that order, returns the 2023 one and then the 2022 one |
| Scenarios.SearchIgnoresTagCase | src/lib/contentLoader.ts:27-37 | the query "security" finds an item tagged "Security" |
| Scenarios.CertificateFilterChecksStatus | src/lib/contentLoader.ts:47-57 | for a certificate, category "certificate" with verified "verified" tests only the status |
| Scenarios.VerifiedCertificates | src/lib/contentLoader.ts:39-66 | of two verified certificates with an unverified one between them, the two verified ones remain, in order |

## Left out

- JSX rendering, styling, `cn`/`clsx`, and all context components (cards, layout, navbar, detail page, home, about): presentation only.
- The contact form's simulated submission, the detail page's share action, and `generateCVPDF`: timers, browser APIs and a constant URL.
- `formatDate` and `formatDateShort`: locale formatting in the host's Intl library.
- Date parsing and the clock. Items carry `ts` and `year` in place of the date string. `getRelativeTime` and `isNewItem` receive the millisecond difference `now - date` as a parameter. Invalid dates (NaN) and time zones are not modelled.
- Unicode case mapping and the full `\s` class: `toLowerCase` and the slug regexes are modelled on ASCII only.
- String order: the tag sort compares UTF-16 code units, and the model compares characters. The two differ only for characters outside the Basic Multilingual Plane.
- `getPortfolioData`, `getStatistics`, and the pages' hard-coded counters and year lists: loading and editorial constants. Every query takes the item list as a parameter instead.
- Routing in `src/App.tsx`: delegated to the router library.
- The listing pages' `years = getYears()` drop-down source: it is `ContentLoader.Years`, and no page logic depends on it.
- Page ordering across calls: the item list a page reads is whatever `getLatestUpdates` last left in the shared array. The model passes the current list explicitly.
- ListingPages.ListingPage.FilterItems: the sort runs on a fresh copy in the source. The model sorts a local sequence value, so the aliasing of that copy is not represented; no other reference to it exists.
- ListingPages.ListingPage.HandleSearch: React batches state updates and the handler reads `activeFilters` from the render's closure. The model runs the update and the refilter in sequence on the current record, which is what one call in one render does.
- Timeline.SortedYears: requires each key to be the canonical decimal text of a year. That is what `GroupByYear` produces, as `Timeline.TimelinePage.Render` shows.
- Utils.RelativeBucket: a future date gives a negative day count, which the source prints as "-N hari yang lalu". The model keeps that behaviour, and `Utils.TodayExactlyWithinOneDay` shows "Hari ini" is not used for it.
- Numbers are unbounded integers. JavaScript's floating-point numbers are not modelled, nor are timestamps beyond 2^53.
- `getLatestUpdates`: callers may expect no side effect, but it sorts the shared dataset array in place. The model follows the code (`ContentLoader.PortfolioStore.GetLatestUpdates` has `modifies items`).

## Findings

| source | as written | input that shows it | evidently intended | confidence | as-written member | corrected member |
|---|---|---|---|---|---|---|
| src/lib/utils.ts:56 | the fallback lookup `icons[category]` also finds the properties an object literal inherits | `getCategoryIcon("constructor")` returns the `Object` function | an icon string for every input, the fallback for unknown ones | not executed | Utils.CategoryIconConstructorIsNotString | Utils.CategoryIcon |
| src/lib/utils.ts:96 | the fallback lookup `colors[category]` also finds the properties an object literal inherits | `getColorByCategory("toString")` returns a function | a class string for every input, grey for unknown ones | not executed | Utils.ColorByCategoryToStringIsNotString | Utils.ColorByCategory |
