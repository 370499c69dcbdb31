/** The timeline page (src/pages/Timeline.tsx): the whole dataset narrowed by
    a year and a category selector, sorted newest first, grouped by year into
    a dictionary keyed by the year's decimal text, with the group keys listed
    in descending numeric order and two summary counts. */
module Timeline {
  import opened Portfolio
  import opened Text
  import opened Lists
  import opened Ordering
  import opened ContentLoader

  /** The year selector: "all" or the item's year as text. */
  predicate YearSelected(selectedYear: string, x: Item)
  {
    selectedYear == "all" || Decimal(x.year) == selectedYear
  }

  /** The category selector: "all" or the item's category name. */
  predicate CategorySelected(selectedCategory: string, x: Item)
  {
    selectedCategory == "all" || CategoryName(x.category) == selectedCategory
  }

  predicate Selected(selectedYear: string, selectedCategory: string, x: Item)
  {
    YearSelected(selectedYear, x) && CategorySelected(selectedCategory, x)
  }

  /** `filteredItems`: the dataset filtered by year, then by category, then
      sorted newest first. */
  function TimelineItems(items: seq<Item>, selectedYear: string, selectedCategory: string): (r: seq<Item>)
    ensures NewestFirst(r)
    ensures forall x :: x in r <==> x in items && Selected(selectedYear, selectedCategory, x)
    ensures multiset(r) <= multiset(items)
  {
    var byYear := Keep(items, (x: Item) => YearSelected(selectedYear, x));
    var both := Keep(byYear, (x: Item) => CategorySelected(selectedCategory, x));
    SortSameMembers(both);
    SortNewestFirst(both)
  }

  /** Each selected item appears in `filteredItems` as often as in the dataset,
      and with both selectors at "all" the list is the whole dataset, newest
      first. */
  lemma TimelineItemsSpec(items: seq<Item>, selectedYear: string, selectedCategory: string)
    ensures var r := TimelineItems(items, selectedYear, selectedCategory);
      forall x :: multiset(r)[x] == if Selected(selectedYear, selectedCategory, x) then multiset(items)[x] else 0
    ensures selectedYear == "all" && selectedCategory == "all" ==>
      TimelineItems(items, selectedYear, selectedCategory) == SortNewestFirst(items)
  {
    var y := (x: Item) => YearSelected(selectedYear, x);
    var c := (x: Item) => CategorySelected(selectedCategory, x);
    forall x ensures multiset(TimelineItems(items, selectedYear, selectedCategory))[x] ==
      (if y(x) && c(x) then multiset(items)[x] else 0)
    {
      KeepCount(items, y, x);
      KeepCount(Keep(items, y), c, x);
    }
    if selectedYear == "all" && selectedCategory == "all" {
      KeepAll(items, y);
      KeepAll(items, c);
    }
  }

  /** The dictionary key of an item: `getFullYear()` used as a property name. */
  function YearKey(x: Item): (r: string)
  {
    Decimal(x.year)
  }

  /** The items whose year has the given key, in list order. */
  function InYear(items: seq<Item>, key: string): (r: seq<Item>)
  {
    Keep(items, (x: Item) => YearKey(x) == key)
  }

  function YearKeys(items: seq<Item>): (r: set<string>)
  {
    set x | x in items :: YearKey(x)
  }

  /** `if (!groups[key]) groups[key] = []; groups[key].push(x)` */
  function Push(groups: map<string, seq<Item>>, key: string, x: Item): (r: map<string, seq<Item>>)
  {
    groups[key := (if key in groups then groups[key] else []) + [x]]
  }

  /** `groupedItems`, as a value: the `reduce` folds `Push` over the items
      from the first to the last. */
  function Groups(items: seq<Item>): (r: map<string, seq<Item>>)
  {
    if items == [] then map[]
    else
      var x := items[|items| - 1];
      Push(Groups(items[..|items| - 1]), YearKey(x), x)
  }

  lemma InYearSnoc(s: seq<Item>, x: Item, k: string)
    ensures InYear(s + [x], k) == InYear(s, k) + (if YearKey(x) == k then [x] else [])
  {
    var p := (y: Item) => YearKey(y) == k;
    KeepAppend(s, [x], p);
    assert [x][1..] == [];
  }

  lemma InYearMissing(s: seq<Item>, k: string)
    requires k !in YearKeys(s)
    ensures InYear(s, k) == []
  {
    KeepNone(s, (x: Item) => YearKey(x) == k);
  }

  lemma YearKeysSnoc(s: seq<Item>, x: Item)
    ensures YearKeys(s + [x]) == YearKeys(s) + {YearKey(x)}
  {
    forall y | y in s + [x] ensures y in s || y == x {
    }
    assert x in s + [x];
    forall y | y in s ensures y in s + [x] {
    }
  }

  /** The fold and the filter agree: there is a group exactly for each year
      that occurs, and it holds the items of that year in list order. */
  lemma {:induction false} GroupsAreYears(items: seq<Item>)
    ensures forall k :: k in Groups(items) <==> k in YearKeys(items)
    ensures forall k :: k in Groups(items) ==> Groups(items)[k] == InYear(items, k)
  {
    if items != [] {
      var s := items[..|items| - 1];
      var x := items[|items| - 1];
      assert items == s + [x];
      GroupsAreYears(s);
      YearKeysSnoc(s, x);
      forall k | k in Groups(items) ensures Groups(items)[k] == InYear(items, k) {
        InYearSnoc(s, x, k);
        if k !in YearKeys(s) {
          InYearMissing(s, k);
          assert [] + [x] == [x];
        }
      }
    }
  }

  /** The groups partition the items: there is a group exactly for each year
      that occurs, every item lies in the group of its own year, and a group
      holds only items of its year. */
  lemma GroupsSpec(items: seq<Item>)
    ensures var g := Groups(items);
      && (forall k :: k in g <==> exists x :: x in items && YearKey(x) == k)
      && (forall x :: x in items ==> YearKey(x) in g && x in g[YearKey(x)])
      && (forall k, x :: k in g && x in g[k] ==> x in items && YearKey(x) == k)
  {
    GroupsAreYears(items);
  }

  /** Creating a missing group and then appending to it is `Push`. */
  lemma CreateThenAppend(g: map<string, seq<Item>>, key: string, x: Item)
    ensures var h := if key in g then g else g[key := []];
      key in h && h[key := h[key] + [x]] == Push(g, key, x)
  {
    if key !in g {
      assert [] + [x] == [x];
    }
  }

  /** The `reduce` over `filteredItems`: for each item, create its year's
      group if missing, then push the item onto it. */
  method GroupByYear(items: seq<Item>) returns (groups: map<string, seq<Item>>)
    ensures groups == Groups(items)
  {
    groups := map[];
    var i := 0;
    while i < |items|
      invariant 0 <= i <= |items|
      invariant groups == Groups(items[..i])
    {
      var x := items[i];
      var key := YearKey(x);
      ghost var before := groups;
      if key !in groups {
        groups := groups[key := []];
      }
      groups := groups[key := groups[key] + [x]];
      CreateThenAppend(before, key, x);
      assert items[..i + 1][..i] == items[..i];
      i := i + 1;
    }
    assert items[..i] == items;
  }

  /** Groups of a newest-first list are newest first. */
  lemma GroupsNewestFirst(items: seq<Item>)
    requires NewestFirst(items)
    ensures forall k :: k in Groups(items) ==> NewestFirst(Groups(items)[k])
  {
    GroupsAreYears(items);
    forall k | k in Groups(items) ensures NewestFirst(Groups(items)[k]) {
      KeepNewestFirst(items, (x: Item) => YearKey(x) == k);
    }
  }

  predicate Distinct(ks: seq<string>)
  {
    forall i, j :: 0 <= i < j < |ks| ==> ks[i] != ks[j]
  }

  /** The total size of the groups listed in `ks`. */
  function SizeSum(g: map<string, seq<Item>>, ks: seq<string>): (r: nat)
    requires forall k :: k in ks ==> k in g
  {
    if ks == [] then 0 else |g[ks[0]]| + SizeSum(g, ks[1..])
  }

  /** The number of items of each year in `ks`, added up. */
  function YearSizes(items: seq<Item>, ks: seq<string>): (r: nat)
  {
    if ks == [] then 0 else |InYear(items, ks[0])| + YearSizes(items, ks[1..])
  }

  lemma {:induction false} SizeSumIsYearSizes(items: seq<Item>, ks: seq<string>)
    requires forall k :: k in ks ==> k in Groups(items)
    ensures SizeSum(Groups(items), ks) == YearSizes(items, ks)
  {
    if ks != [] {
      GroupsAreYears(items);
      assert ks[0] in ks;
      SizeSumIsYearSizes(items, ks[1..]);
    }
  }

  lemma DistinctTail(ks: seq<string>)
    requires Distinct(ks) && ks != []
    ensures Distinct(ks[1..]) && ks[0] !in ks[1..]
  {
    var rest := ks[1..];
    forall i, j | 0 <= i < j < |rest| ensures rest[i] != rest[j] {
      assert rest[i] == ks[i + 1] && rest[j] == ks[j + 1];
    }
    forall j | 0 <= j < |rest| ensures rest[j] != ks[0] {
      assert rest[j] == ks[j + 1];
    }
  }

  /** The years named by distinct keys hold together as many items as have
      one of those keys. */
  lemma {:induction false} YearSizesKeys(items: seq<Item>, ks: seq<string>)
    requires Distinct(ks)
    ensures YearSizes(items, ks) == |Keep(items, (x: Item) => YearKey(x) in ks)|
  {
    if ks == [] {
      KeepNone(items, (x: Item) => YearKey(x) in ks);
    } else {
      var rest := ks[1..];
      DistinctTail(ks);
      YearSizesKeys(items, rest);
      assert forall k :: k in ks <==> k == ks[0] || k in rest by {
        assert ks == [ks[0]] + rest;
      }
      KeepSplitCount(items, (x: Item) => YearKey(x) == ks[0], (x: Item) => YearKey(x) in rest,
        (x: Item) => YearKey(x) in ks);
    }
  }

  /** Every item lands in exactly one group, so the sizes of the groups, taken
      once per key, add up to the number of items. */
  lemma GroupSizesSum(items: seq<Item>, ks: seq<string>)
    requires Distinct(ks)
    requires forall k :: k in ks <==> k in Groups(items)
    ensures SizeSum(Groups(items), ks) == |items|
  {
    SizeSumIsYearSizes(items, ks);
    YearSizesKeys(items, ks);
    GroupsAreYears(items);
    KeepAll(items, (x: Item) => YearKey(x) in ks);
  }

  /** Digit strings in strictly descending numeric order. */
  predicate ParsedDescending(s: seq<string>)
  {
    (forall i :: 0 <= i < |s| ==> AllDigits(s[i]))
    && forall i, j :: 0 <= i < j < |s| ==> ParseDecimal(s[i]) > ParseDecimal(s[j])
  }

  /** The head of such a list is its largest number. */
  lemma HeadIsLargest(a: seq<string>, k: string)
    requires ParsedDescending(a) && k in a
    ensures k == a[0] || ParseDecimal(k) < ParseDecimal(a[0])
  {
    var i :| 0 <= i < |a| && a[i] == k;
    if i > 0 {
      assert ParseDecimal(a[0]) > ParseDecimal(a[i]);
    }
  }

  lemma TailMembers(a: seq<string>, k: string)
    requires ParsedDescending(a) && a != []
    ensures k in a[1..] <==> k in a && k != a[0]
  {
    if k in a[1..] {
      var i :| 1 <= i < |a| && a[i] == k;
      assert ParseDecimal(a[0]) > ParseDecimal(a[i]);
    }
    if k in a && k != a[0] {
      var i :| 0 <= i < |a| && a[i] == k;
      assert a[1..][i - 1] == k;
    }
  }

  /** Two lists of digit strings in strictly descending numeric order that
      hold the same strings are the same list. */
  lemma {:induction false} ParsedDescendingUnique(a: seq<string>, b: seq<string>)
    requires ParsedDescending(a) && ParsedDescending(b)
    requires forall k :: k in a <==> k in b
    ensures a == b
  {
    if a != [] {
      assert a[0] in b;
    }
    if b != [] {
      assert b[0] in a;
    }
    if a != [] && b != [] {
      HeadIsLargest(a, b[0]);
      HeadIsLargest(b, a[0]);
      forall k ensures k in a[1..] <==> k in b[1..] {
        TailMembers(a, k);
        TailMembers(b, k);
      }
      ParsedDescendingUnique(a[1..], b[1..]);
      assert a == [a[0]] + a[1..] && b == [b[0]] + b[1..];
    }
  }

  /** `sortedYears`: the keys of the dictionary, sorted with
      `parseInt(b) - parseInt(a)`. Every key is the decimal text of a year, as
      the grouping makes it. */
  method SortedYears(groups: map<string, seq<Item>>) returns (years: seq<string>)
    requires forall k :: k in groups ==> AllDigits(k) && Decimal(ParseDecimal(k)) == k
    ensures ParsedDescending(years)
    ensures forall k :: k in years <==> k in groups
  {
    var remaining := groups.Keys;
    var ys: seq<nat> := [];
    while remaining != {}
      invariant remaining <= groups.Keys
      invariant StrictlyDescending(ys)
      invariant forall y: nat :: y in ys <==> Decimal(y) in groups && Decimal(y) !in remaining
      decreases |remaining|
    {
      var k :| k in remaining;
      var y := ParseDecimal(k);
      forall z: nat ensures Decimal(z) == k <==> z == y {
        DecimalInjective(z, y);
      }
      ys := InsertDesc(y, ys);
      remaining := remaining - {k};
    }
    years := seq(|ys|, i requires 0 <= i < |ys| => Decimal(ys[i]));
    DecimalsDescending(ys, years);
    forall k ensures k in years <==> k in groups {
      if k in groups {
        assert Decimal(ParseDecimal(k)) == k;
      }
    }
  }

  /** The decimal texts of a strictly descending list of numbers are in
      descending numeric order, and hold exactly the texts of its numbers. */
  lemma DecimalsDescending(ys: seq<nat>, years: seq<string>)
    requires StrictlyDescending(ys)
    requires |years| == |ys| && forall i :: 0 <= i < |ys| ==> years[i] == Decimal(ys[i])
    ensures ParsedDescending(years)
    ensures forall k :: k in years <==> exists y :: y in ys && Decimal(y) == k
  {
    forall i | 0 <= i < |years| ensures AllDigits(years[i]) && ParseDecimal(years[i]) == ys[i] {
      ParseDecimalOfDecimal(ys[i]);
    }
    forall k | (exists y :: y in ys && Decimal(y) == k) ensures k in years {
      var y :| y in ys && Decimal(y) == k;
      var i :| 0 <= i < |ys| && ys[i] == y;
      assert years[i] == k;
    }
    forall k | k in years ensures exists y :: y in ys && Decimal(y) == k {
      var i :| 0 <= i < |years| && years[i] == k;
      assert ys[i] in ys;
    }
  }

  /** `filteredItems.filter(item => item.verifiedStatus === 'verified').length`:
      at most the number of shown items, and equal to it exactly when every
      shown item is verified. */
  function VerifiedCount(items: seq<Item>): (n: nat)
    ensures n <= |items|
    ensures n == |items| <==> forall x :: x in items ==> x.verifiedStatus == Verified
  {
    var p := (x: Item) => x.verifiedStatus == Verified;
    KeepFullLength(items, p);
    |Keep(items, p)|
  }

  function CategoriesOf(items: seq<Item>): (r: set<Category>)
  {
    set x | x in items :: x.category
  }

  lemma {:induction false} CategoriesAtMostItems(items: seq<Item>)
    ensures |CategoriesOf(items)| <= |items|
  {
    if items != [] {
      CategoriesAtMostItems(items[1..]);
      assert items == [items[0]] + items[1..];
      assert CategoriesOf(items) == {items[0].category} + CategoriesOf(items[1..]);
    }
  }

  lemma {:induction false} SubsetCard(a: set<Category>, b: set<Category>)
    requires a <= b
    ensures |a| <= |b|
    decreases |b|
  {
    if b != {} {
      var y :| y in b;
      SubsetCard(a - {y}, b - {y});
    }
  }

  const AllCategories: set<Category> := {Achievement, Publication, Project, Service, Media, Certificate}

  lemma CategoriesWithinAll(items: seq<Item>)
    ensures CategoriesOf(items) <= AllCategories
    ensures |AllCategories| == 6
  {
    forall c: Category ensures c in AllCategories {
      match c
      case Achievement =>
      case Publication =>
      case Project =>
      case Service =>
      case Media =>
      case Certificate =>
    }
  }

  /** `new Set(filteredItems.map(item => item.category)).size`: at most the six
      categories, at most the number of shown items, and at least one when
      anything is shown. */
  function CategoryCount(items: seq<Item>): (n: nat)
    ensures n <= 6
    ensures n <= |items|
    ensures items != [] ==> n >= 1
  {
    CategoriesWithinAll(items);
    SubsetCard(CategoriesOf(items), AllCategories);
    CategoriesAtMostItems(items);
    assert items != [] ==> items[0].category in CategoriesOf(items);
    |CategoriesOf(items)|
  }

  /** What the page renders from its state. */
  datatype TimelineView = TimelineView(
    filteredItems: seq<Item>,
    groupedItems: map<string, seq<Item>>,
    sortedYears: seq<string>,
    verifiedCount: nat,
    categoryCount: nat)

  /** The timeline component: two selectors, each "all" at first. */
  class TimelinePage {
    var selectedYear: string
    var selectedCategory: string

    constructor ()
      ensures selectedYear == "all" && selectedCategory == "all"
    {
      selectedYear := "all";
      selectedCategory := "all";
    }

    method SetSelectedYear(year: string)
      modifies this`selectedYear
      ensures selectedYear == year
      ensures selectedCategory == old(selectedCategory)
    {
      selectedYear := year;
    }

    method SetSelectedCategory(category: string)
      modifies this`selectedCategory
      ensures selectedCategory == category
      ensures selectedYear == old(selectedYear)
    {
      selectedCategory := category;
    }

    /** One render: reads the shared dataset without reordering it (the sort
        runs on the array `filter` returns), groups the filtered items, lists
        the years, and counts. The group keys come out in the same order as
        `getYears()` would give for the filtered items, and the groups
        together hold every filtered item exactly once. */
    method Render(store: PortfolioStore) returns (view: TimelineView)
      ensures store.items[..] == old(store.items[..])
      ensures view.filteredItems == TimelineItems(store.items[..], selectedYear, selectedCategory)
      ensures view.groupedItems == Groups(view.filteredItems)
      ensures view.sortedYears == Years(view.filteredItems)
      ensures forall k :: k in view.sortedYears <==> k in view.groupedItems
      ensures SizeSum(view.groupedItems, view.sortedYears) == |view.filteredItems|
      ensures forall k :: k in view.groupedItems ==> NewestFirst(view.groupedItems[k])
      ensures view.verifiedCount == VerifiedCount(view.filteredItems)
      ensures view.categoryCount == CategoryCount(view.filteredItems)
    {
      var filtered := TimelineItems(store.items[..], selectedYear, selectedCategory);
      var groups := GroupByYear(filtered);
      GroupsSpec(filtered);
      forall k | k in groups ensures AllDigits(k) && Decimal(ParseDecimal(k)) == k {
        var x :| x in filtered && YearKey(x) == k;
        ParseDecimalOfDecimal(x.year);
      }
      var years := SortedYears(groups);
      YearsSpec(filtered);
      ParsedDescendingUnique(years, Years(filtered));
      assert Distinct(years) by {
        forall i, j | 0 <= i < j < |years| ensures years[i] != years[j] {
          assert ParseDecimal(years[i]) > ParseDecimal(years[j]);
        }
      }
      GroupSizesSum(filtered, years);
      GroupsNewestFirst(filtered);
      view := TimelineView(filtered, groups, years, VerifiedCount(filtered), CategoryCount(filtered));
    }
  }
}
