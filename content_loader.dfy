/** The data-access layer over the dataset's item list (src/lib/contentLoader.ts).

    Every query takes the item list it reads as a parameter, as it stands at the
    moment of the call. `getLatestUpdates` is the one operation that changes
    that list: it sorts the shared array in place, which `PortfolioStore`
    models with an array. */
module ContentLoader {
  import opened Portfolio
  import opened Text
  import opened Lists
  import opened Ordering

  /** The limit `getLatestUpdates` uses when its caller gives none. */
  const DefaultLatestLimit: int := 5

  predicate InCategory(x: Item, category: string)
  {
    CategoryName(x.category) == category
  }

  /** `getItemsByCategory(category)`: "all" hands back the item list itself;
      any other value keeps the items of that category in list order. */
  function ItemsByCategory(items: seq<Item>, category: string): (r: seq<Item>)
    ensures category == "all" ==> r == items
    ensures category != "all" ==> forall x :: x in r <==> x in items && InCategory(x, category)
    ensures category != "all" ==> forall x :: multiset(r)[x] == if InCategory(x, category) then multiset(items)[x] else 0
  {
    if category == "all" then items
    else
      var keep := (x: Item) => InCategory(x, category);
      assert forall x :: multiset(Keep(items, keep))[x] == if keep(x) then multiset(items)[x] else 0 by {
        forall x {
          KeepCount(items, keep, x);
        }
      }
      Keep(items, keep)
  }

  /** Item `i` is the first one whose id is `id`. */
  predicate FirstWithId(items: seq<Item>, id: string, i: int)
  {
    0 <= i < |items| && items[i].id == id && forall j :: 0 <= j < i ==> items[j].id != id
  }

  /** `getItemById(id)`: `Array.prototype.find`, the first item with that id,
      or undefined (`None`) when there is none. */
  function ItemById(items: seq<Item>, id: string): (r: Option<Item>)
    ensures r.None? <==> forall i :: 0 <= i < |items| ==> items[i].id != id
    ensures r.Some? ==> exists i :: FirstWithId(items, id, i) && items[i] == r.value
  {
    if items == [] then None
    else if items[0].id == id then
      assert FirstWithId(items, id, 0);
      Some(items[0])
    else
      var r := ItemById(items[1..], id);
      assert r.Some? ==> exists i :: FirstWithId(items, id, i) && items[i] == r.value by {
        if r.Some? {
          var i :| FirstWithId(items[1..], id, i) && items[1..][i] == r.value;
          assert FirstWithId(items, id, i + 1);
        }
      }
      r
  }

  /** The end index of `slice(0, limit)`: a negative limit counts back from the end. */
  function SliceEnd(n: nat, limit: int): (e: nat)
    ensures e <= n
    ensures 0 <= limit ==> e == if limit < n then limit else n
    ensures limit < 0 ==> e == if n + limit < 0 then 0 else n + limit
  {
    if limit < 0 then (if n + limit < 0 then 0 else n + limit)
    else if limit < n then limit
    else n
  }

  /** What `getLatestUpdates(limit)` returns: the first `limit` items of the
      list sorted newest first. */
  function LatestUpdates(items: seq<Item>, limit: int): (r: seq<Item>)
  {
    SortNewestFirst(items)[..SliceEnd(|items|, limit)]
  }

  /** The result has min(limit, |items|) items, newest first, drawn from the list. */
  lemma LatestUpdatesSpec(items: seq<Item>, limit: int)
    ensures var r := LatestUpdates(items, limit);
      && (0 <= limit ==> |r| == if limit < |items| then limit else |items|)
      && NewestFirst(r)
      && multiset(r) <= multiset(items)
  {
    TakeSubMultiset(SortNewestFirst(items), SliceEnd(|items|, limit));
  }

  /** No item left out of `getLatestUpdates` is newer than an item it returns. */
  lemma LatestUpdatesNewest(items: seq<Item>, limit: int, x: Item, y: Item)
    requires x in LatestUpdates(items, limit)
    requires y in items && y !in LatestUpdates(items, limit)
    ensures x.ts >= y.ts
  {
    var sorted := SortNewestFirst(items);
    var e := SliceEnd(|items|, limit);
    assert y in multiset(items);
    assert y in multiset(sorted);
    var k :| 0 <= k < |sorted| && sorted[k] == y;
    var i :| 0 <= i < e && sorted[..e][i] == x;
    assert forall j :: 0 <= j < e ==> sorted[j] in sorted[..e];
  }

  /** Called with no argument, `getLatestUpdates` returns at most five items. */
  lemma LatestUpdatesDefault(items: seq<Item>)
    ensures |LatestUpdates(items, DefaultLatestLimit)| == if |items| < 5 then |items| else 5
  {
  }

  /** The dataset's shared item array, which `getLatestUpdates` reorders. */
  class PortfolioStore {
    const items: array<Item>

    constructor (data: seq<Item>)
      ensures fresh(items) && items[..] == data
    {
      items := new Item[|data|](i requires 0 <= i < |data| => data[i]);
    }

    /** `getLatestUpdates(limit)`: sorts `data.items` itself newest first, then
        copies out the first `limit` items. */
    method GetLatestUpdates(limit: int) returns (r: seq<Item>)
      modifies items
      ensures items[..] == SortNewestFirst(old(items[..]))
      ensures multiset(items[..]) == multiset(old(items[..]))
      ensures r == LatestUpdates(old(items[..]), limit)
    {
      var sorted := SortNewestFirst(items[..]);
      forall i | 0 <= i < items.Length {
        items[i] := sorted[i];
      }
      r := items[..SliceEnd(items.Length, limit)];
    }
  }

  /** The case-insensitive test `searchItems` applies with the lower-cased query. */
  predicate MatchesQuery(x: Item, lowerQuery: string)
  {
    || Contains(Lower(x.title), lowerQuery)
    || Contains(Lower(x.summary), lowerQuery)
    || Contains(Lower(x.description), lowerQuery)
    || exists k :: 0 <= k < |x.tags| && Contains(Lower(x.tags[k]), lowerQuery)
  }

  predicate SearchMatches(x: Item, query: string)
  {
    MatchesQuery(x, Lower(query))
  }

  /** `searchItems(query)`: the items whose title, summary, description or some
      tag contains the query, ignoring case, in list order. */
  function SearchItems(items: seq<Item>, query: string): (r: seq<Item>)
    ensures forall x :: x in r <==> x in items && SearchMatches(x, query)
    ensures forall x :: multiset(r)[x] == if SearchMatches(x, query) then multiset(items)[x] else 0
    ensures query == "" ==> r == items
  {
    var keep := (x: Item) => SearchMatches(x, query);
    assert forall x :: multiset(Keep(items, keep))[x] == if keep(x) then multiset(items)[x] else 0 by {
      forall x {
        KeepCount(items, keep, x);
      }
    }
    if query == "" then
      assert forall x :: x in items ==> keep(x) by {
        forall x | x in items ensures keep(x) {
          ContainsEmpty(Lower(x.title));
        }
      }
      KeepAll(items, keep);
      Keep(items, keep)
    else
      Keep(items, keep)
  }

  /** The argument of `filterItems`: every key optional. */
  datatype ItemFilter = ItemFilter(
    category: Option<string>,
    year: Option<string>,
    verified: Option<string>,
    tags: Option<seq<string>>)

  predicate ByCategory(f: ItemFilter, x: Item)
  {
    IsActive(f.category) ==> InCategory(x, f.category.value)
  }

  predicate ByYear(f: ItemFilter, x: Item)
  {
    IsActive(f.year) ==> Decimal(x.year) == f.year.value
  }

  predicate ByVerified(f: ItemFilter, x: Item)
  {
    IsActive(f.verified) ==> StatusName(x.verifiedStatus) == f.verified.value
  }

  predicate TagsActive(f: ItemFilter)
  {
    f.tags.Some? && |f.tags.value| > 0
  }

  /** Any-of: some tag of the filter is among the item's tags. */
  predicate ByTags(f: ItemFilter, x: Item)
  {
    TagsActive(f) ==> exists k :: 0 <= k < |f.tags.value| && f.tags.value[k] in x.tags
  }

  /** All active constraints of the filter hold of the item. */
  predicate MatchesFilter(f: ItemFilter, x: Item)
  {
    ByCategory(f, x) && ByYear(f, x) && ByVerified(f, x) && ByTags(f, x)
  }

  /** `filterItems(filters)`: narrows the list one active key at a time; the
      result is the single filter by the conjunction of the active keys. */
  method FilterItems(data: seq<Item>, f: ItemFilter) returns (items: seq<Item>)
    ensures items == Keep(data, (x: Item) => MatchesFilter(f, x))
  {
    var c := (x: Item) => ByCategory(f, x);
    var cy := (x: Item) => ByCategory(f, x) && ByYear(f, x);
    var cyv := (x: Item) => ByCategory(f, x) && ByYear(f, x) && ByVerified(f, x);
    var all := (x: Item) => MatchesFilter(f, x);
    items := data;
    if IsActive(f.category) {
      items := Keep(items, (x: Item) => InCategory(x, f.category.value));
      KeepSame(data, (x: Item) => InCategory(x, f.category.value), c);
    } else {
      KeepAll(data, c);
    }
    assert items == Keep(data, c);
    if IsActive(f.year) {
      var p := (x: Item) => Decimal(x.year) == f.year.value;
      items := Keep(items, p);
      KeepKeep(data, c, p, cy);
    } else {
      KeepKeep(data, c, (x: Item) => true, cy);
      KeepAll(Keep(data, c), (x: Item) => true);
    }
    assert items == Keep(data, cy);
    if IsActive(f.verified) {
      var p := (x: Item) => StatusName(x.verifiedStatus) == f.verified.value;
      items := Keep(items, p);
      KeepKeep(data, cy, p, cyv);
    } else {
      KeepKeep(data, cy, (x: Item) => true, cyv);
      KeepAll(Keep(data, cy), (x: Item) => true);
    }
    assert items == Keep(data, cyv);
    if TagsActive(f) {
      var p := (x: Item) => exists k :: 0 <= k < |f.tags.value| && f.tags.value[k] in x.tags;
      items := Keep(items, p);
      KeepKeep(data, cyv, p, all);
    } else {
      KeepKeep(data, cyv, (x: Item) => true, all);
      KeepAll(Keep(data, cyv), (x: Item) => true);
    }
  }

  /** The filter is sound and complete for its active constraints, keeps each
      matching item as often as the list has it, and with no constraint
      returns the whole list. */
  lemma FilterItemsSpec(data: seq<Item>, f: ItemFilter)
    ensures var r := Keep(data, (x: Item) => MatchesFilter(f, x));
      && (forall x :: x in r <==> x in data && MatchesFilter(f, x))
      && (forall x :: multiset(r)[x] == if MatchesFilter(f, x) then multiset(data)[x] else 0)
      && (!IsActive(f.category) && !IsActive(f.year) && !IsActive(f.verified) && !TagsActive(f) ==> r == data)
  {
    var p := (x: Item) => MatchesFilter(f, x);
    forall x {
      KeepCount(data, p, x);
    }
    if !IsActive(f.category) && !IsActive(f.year) && !IsActive(f.verified) && !TagsActive(f) {
      KeepAll(data, p);
    }
  }

  /** The category, year and verification filters can run in any of the six
      orders: each gives the filter by their conjunction. */
  lemma FilterOrderIndependent(data: seq<Item>, f: ItemFilter)
    ensures var c, y, v := (x: Item) => ByCategory(f, x), (x: Item) => ByYear(f, x), (x: Item) => ByVerified(f, x);
      var all := Keep(data, (x: Item) => ByCategory(f, x) && ByYear(f, x) && ByVerified(f, x));
      && Keep(Keep(Keep(data, c), y), v) == all
      && Keep(Keep(Keep(data, c), v), y) == all
      && Keep(Keep(Keep(data, y), c), v) == all
      && Keep(Keep(Keep(data, y), v), c) == all
      && Keep(Keep(Keep(data, v), c), y) == all
      && Keep(Keep(Keep(data, v), y), c) == all
  {
    var c, y, v := (x: Item) => ByCategory(f, x), (x: Item) => ByYear(f, x), (x: Item) => ByVerified(f, x);
    var cyv := (x: Item) => ByCategory(f, x) && ByYear(f, x) && ByVerified(f, x);
    KeepThree(data, c, y, v, cyv);
    KeepThree(data, c, v, y, cyv);
    KeepThree(data, y, c, v, cyv);
    KeepThree(data, y, v, c, cyv);
    KeepThree(data, v, c, y, cyv);
    KeepThree(data, v, y, c, cyv);
  }

  /** `items.map(item => year)`. */
  function YearsOf(items: seq<Item>): (ys: seq<nat>)
    ensures |ys| == |items|
    ensures forall i :: 0 <= i < |items| ==> ys[i] == items[i].year
  {
    seq(|items|, i requires 0 <= i < |items| => items[i].year)
  }

  /** `getYears()`: the distinct years as strings, sorted with
      `parseInt(b) - parseInt(a)`. */
  function Years(items: seq<Item>): (r: seq<string>)
  {
    var ys := DistinctDescending(YearsOf(items));
    seq(|ys|, i requires 0 <= i < |ys| => Decimal(ys[i]))
  }

  /** `getYears()` is free of duplicates, strictly descending as numbers, and
      holds exactly the years of the items. */
  lemma YearsSpec(items: seq<Item>)
    ensures var r := Years(items);
      && (forall i :: 0 <= i < |r| ==> AllDigits(r[i]))
      && (forall i, j :: 0 <= i < j < |r| ==> ParseDecimal(r[i]) > ParseDecimal(r[j]))
      && (forall i, j :: 0 <= i < j < |r| ==> r[i] != r[j])
      && (forall s :: s in r <==> exists x :: x in items && Decimal(x.year) == s)
  {
    var ys := DistinctDescending(YearsOf(items));
    var r := Years(items);
    forall i | 0 <= i < |r| ensures ParseDecimal(r[i]) == ys[i] {
      ParseDecimalOfDecimal(ys[i]);
    }
    forall s | s in r ensures exists x :: x in items && Decimal(x.year) == s {
      var i :| 0 <= i < |r| && r[i] == s;
      assert ys[i] in YearsOf(items);
      var k :| 0 <= k < |items| && YearsOf(items)[k] == ys[i];
      assert items[k] in items;
    }
    forall s | exists x :: x in items && Decimal(x.year) == s ensures s in r {
      var x :| x in items && Decimal(x.year) == s;
      var k :| 0 <= k < |items| && items[k] == x;
      assert YearsOf(items)[k] == x.year;
      assert x.year in YearsOf(items);
      var i :| 0 <= i < |ys| && ys[i] == x.year;
      assert r[i] == s;
    }
  }

  /** `items.flatMap(item => item.tags)`. */
  function TagsOf(items: seq<Item>): (ts: seq<string>)
    ensures forall t :: t in ts <==> exists x :: x in items && t in x.tags
  {
    if items == [] then []
    else
      assert forall x :: x in items <==> x == items[0] || x in items[1..] by {
        assert items == [items[0]] + items[1..];
      }
      items[0].tags + TagsOf(items[1..])
  }

  /** `getAllTags()`: the distinct tags in the default ascending string order. */
  function AllTags(items: seq<Item>): (r: seq<string>)
  {
    DistinctAscending(TagsOf(items))
  }

  /** `getAllTags()` is free of duplicates, ascending, and holds exactly the
      union of the items' tags. */
  lemma AllTagsSpec(items: seq<Item>)
    ensures var r := AllTags(items);
      && StrictlyAscending(r)
      && (forall i, j :: 0 <= i < j < |r| ==> r[i] != r[j])
      && (forall t :: t in r <==> exists x :: x in items && t in x.tags)
  {
    var r := AllTags(items);
    forall i, j | 0 <= i < j < |r| ensures r[i] != r[j] {
      AscendingDistinct(r, i, j);
    }
  }

  /** `getItemsByTag(tag)`: the items carrying the tag, in list order. */
  function ItemsByTag(items: seq<Item>, tag: string): (r: seq<Item>)
    ensures forall x :: x in r <==> x in items && tag in x.tags
    ensures multiset(r) <= multiset(items)
    ensures forall x :: multiset(r)[x] == if tag in x.tags then multiset(items)[x] else 0
  {
    var keep := (x: Item) => tag in x.tags;
    assert forall x :: multiset(Keep(items, keep))[x] == if keep(x) then multiset(items)[x] else 0 by {
      forall x {
        KeepCount(items, keep, x);
      }
    }
    Keep(items, keep)
  }
}
