/** The orderings the site sorts by: items newest first (a stable sort with the
    comparator `(a, b) => b.ts - a.ts`), years numerically descending and tags
    in the default ascending string order. */
module Ordering {
  import opened Portfolio
  import opened Text
  import opened Lists

  /** Timestamps never increase along the list. */
  predicate NewestFirst(s: seq<Item>)
  {
    forall i, j :: 0 <= i < j < |s| ==> s[i].ts >= s[j].ts
  }

  /** Puts `x` in front of the first element that is not newer than it. */
  function InsertByDate(x: Item, r: seq<Item>): (o: seq<Item>)
    ensures |o| == |r| + 1
    ensures o[0] == x || (r != [] && o[0] == r[0])
    ensures multiset(o) == multiset(r) + multiset{x}
  {
    if r == [] || r[0].ts <= x.ts then [x] + r
    else
      assert r == [r[0]] + r[1..];
      [r[0]] + InsertByDate(x, r[1..])
  }

  /** Inserting into a newest-first list keeps it newest first. */
  lemma {:induction false} InsertKeepsNewestFirst(x: Item, r: seq<Item>)
    requires NewestFirst(r)
    ensures NewestFirst(InsertByDate(x, r))
  {
    if r != [] && r[0].ts > x.ts {
      var rest := InsertByDate(x, r[1..]);
      InsertKeepsNewestFirst(x, r[1..]);
      assert r[0].ts >= rest[0].ts;
      var o := [r[0]] + rest;
      forall i, j | 0 <= i < j < |o| ensures o[i].ts >= o[j].ts {
        if i == 0 {
          assert o[j] in multiset(rest);
          assert o[j] == x || o[j] in r[1..];
        }
      }
    }
  }

  /** `items.sort((a, b) => b.ts - a.ts)`: Array.prototype.sort is stable, so
      this insertion sort, which never moves an item past an equally new one
      that came before it, is the reference for it. */
  function SortNewestFirst(s: seq<Item>): (r: seq<Item>)
    ensures |r| == |s|
    ensures multiset(r) == multiset(s)
    ensures NewestFirst(r)
  {
    if s == [] then []
    else
      assert s == [s[0]] + s[1..];
      InsertKeepsNewestFirst(s[0], SortNewestFirst(s[1..]));
      InsertByDate(s[0], SortNewestFirst(s[1..]))
  }

  /** Sorting neither adds nor drops an item. */
  lemma SortSameMembers(s: seq<Item>)
    ensures forall x :: x in SortNewestFirst(s) <==> x in s
  {
    var r := SortNewestFirst(s);
    forall x ensures x in r <==> x in s {
      assert x in r <==> x in multiset(r);
      assert x in s <==> x in multiset(s);
    }
  }

  /** The items with timestamp `t`, in list order. */
  function AtTime(s: seq<Item>, t: int): (r: seq<Item>)
  {
    if s == [] then []
    else (if s[0].ts == t then [s[0]] else []) + AtTime(s[1..], t)
  }

  lemma {:induction false} InsertAtTime(x: Item, r: seq<Item>, t: int)
    ensures AtTime(InsertByDate(x, r), t) == if x.ts == t then [x] + AtTime(r, t) else AtTime(r, t)
  {
    if r == [] || r[0].ts <= x.ts {
      assert ([x] + r)[1..] == r;
    } else {
      InsertAtTime(x, r[1..], t);
      var rest := InsertByDate(x, r[1..]);
      assert ([r[0]] + rest)[1..] == rest;
      assert r == [r[0]] + r[1..];
    }
  }

  /** The sort is stable: items with the same timestamp keep their order. */
  lemma {:induction false} SortStable(s: seq<Item>, t: int)
    ensures AtTime(SortNewestFirst(s), t) == AtTime(s, t)
  {
    if s != [] {
      var tail := SortNewestFirst(s[1..]);
      SortStable(s[1..], t);
      InsertAtTime(s[0], tail, t);
    }
  }

  /** An item older than every element of the list goes to its end. */
  lemma {:induction false} InsertOldest(x: Item, r: seq<Item>)
    requires forall k :: 0 <= k < |r| ==> r[k].ts > x.ts
    ensures InsertByDate(x, r) == r + [x]
  {
    if r != [] {
      InsertOldest(x, r[1..]);
      assert r == [r[0]] + r[1..];
    }
  }

  /** Sorting a list that is already newest first leaves it as it is, so
      sorting twice is sorting once. */
  lemma {:induction false} SortSortedIsIdentity(s: seq<Item>)
    requires NewestFirst(s)
    ensures SortNewestFirst(s) == s
  {
    if s != [] {
      SortSortedIsIdentity(s[1..]);
      assert s[1..] == [] || s[1..][0].ts <= s[0].ts;
    }
  }

  /** Filtering a newest-first list leaves it newest first. */
  lemma {:induction false} KeepNewestFirst(s: seq<Item>, p: Item -> bool)
    requires NewestFirst(s)
    ensures NewestFirst(Keep(s, p))
  {
    if s != [] {
      KeepNewestFirst(s[1..], p);
      var rest := Keep(s[1..], p);
      assert forall k :: 0 <= k < |rest| ==> rest[k] in s[1..];
    }
  }

  lemma SortIdempotent(s: seq<Item>)
    ensures SortNewestFirst(SortNewestFirst(s)) == SortNewestFirst(s)
  {
    SortSortedIsIdentity(SortNewestFirst(s));
  }

  // Years: distinct and numerically descending.

  predicate StrictlyDescending(s: seq<nat>)
  {
    forall i, j :: 0 <= i < j < |s| ==> s[i] > s[j]
  }

  /** Adds `x` to a strictly descending list unless it is already there. */
  function InsertDesc(x: nat, s: seq<nat>): (r: seq<nat>)
    requires StrictlyDescending(s)
    ensures r != [] && (r[0] == x || (s != [] && r[0] == s[0]))
    ensures StrictlyDescending(r)
    ensures forall y :: y in r <==> y in s || y == x
  {
    if s == [] then [x]
    else if x == s[0] then s
    else if x > s[0] then [x] + s
    else
      assert s == [s[0]] + s[1..];
      [s[0]] + InsertDesc(x, s[1..])
  }

  /** `Array.from(new Set(xs)).sort((a, b) => b - a)`. */
  function DistinctDescending(xs: seq<nat>): (r: seq<nat>)
    ensures StrictlyDescending(r)
    ensures forall y :: y in r <==> y in xs
  {
    if xs == [] then []
    else
      assert xs == [xs[0]] + xs[1..];
      InsertDesc(xs[0], DistinctDescending(xs[1..]))
  }

  // Tags: distinct and ascending in string order.

  predicate StrictlyAscending(s: seq<string>)
  {
    forall i, j :: 0 <= i < j < |s| ==> LexLess(s[i], s[j])
  }

  /** A strictly ascending list has no duplicates. */
  lemma AscendingDistinct(s: seq<string>, i: int, j: int)
    requires StrictlyAscending(s) && 0 <= i < j < |s|
    ensures s[i] != s[j]
  {
    LexLessIrreflexive(s[i]);
  }

  /** Adds `x` to a strictly ascending list unless it is already there. */
  function InsertAsc(x: string, s: seq<string>): (r: seq<string>)
    requires StrictlyAscending(s)
    ensures r != [] && (r[0] == x || (s != [] && r[0] == s[0]))
    ensures StrictlyAscending(r)
    ensures forall y :: y in r <==> y in s || y == x
  {
    if s == [] then [x]
    else if x == s[0] then s
    else if LexLess(x, s[0]) then
      assert forall j :: 0 < j < |s| ==> LexLess(x, s[j]) by {
        forall j | 0 < j < |s| ensures LexLess(x, s[j]) {
          LexLessTransitive(x, s[0], s[j]);
        }
      }
      [x] + s
    else
      LexLessTotal(x, s[0]);
      assert s == [s[0]] + s[1..];
      var rest := InsertAsc(x, s[1..]);
      assert forall k :: 0 <= k < |rest| ==> LexLess(s[0], rest[k]) by {
        forall k | 0 <= k < |rest| ensures LexLess(s[0], rest[k]) {
          if k > 0 {
            LexLessTransitive(s[0], rest[0], rest[k]);
          }
        }
      }
      [s[0]] + rest
  }

  /** `Array.from(new Set(xs)).sort()`. */
  function DistinctAscending(xs: seq<string>): (r: seq<string>)
    ensures StrictlyAscending(r)
    ensures forall y :: y in r <==> y in xs
  {
    if xs == [] then []
    else
      assert xs == [xs[0]] + xs[1..];
      InsertAsc(xs[0], DistinctAscending(xs[1..]))
  }
}
