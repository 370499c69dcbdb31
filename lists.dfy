/** `Array.prototype.filter` and the facts about it the query layer relies on. */
module Lists {

  /** `s.filter(p)`: the elements satisfying `p`, in their original order. */
  function Keep<T(!new)>(s: seq<T>, p: T -> bool): (r: seq<T>)
    ensures |r| <= |s|
    ensures forall x :: x in r <==> x in s && p(x)
    ensures multiset(r) <= multiset(s)
  {
    if s == [] then []
    else
      assert s == [s[0]] + s[1..];
      (if p(s[0]) then [s[0]] else []) + Keep(s[1..], p)
  }

  /** A prefix takes no element more often than the whole list has it. */
  lemma TakeSubMultiset<T>(s: seq<T>, e: int)
    requires 0 <= e <= |s|
    ensures multiset(s[..e]) <= multiset(s)
  {
    assert s == s[..e] + s[e..];
  }

  /** Filtering a list with a given first element. */
  lemma KeepCons<T(!new)>(x: T, s: seq<T>, p: T -> bool)
    ensures Keep([x] + s, p) == (if p(x) then [x] else []) + Keep(s, p)
  {
    assert ([x] + s)[1..] == s;
  }

  /** Filtering distributes over concatenation, so it keeps relative order. */
  lemma {:induction false} KeepAppend<T(!new)>(a: seq<T>, b: seq<T>, p: T -> bool)
    ensures Keep(a + b, p) == Keep(a, p) + Keep(b, p)
  {
    if a == [] {
      assert a + b == b;
      assert Keep(a, p) + Keep(b, p) == Keep(b, p);
    } else {
      var head := if p(a[0]) then [a[0]] else [];
      calc {
        Keep(a + b, p);
        { assert a + b == [a[0]] + (a[1..] + b); }
        Keep([a[0]] + (a[1..] + b), p);
        { KeepCons(a[0], a[1..] + b, p); }
        head + Keep(a[1..] + b, p);
        { KeepAppend(a[1..], b, p); }
        head + (Keep(a[1..], p) + Keep(b, p));
        (head + Keep(a[1..], p)) + Keep(b, p);
        { KeepCons(a[0], a[1..], p); assert a == [a[0]] + a[1..]; }
        Keep(a, p) + Keep(b, p);
      }
    }
  }

  /** Two successive filters are one filter by the conjunction. */
  lemma {:induction false} KeepKeep<T(!new)>(s: seq<T>, p: T -> bool, q: T -> bool, pq: T -> bool)
    requires forall x :: pq(x) == (p(x) && q(x))
    ensures Keep(Keep(s, p), q) == Keep(s, pq)
  {
    if s != [] {
      KeepKeep(s[1..], p, q, pq);
      KeepAppend(if p(s[0]) then [s[0]] else [], Keep(s[1..], p), q);
    }
  }

  /** A filter that every element passes returns the input unchanged. */
  lemma {:induction false} KeepAll<T(!new)>(s: seq<T>, p: T -> bool)
    requires forall x :: x in s ==> p(x)
    ensures Keep(s, p) == s
  {
    if s != [] {
      KeepAll(s[1..], p);
    }
  }

  /** Filters by predicates that agree on the input give the same result. */
  lemma {:induction false} KeepSame<T(!new)>(s: seq<T>, p: T -> bool, q: T -> bool)
    requires forall x :: x in s ==> p(x) == q(x)
    ensures Keep(s, p) == Keep(s, q)
  {
    if s != [] {
      KeepSame(s[1..], p, q);
    }
  }

  /** Each element occurs in the filtered list as often as in the input when it
      passes, and not at all otherwise. */
  lemma {:induction false} KeepCount<T(!new)>(s: seq<T>, p: T -> bool, x: T)
    ensures multiset(Keep(s, p))[x] == if p(x) then multiset(s)[x] else 0
  {
    if s != [] {
      assert s == [s[0]] + s[1..];
      KeepCount(s[1..], p, x);
    }
  }

  /** A filter by the union of two disjoint predicates keeps as many elements
      as the two filters together. */
  lemma {:induction false} KeepSplitCount<T(!new)>(s: seq<T>, p: T -> bool, q: T -> bool, pq: T -> bool)
    requires forall x :: pq(x) == (p(x) || q(x))
    requires forall x :: !(p(x) && q(x))
    ensures |Keep(s, pq)| == |Keep(s, p)| + |Keep(s, q)|
  {
    if s != [] {
      KeepSplitCount(s[1..], p, q, pq);
    }
  }

  /** A filter drops nothing exactly when every element passes it. */
  lemma {:induction false} KeepFullLength<T(!new)>(s: seq<T>, p: T -> bool)
    ensures |Keep(s, p)| == |s| <==> forall x :: x in s ==> p(x)
  {
    if s != [] {
      assert s == [s[0]] + s[1..];
      KeepFullLength(s[1..], p);
    }
  }

  /** A filter that no element passes returns the empty list. */
  lemma {:induction false} KeepNone<T(!new)>(s: seq<T>, p: T -> bool)
    requires forall x :: x in s ==> !p(x)
    ensures Keep(s, p) == []
  {
    if s != [] {
      KeepNone(s[1..], p);
    }
  }

  /** Three successive filters are one filter by the conjunction of all three. */
  lemma KeepThree<T(!new)>(s: seq<T>, p: T -> bool, q: T -> bool, r: T -> bool, pqr: T -> bool)
    requires forall x :: pqr(x) == (p(x) && q(x) && r(x))
    ensures Keep(Keep(Keep(s, p), q), r) == Keep(s, pqr)
  {
    var pq := x => p(x) && q(x);
    KeepKeep(s, p, q, pq);
    KeepKeep(s, pq, r, pqr);
  }
}
