/** The pure helpers of src/lib/utils.ts: `slugify`, the relative-time label,
    `isNewItem` and the three lookup tables.

    The clock is not modelled: `getRelativeTime` and `isNewItem` receive the
    millisecond difference `now - date` that they would compute. */
module Utils {
  import opened Text

  // slugify

  /** `\w` without the `u` flag: ASCII letters, digits and underscore. */
  predicate IsWordChar(c: char)
  {
    IsLower(c) || IsUpper(c) || IsDigit(c) || c == '_'
  }

  /** `\s`, restricted to ASCII: space, tab, line feed, vertical tab, form feed, carriage return. */
  predicate IsSpace(c: char)
  {
    c == ' ' || 9 <= c as int <= 13
  }

  /** The class `[\s_-]` that the second rewrite collapses. */
  predicate IsSeparator(c: char)
  {
    IsSpace(c) || c == '_' || c == '-'
  }

  /** `.replace(/[^\w\s-]/g, '')`: drops every character outside `[\w\s-]`. */
  function StripDisallowed(s: string): (r: string)
    ensures forall i :: 0 <= i < |r| ==> IsWordChar(r[i]) || IsSpace(r[i]) || r[i] == '-'
    ensures forall i :: 0 <= i < |r| ==> r[i] in s
  {
    if s == [] then []
    else if IsWordChar(s[0]) || IsSpace(s[0]) || s[0] == '-' then [s[0]] + StripDisallowed(s[1..])
    else StripDisallowed(s[1..])
  }

  /** Drops the separators at the front of `s`. */
  function DropSeparators(s: string): (r: string)
    ensures |r| <= |s|
    ensures r == s[|s| - |r|..]
    ensures r != [] ==> !IsSeparator(r[0])
  {
    if s != [] && IsSeparator(s[0]) then DropSeparators(s[1..]) else s
  }

  /** `.replace(/[\s_-]+/g, '-')`: each maximal run of separators becomes one dash. */
  function CollapseSeparators(s: string): (r: string)
    ensures s != [] && !IsSeparator(s[0]) ==> r != [] && r[0] == s[0]
    decreases |s|
  {
    if s == [] then []
    else if IsSeparator(s[0]) then "-" + CollapseSeparators(DropSeparators(s[1..]))
    else [s[0]] + CollapseSeparators(s[1..])
  }

  /** `.replace(/^-+/, '')` */
  function TrimStart(s: string): (r: string)
    ensures |r| <= |s| && r == s[|s| - |r|..]
    ensures r != [] ==> r[0] != '-'
  {
    if s != [] && s[0] == '-' then
      var r := TrimStart(s[1..]);
      assert s[1..][|s| - 1 - |r|..] == s[|s| - |r|..];
      r
    else s
  }

  /** `.replace(/-+$/, '')` */
  function TrimEnd(s: string): (r: string)
    ensures |r| <= |s| && r == s[..|r|]
    ensures r != [] ==> r[|r| - 1] != '-'
  {
    if s != [] && s[|s| - 1] == '-' then
      var r := TrimEnd(s[..|s| - 1]);
      assert s[..|s| - 1][..|r|] == s[..|r|];
      r
    else s
  }

  /** `slugify(text)`: lower-case, drop the characters outside `[\w\s-]`, turn
      runs of `[\s_-]` into one dash, strip dashes at both ends. */
  function Slugify(text: string): (r: string)
  {
    TrimEnd(TrimStart(CollapseSeparators(StripDisallowed(Lower(text)))))
  }

  /** A character a slug may hold: `[a-z0-9-]`. */
  predicate SlugChar(c: char)
  {
    IsLower(c) || IsDigit(c) || c == '-'
  }

  /** No two dashes in a row. The pair of indices gives the quantifier the
      trigger `s[i], s[j]`; a single index with `s[i + 1]` would re-trigger on
      its own output. */
  ghost predicate NoDoubleDash(s: string)
  {
    forall i, j :: 0 <= i < j < |s| && j == i + 1 ==> s[i] != '-' || s[j] != '-'
  }

  /** A slice of a string with no two dashes in a row has none either. */
  lemma NoDoubleDashSlice(s: string, lo: int, hi: int)
    requires NoDoubleDash(s) && 0 <= lo <= hi <= |s|
    ensures NoDoubleDash(s[lo..hi])
  {
    var t := s[lo..hi];
    forall i, j | 0 <= i < j < |t| && j == i + 1
      ensures t[i] != '-' || t[j] != '-'
    {
      assert t[i] == s[lo + i] && t[j] == s[lo + j];
    }
  }

  /** What `slugify` produces: only `[a-z0-9-]`, never two dashes in a row,
      never a dash at either end. */
  ghost predicate IsSlug(s: string)
  {
    && (forall i :: 0 <= i < |s| ==> SlugChar(s[i]))
    && NoDoubleDash(s)
    && (s != [] ==> s[0] != '-' && s[|s| - 1] != '-')
  }

  /** A character that survives the first two steps on lower-cased text. */
  predicate Stripped(c: char)
  {
    IsLower(c) || IsDigit(c) || IsSeparator(c)
  }

  /** One character in front of a string with no two dashes in a row keeps
      that property unless both it and the string's head are dashes. */
  lemma NoDoubleDashCons(c: char, r: string)
    requires NoDoubleDash(r)
    requires c != '-' || r == [] || r[0] != '-'
    ensures NoDoubleDash([c] + r)
  {
    var t := [c] + r;
    forall i, j | 0 <= i < j < |t| && j == i + 1
      ensures t[i] != '-' || t[j] != '-'
    {
      if i > 0 {
        assert t[i] == r[i - 1] && t[j] == r[j - 1];
      }
    }
  }

  /** Collapsing a string of `[a-z0-9]` and separators leaves only `[a-z0-9-]`. */
  lemma {:induction false} CollapseChars(s: string)
    requires forall i :: 0 <= i < |s| ==> Stripped(s[i])
    ensures forall i :: 0 <= i < |CollapseSeparators(s)| ==> SlugChar(CollapseSeparators(s)[i])
    decreases |s|
  {
    if s != [] {
      if IsSeparator(s[0]) {
        var t := DropSeparators(s[1..]);
        assert forall i :: 0 <= i < |t| ==> t[i] == s[1..][|s[1..]| - |t| + i];
        CollapseChars(t);
        SlugCharsCons('-', CollapseSeparators(t));
      } else {
        CollapseChars(s[1..]);
        SlugCharsCons(s[0], CollapseSeparators(s[1..]));
      }
    }
  }

  lemma SlugCharsCons(c: char, r: string)
    requires SlugChar(c) && forall i :: 0 <= i < |r| ==> SlugChar(r[i])
    ensures forall i :: 0 <= i < |[c] + r| ==> SlugChar(([c] + r)[i])
  {
  }

  /** Collapsing never leaves two dashes in a row: a run becomes one dash,
      and what follows it starts with a non-separator. */
  lemma {:induction false} CollapseNoDoubleDash(s: string)
    ensures NoDoubleDash(CollapseSeparators(s))
    decreases |s|
  {
    if s != [] {
      if IsSeparator(s[0]) {
        var t := DropSeparators(s[1..]);
        CollapseNoDoubleDash(t);
        var rest := CollapseSeparators(t);
        assert CollapseSeparators(s) == ['-'] + rest;
        NoDoubleDashCons('-', rest);
      } else {
        CollapseNoDoubleDash(s[1..]);
        var rest := CollapseSeparators(s[1..]);
        assert CollapseSeparators(s) == [s[0]] + rest;
        NoDoubleDashCons(s[0], rest);
      }
    }
  }

  /** Trimming the front keeps the characters and the no-double-dash property. */
  lemma {:induction false} TrimStartShape(s: string)
    requires forall i :: 0 <= i < |s| ==> SlugChar(s[i])
    requires NoDoubleDash(s)
    ensures var a := TrimStart(s);
      (forall i :: 0 <= i < |a| ==> SlugChar(a[i])) && NoDoubleDash(a)
  {
    if s != [] && s[0] == '-' {
      NoDoubleDashSlice(s, 1, |s|);
      TrimStartShape(s[1..]);
    }
  }

  /** Trimming the back of a string that does not start with a dash gives a slug. */
  lemma TrimEndShape(a: string)
    requires forall i :: 0 <= i < |a| ==> SlugChar(a[i])
    requires NoDoubleDash(a)
    requires a != [] ==> a[0] != '-'
    ensures IsSlug(TrimEnd(a))
  {
    var b := TrimEnd(a);
    assert forall i :: 0 <= i < |b| ==> b[i] == a[i];
    NoDoubleDashSlice(a, 0, |b|);
  }

  lemma TrimKeepsShape(s: string)
    requires forall i :: 0 <= i < |s| ==> SlugChar(s[i])
    requires NoDoubleDash(s)
    ensures IsSlug(TrimEnd(TrimStart(s)))
  {
    TrimStartShape(s);
    TrimEndShape(TrimStart(s));
  }

  /** Whatever the input, `slugify` returns a slug. */
  lemma SlugifyIsSlug(text: string)
    ensures IsSlug(Slugify(text))
  {
    var stripped := StripDisallowed(Lower(text));
    assert forall i :: 0 <= i < |stripped| ==> Stripped(stripped[i]);
    CollapseChars(stripped);
    CollapseNoDoubleDash(stripped);
    TrimKeepsShape(CollapseSeparators(stripped));
  }

  lemma {:induction false} StripKeepsAllowed(s: string)
    requires forall i :: 0 <= i < |s| ==> SlugChar(s[i])
    ensures StripDisallowed(s) == s
  {
    if s != [] {
      StripKeepsAllowed(s[1..]);
    }
  }

  /** A string of `[a-z0-9-]` with no two dashes in a row has no run to
      collapse. */
  lemma {:induction false} CollapseKeepsSlug(s: string)
    requires forall i :: 0 <= i < |s| ==> SlugChar(s[i])
    requires NoDoubleDash(s)
    ensures CollapseSeparators(s) == s
    decreases |s|
  {
    if s != [] {
      NoDoubleDashSlice(s, 1, |s|);
      CollapseKeepsSlug(s[1..]);
      if s[0] == '-' {
        assert |s| >= 2 ==> s[1] != '-';
        assert DropSeparators(s[1..]) == s[1..];
      }
      assert s == [s[0]] + s[1..];
    }
  }

  /** A slug is its own slug. */
  lemma SlugifyFixesSlugs(s: string)
    requires IsSlug(s)
    ensures Slugify(s) == s
  {
    assert Lower(s) == s;
    StripKeepsAllowed(s);
    CollapseKeepsSlug(s);
  }

  /** `slugify(slugify(s)) == slugify(s)`. */
  lemma SlugifyIdempotent(text: string)
    ensures Slugify(Slugify(text)) == Slugify(text)
  {
    SlugifyIsSlug(text);
    SlugifyFixesSlugs(Slugify(text));
  }

  // getRelativeTime and isNewItem

  /** `1000 * 60 * 60 * 24` */
  const MsPerDay: int := 86400000

  /** `Math.floor(diffInMs / MsPerDay)`: Dafny's division by a positive
      divisor already rounds down, also for a negative (future) difference. */
  function DiffInDays(diffMs: int): (d: int)
    ensures d * MsPerDay <= diffMs < (d + 1) * MsPerDay
  {
    diffMs / MsPerDay
  }

  /** The bucket `getRelativeTime` picks and the count it prints. */
  datatype RelativeTime = Today | DaysAgo(days: int) | WeeksAgo(weeks: int) | MonthsAgo(months: int) | YearsAgo(years: int)

  /** The if-ladder on the floored day count. The separate `=== 1` branch of
      the source prints "1 hari yang lalu", which is what `DaysAgo(1)` prints. */
  function RelativeBucket(d: int): (r: RelativeTime)
    ensures r.Today? <==> d == 0
    ensures r.DaysAgo? <==> d != 0 && d < 7
    ensures r.DaysAgo? ==> r.days == d
    ensures r.WeeksAgo? <==> 7 <= d < 30
    ensures r.WeeksAgo? ==> 1 <= r.weeks <= 4 && r.weeks * 7 <= d < (r.weeks + 1) * 7
    ensures r.MonthsAgo? <==> 30 <= d < 365
    ensures r.MonthsAgo? ==> 1 <= r.months <= 12 && r.months * 30 <= d < (r.months + 1) * 30
    ensures r.YearsAgo? <==> 365 <= d
    ensures r.YearsAgo? ==> 1 <= r.years && r.years * 365 <= d < (r.years + 1) * 365
  {
    if d == 0 then Today
    else if d < 7 then DaysAgo(d)
    else if d < 30 then WeeksAgo(d / 7)
    else if d < 365 then MonthsAgo(d / 30)
    else YearsAgo(d / 365)
  }

  /** The Indonesian label for a bucket. */
  function Render(b: RelativeTime): (r: string)
  {
    match b
    case Today => "Hari ini"
    case DaysAgo(n) => IntText(n) + " hari yang lalu"
    case WeeksAgo(n) => IntText(n) + " minggu yang lalu"
    case MonthsAgo(n) => IntText(n) + " bulan yang lalu"
    case YearsAgo(n) => IntText(n) + " tahun yang lalu"
  }

  /** `getRelativeTime(date)` with `diffMs = now - date`. */
  function RelativeTimeText(diffMs: int): (r: string)
  {
    Render(RelativeBucket(DiffInDays(diffMs)))
  }

  /** "Hari ini" is shown exactly for a difference of less than one full day,
      future dates excluded. */
  lemma TodayExactlyWithinOneDay(diffMs: int)
    ensures RelativeTimeText(diffMs) == "Hari ini" <==> 0 <= diffMs < MsPerDay
  {
    var b := RelativeBucket(DiffInDays(diffMs));
    if !b.Today? {
      var n := match b
        case DaysAgo(n) => n
        case WeeksAgo(n) => n
        case MonthsAgo(n) => n
        case YearsAgo(n) => n;
      var t := IntText(n);
      assert t[0] == '-' || IsDigit(t[0]);
      assert RelativeTimeText(diffMs)[0] == t[0];
    }
  }

  /** Exactly one day ago reads "1 hari yang lalu". */
  lemma OneDayAgo(diffMs: int)
    requires MsPerDay <= diffMs < 2 * MsPerDay
    ensures RelativeTimeText(diffMs) == "1 hari yang lalu"
  {
    assert DiffInDays(diffMs) == 1;
    assert Decimal(1) == "1";
  }

  /** The default window of `isNewItem`. */
  const DefaultNewDays: int := 30

  /** `isNewItem(date, days)` with `diffMs = now - date`. */
  predicate IsNewItem(diffMs: int, days: int)
  {
    DiffInDays(diffMs) <= days
  }

  /** With the default window, an item is new exactly when it is less than
      31 whole days old. */
  lemma DefaultWindow(diffMs: int)
    ensures IsNewItem(diffMs, DefaultNewDays) <==> diffMs < 31 * MsPerDay
  {
    IsNewItemWindow(diffMs, DefaultNewDays);
  }

  /** An item is new exactly when it is less than `days + 1` whole days old. */
  lemma IsNewItemWindow(diffMs: int, days: int)
    ensures IsNewItem(diffMs, days) <==> diffMs < (days + 1) * MsPerDay
  {
    var d := DiffInDays(diffMs);
    if d <= days {
      assert (d + 1) * MsPerDay <= (days + 1) * MsPerDay;
    } else {
      assert (days + 1) * MsPerDay <= d * MsPerDay;
    }
  }

  /** A date in the future is always new for a non-negative window. */
  lemma FutureIsNew(diffMs: int, days: int)
    requires diffMs < 0 && days >= 0
    ensures IsNewItem(diffMs, days)
  {
    IsNewItemWindow(diffMs, days);
  }

  /** Of two dates, the more recent one is new whenever the older one is. */
  lemma NewerStaysNew(older: int, newer: int, days: int)
    requires newer <= older && IsNewItem(older, days)
    ensures IsNewItem(newer, days)
  {
    IsNewItemWindow(older, days);
    IsNewItemWindow(newer, days);
  }

  // Lookup tables

  const FallbackIcon: string := "\U{1F4C4}"

  const CategoryIcons: map<string, string> := map[
    "achievement" := "\U{1F3C6}",
    "publication" := "\U{1F4DA}",
    "project" := "\U{1F4BB}",
    "service" := "\U{1F91D}",
    "media" := "\U{1F3A4}",
    "certificate" := "\U{1F4DC}"]

  const FallbackColor: string := "text-gray-600 bg-gray-100"

  const CategoryColors: map<string, string> := map[
    "achievement" := "text-yellow-600 bg-yellow-100",
    "publication" := "text-blue-600 bg-blue-100",
    "project" := "text-green-600 bg-green-100",
    "service" := "text-purple-600 bg-purple-100",
    "media" := "text-red-600 bg-red-100",
    "certificate" := "text-indigo-600 bg-indigo-100"]

  /** `table[key] || fallback`, looking only at the table's own keys. */
  function Lookup(table: map<string, string>, key: string, fallback: string): (r: string)
    ensures key in table && table[key] != "" ==> r == table[key]
    ensures !(key in table && table[key] != "") ==> r == fallback
  {
    if key in table && table[key] != "" then table[key] else fallback
  }

  /** `getCategoryIcon(category)`: the category's icon, or the page icon for
      any other string. */
  function CategoryIcon(category: string): (r: string)
  {
    Lookup(CategoryIcons, category, FallbackIcon)
  }

  /** `getColorByCategory(category)`: the category's classes, or grey for any
      other string. */
  function ColorByCategory(category: string): (r: string)
  {
    Lookup(CategoryColors, category, FallbackColor)
  }

  /** Every string gets a non-empty icon and colour; each of the six
      categories gets its own, and every other string gets the fallback. */
  lemma LookupsTotal(category: string)
    ensures CategoryIcon(category) != "" && ColorByCategory(category) != ""
    ensures category in CategoryIcons <==> CategoryIcon(category) != FallbackIcon
    ensures category in CategoryColors <==> ColorByCategory(category) != FallbackColor
  {
  }

  lemma LookupsDistinct(a: string, b: string)
    requires a in CategoryIcons && b in CategoryIcons && a != b
    ensures CategoryIcon(a) != CategoryIcon(b)
    ensures ColorByCategory(a) != ColorByCategory(b)
  {
  }

  /** `getVerificationBadgeVariant(status)` */
  function VerificationBadgeVariant(status: string): (r: string)
  {
    match status
    case "verified" => "success"
    case "unverified" => "warning"
    case "pending" => "info"
    case _ => "default"
  }

  /** Each status has its own variant and every other string, "" included,
      gets "default". */
  lemma BadgeVariantSpec(status: string)
    ensures VerificationBadgeVariant(status) == "success" <==> status == "verified"
    ensures VerificationBadgeVariant(status) == "warning" <==> status == "unverified"
    ensures VerificationBadgeVariant(status) == "info" <==> status == "pending"
    ensures VerificationBadgeVariant(status) == "default" <==> status !in {"verified", "unverified", "pending"}
  {
  }

  // The lookups as written: a plain object literal also answers the names it
  // inherits from Object.prototype.

  /** Names every object literal inherits; each holds a function or an object,
      which `||` treats as true. */
  const ObjectPrototypeMembers: set<string> := {
    "constructor", "__proto__", "toString", "toLocaleString", "valueOf",
    "hasOwnProperty", "isPrototypeOf", "propertyIsEnumerable",
    "__defineGetter__", "__defineSetter__", "__lookupGetter__", "__lookupSetter__"}

  /** What a lookup in a JavaScript object literal can yield. */
  datatype JsValue = JsString(s: string) | InheritedMember(name: string)

  /** `table[key] || fallback` as JavaScript evaluates it. */
  function LookupAsWritten(table: map<string, string>, key: string, fallback: string): (r: JsValue)
  {
    if key in table && table[key] != "" then JsString(table[key])
    else if key in ObjectPrototypeMembers then InheritedMember(key)
    else JsString(fallback)
  }

  function CategoryIconAsWritten(category: string): (r: JsValue)
  {
    LookupAsWritten(CategoryIcons, category, FallbackIcon)
  }

  function ColorByCategoryAsWritten(category: string): (r: JsValue)
  {
    LookupAsWritten(CategoryColors, category, FallbackColor)
  }

  /** `getCategoryIcon('constructor')` returns the Object function, not a string. */
  lemma CategoryIconConstructorIsNotString()
    ensures CategoryIconAsWritten("constructor") == InheritedMember("constructor")
    ensures CategoryIcon("constructor") == FallbackIcon
  {
  }

  /** `getColorByCategory('toString')` returns a function, not a class string. */
  lemma ColorByCategoryToStringIsNotString()
    ensures ColorByCategoryAsWritten("toString") == InheritedMember("toString")
    ensures ColorByCategory("toString") == FallbackColor
  {
  }

  /** Away from the inherited names, the lookups as written and the corrected
      ones agree. */
  lemma LookupAsWrittenAgrees(table: map<string, string>, key: string, fallback: string)
    requires key !in ObjectPrototypeMembers
    ensures LookupAsWritten(table, key, fallback) == JsString(Lookup(table, key, fallback))
  {
  }
}
