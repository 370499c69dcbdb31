/** The record types of the portfolio dataset (src/types/portfolio.ts).

    A date string is replaced by two abstract numbers: `ts`, the millisecond
    timestamp that `new Date(date).getTime()` yields, and `year`, the calendar
    year that `new Date(date).getFullYear()` yields. */
module Portfolio {

  datatype Option<+T> = None | Some(value: T)

  /** The six coarse categories of an item. */
  datatype Category = Achievement | Publication | Project | Service | Media | Certificate

  /** The string each category has in the dataset. */
  function CategoryName(c: Category): (r: string)
  {
    match c
    case Achievement => "achievement"
    case Publication => "publication"
    case Project => "project"
    case Service => "service"
    case Media => "media"
    case Certificate => "certificate"
  }

  /** Distinct categories have distinct names. */
  lemma CategoryNameInjective(a: Category, b: Category)
    ensures CategoryName(a) == CategoryName(b) <==> a == b
  {
    if CategoryName(a) == CategoryName(b) {
      assert CategoryName(a)[0] == CategoryName(b)[0] && CategoryName(a)[1] == CategoryName(b)[1];
    }
  }

  datatype VerifiedStatus = Verified | Unverified | Pending

  function StatusName(v: VerifiedStatus): (r: string)
  {
    match v
    case Verified => "verified"
    case Unverified => "unverified"
    case Pending => "pending"
  }

  datatype EvidenceKind = CertificateScan | Photo | Link | Video
  datatype EvidenceLink = EvidenceLink(kind: EvidenceKind, url: string, linkLabel: string)
  datatype VerifiedBy = Institution | SelfReported | ThirdParty
  datatype Language = Indonesian | English
  datatype Priority = High | Medium | Low

  /** One portfolio record. `itemType` is the source's `type` field, a free
      string: the dataset and the pages use values ("grant", "med-tech", ...)
      beyond the ones the TypeScript union lists. */
  datatype Item = Item(
    id: string,
    title: string,
    ts: int,
    year: nat,
    category: Category,
    itemType: string,
    role: string,
    summary: string,
    description: string,
    impact: string,
    evidenceLinks: seq<EvidenceLink>,
    tags: seq<string>,
    verifiedStatus: VerifiedStatus,
    verifiedBy: VerifiedBy,
    language: Language,
    priority: Priority)

  /** The filter record the listing pages and the search bar pass around.
      Every key may be absent; the pages treat an absent key, the empty string
      and "all" alike as "no constraint". */
  datatype Filters = Filters(
    category: Option<string>,
    year: Option<string>,
    verified: Option<string>,
    query: Option<string>)

  /** `filters.x && filters.x !== 'all'`: the key constrains the result. */
  predicate IsActive(v: Option<string>)
  {
    v.Some? && v.value != "" && v.value != "all"
  }

  /** `if (filters.query)`: a present, non-empty query constrains the result. */
  predicate QueryActive(q: Option<string>)
  {
    q.Some? && q.value != ""
  }
}
