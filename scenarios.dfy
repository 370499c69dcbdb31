/** Worked examples of the data-access layer on small concrete datasets. */
module Scenarios {
  import opened Portfolio
  import opened Text
  import opened Lists
  import opened Ordering
  import opened ContentLoader

  /** An item with the fields the examples use; the rest are fixed. */
  function Sample(id: string, title: string, ts: int, year: nat, category: Category,
                  itemType: string, status: VerifiedStatus, tags: seq<string>): (r: Item)
  {
    Item(id, title, ts, year, category, itemType, "", "", "", "", [], tags, status, Institution, English, Medium)
  }

  const ProjectA: Item := Sample("p-a", "A", 1672531200000, 2023, Project, "web-app", Verified, [])
  const ProjectB: Item := Sample("p-b", "B", 1640995200000, 2022, Project, "web-app", Verified, [])
  const ProjectC: Item := Sample("p-c", "C", 1609459200000, 2021, Project, "web-app", Verified, [])

  /** A request for an id no item has yields nothing. */
  lemma MissingIdIsAbsent()
    ensures ItemById([ProjectC, ProjectA, ProjectB], "p-z") == None
  {
    assert "p-z" != "p-a" && "p-z" != "p-b" && "p-z" != "p-c" by {
      assert "p-z"[2] == 'z';
    }
  }

  const Tagged: Item := Sample("m-1", "Talk", 1672531200000, 2023, Media, "talk", Verified, ["Security"])

  /** The query "security" finds an item tagged "Security". */
  lemma SearchIgnoresTagCase()
    ensures SearchItems([Tagged], "security") == [Tagged]
  {
    assert Lower("Security") == "security";
    assert Lower("security") == "security";
    assert IsPrefix("security", "security");
    assert Contains(Lower(Tagged.tags[0]), Lower("security"));
    assert SearchMatches(Tagged, "security");
  }

  const VerifiedCertificateFilter: ItemFilter := ItemFilter(Some("certificate"), Some("all"), Some("verified"), None)

  /** For a certificate, that filter checks only the verification status. */
  lemma CertificateFilterChecksStatus(x: Item)
    requires x.category == Certificate
    ensures MatchesFilter(VerifiedCertificateFilter, x) <==> x.verifiedStatus == Verified
  {
    assert "unverified" != "verified" by {
      assert |"unverified"| != |"verified"|;
    }
    assert "pending" != "verified" by {
      assert |"pending"| != |"verified"|;
    }
  }

  /** Category "certificate", any year, verified only, over two verified
      certificates with an unverified one between them: the two verified ones
      remain, in their order. */
  lemma VerifiedCertificates(c1: Item, c2: Item, c3: Item)
    requires c1.category == Certificate && c2.category == Certificate && c3.category == Certificate
    requires c1.verifiedStatus == Verified && c2.verifiedStatus == Unverified && c3.verifiedStatus == Verified
    ensures Keep([c1, c2, c3], (x: Item) => MatchesFilter(VerifiedCertificateFilter, x)) == [c1, c3]
  {
    var f := (x: Item) => MatchesFilter(VerifiedCertificateFilter, x);
    CertificateFilterChecksStatus(c1);
    CertificateFilterChecksStatus(c2);
    CertificateFilterChecksStatus(c3);
    assert [c3][1..] == [];
    assert Keep([c3], f) == [c3];
    assert [c2, c3][1..] == [c3];
    assert Keep([c2, c3], f) == [c3];
    assert [c1, c2, c3][1..] == [c2, c3];
    assert Keep([c1, c2, c3], f) == [c1] + [c3];
  }

  /** `getLatestUpdates(2)` over projects dated 2021, 2023 and 2022, stored in
      that order, returns the 2023 project and then the 2022 one. */
  lemma LatestTwoProjects()
    ensures LatestUpdates([ProjectC, ProjectA, ProjectB], 2) == [ProjectA, ProjectB]
  {
    assert [ProjectB][1..] == [];
    assert SortNewestFirst([ProjectB]) == [ProjectB];
    assert [ProjectA, ProjectB][1..] == [ProjectB];
    assert SortNewestFirst([ProjectA, ProjectB]) == [ProjectA, ProjectB];
    assert [ProjectB][1..] == [];
    assert InsertByDate(ProjectC, [ProjectB]) == [ProjectB, ProjectC];
    assert [ProjectC, ProjectA, ProjectB][1..] == [ProjectA, ProjectB];
    assert SortNewestFirst([ProjectC, ProjectA, ProjectB]) == [ProjectA, ProjectB, ProjectC];
  }
}
