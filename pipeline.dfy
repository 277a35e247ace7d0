/**
 * The crawl's stages chained on a two-company example: URLs built for the
 * listing ids, detail rows read back, the merge, and both graphs.
 */
module Pipeline {
  import opened Wrappers
  import opened Strings
  import opened Decimal
  import opened Urls
  import opened Merge
  import opened Graph

  /** Cutting `p + "\r" + q` keeps `p` when `p` has no carriage return. */
  lemma StripBeforeCR(p: string, q: string)
    requires '\r' !in p
    ensures StripAddress(p + CR + q) == p
  {
    assert CR[0] == '\r';
    BeforeAfterFree(p, CR, q);
  }

  /** The example's agent and owner cells lose their address lines; the sentinels stay as they are. */
  lemma StripExampleCells()
    ensures StripAddress("Jane Doe" + CR + "123 Main St") == "Jane Doe"
    ensures StripAddress("John Roe" + CR + "456 Oak Ave") == "John Roe"
    ensures StripAddress("Not Found") == "Not Found"
    ensures StripAddress("Not found") == "Not found"
  {
    assert forall k :: 0 <= k < |"Jane Doe"| ==> "Jane Doe"[k] != '\r';
    assert forall k :: 0 <= k < |"John Roe"| ==> "John Roe"[k] != '\r';
    StripBeforeCR("Jane Doe", "123 Main St");
    StripBeforeCR("John Roe", "456 Oak Ave");
    assert forall k :: 0 <= k < |"Not Found"| ==> "Not Found"[k] != '\r';
    assert forall k :: 0 <= k < |"Not found"| ==> "Not found"[k] != '\r';
    StripAddressSpec("Not Found");
    StripAddressSpec("Not found");
  }

  /** Two detail rows whose URLs yield ids 1 and 2 clean to those ids. */
  lemma CleanTwoRows(r1: DetailRow, r2: DetailRow)
    requires IdFromUrl(r1.url) == Ok(1) && IdFromUrl(r2.url) == Ok(2)
    ensures CleanDetails([r1, r2]) == Ok([Cleaned(r1, 1), Cleaned(r2, 2)])
  {
    CleanDetailsSpec([r1, r2]);
    var c := CleanDetails([r1, r2]);
    assert c.Ok?;
    assert c.value[0] == Cleaned(r1, 1);
    assert c.value[1] == Cleaned(r2, 2);
    assert |c.value| == 2;
    assert c.value == [Cleaned(r1, 1), Cleaned(r2, 2)];
  }

  /** Each listing row meets exactly the detail row with its id, in listing order. */
  lemma JoinTwoRows(d1: CleanRow, d2: CleanRow)
    requires d1.id == 1 && d2.id == 2
    ensures Join([Company(1, "X Corp"), Company(2, "Xylo Inc")], [d1, d2])
         == [Combine(Company(1, "X Corp"), d1), Combine(Company(2, "Xylo Inc"), d2)]
  {
    var names := [Company(1, "X Corp"), Company(2, "Xylo Inc")];
    assert [d1, d2][0] == d1 && [d1, d2][1..] == [d2] && [d2][0] == d2 && [d2][1..] == [];
    assert Matches(names[0], [d2]) == [];
    assert Matches(names[0], [d1, d2]) == [Combine(names[0], d1)];
    assert Matches(names[1], [d2]) == [Combine(names[1], d2)];
    assert Matches(names[1], [d1, d2]) == [Combine(names[1], d2)];
    assert names[1..] == [names[1]] && [names[1]][1..] == [];
    assert Join(names[1..], [d1, d2]) == [Combine(names[1], d2)];
  }

  /**
   * "X Corp" (id 1) has agent "Jane Doe" with an address and no owner;
   * "Xylo Inc" (id 2) has no agent and owner "John Roe" with an address.
   * Given detail URLs that yield ids 1 and 2 (as every URL create_urls
   * builds does, by UrlRoundTrip), the merge gives each company its fields
   * with the address cut off.
   */
  lemma MergeTwoCompanies(u1: string, u2: string)
    requires IdFromUrl(u1) == Ok(1) && IdFromUrl(u2) == Ok(2)
    ensures FinalFile([Company(1, "X Corp"), Company(2, "Xylo Inc")],
                      [DetailRow(u1, "Jane Doe" + CR + "123 Main St", "Not Found"),
                       DetailRow(u2, "Not found", "John Roe" + CR + "456 Oak Ave")])
         == Ok([Record(1, "X Corp", u1, "Jane Doe", "Not Found"),
                Record(2, "Xylo Inc", u2, "Not found", "John Roe")])
  {
    var r1 := DetailRow(u1, "Jane Doe" + CR + "123 Main St", "Not Found");
    var r2 := DetailRow(u2, "Not found", "John Roe" + CR + "456 Oak Ave");
    CleanTwoRows(r1, r2);
    StripExampleCells();
    assert Cleaned(r1, 1) == CleanRow(u1, 1, "Jane Doe", "Not Found");
    assert Cleaned(r2, 2) == CleanRow(u2, 2, "Not found", "John Roe");
    JoinTwoRows(CleanRow(u1, 1, "Jane Doe", "Not Found"), CleanRow(u2, 2, "Not found", "John Roe"));
  }

  /** The merged example gives the agent graph the single edge X Corp - Jane Doe and the owner graph the single edge Xylo Inc - John Roe. */
  lemma GraphsTwoCompanies(u1: string, u2: string)
    ensures var merged := [Record(1, "X Corp", u1, "Jane Doe", "Not Found"),
                           Record(2, "Xylo Inc", u2, "Not found", "John Roe")];
      && Edges(merged, AgentOf) == {{"X Corp", "Jane Doe"}}
      && Edges(merged, OwnerOf) == {{"Xylo Inc", "John Roe"}}
  {
    var r1 := Record(1, "X Corp", u1, "Jane Doe", "Not Found");
    var r2 := Record(2, "Xylo Inc", u2, "Not found", "John Roe");
    var merged := [r1, r2];
    assert merged[1..] == [r2] && [r2][1..] == [];
    assert "Jane Doe" != Sentinel(AgentOf) && "Not Found" == Sentinel(OwnerOf);
    assert "Not found" == Sentinel(AgentOf) && "John Roe" != Sentinel(OwnerOf);
    assert Kept(merged, AgentOf) == [r1];
    assert Kept(merged, OwnerOf) == [r2];
  }

  /** The URLs create_urls builds for ids 1 and 2 carry the example through the merge. */
  lemma CrawlTwoCompanies()
    ensures SingleSlot(DETAIL_TEMPLATE)
    ensures var urls := CreateUrls(DETAIL_TEMPLATE, [1, 2]);
      FinalFile([Company(1, "X Corp"), Company(2, "Xylo Inc")],
                [DetailRow(urls[0], "Jane Doe" + CR + "123 Main St", "Not Found"),
                 DetailRow(urls[1], "Not found", "John Roe" + CR + "456 Oak Ave")])
      == Ok([Record(1, "X Corp", urls[0], "Jane Doe", "Not Found"),
             Record(2, "Xylo Inc", urls[1], "Not found", "John Roe")])
  {
    CreateUrlsRoundTrip([1, 2]);
    var urls := CreateUrls(DETAIL_TEMPLATE, [1, 2]);
    MergeTwoCompanies(urls[0], urls[1]);
  }
}
