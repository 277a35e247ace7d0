/**
 * companies_spider.parse: the decoded search response's rows become
 * (id, name) pairs, the name being the first entry of each row's TITLE list.
 */
module Listing {
  import opened Wrappers

  const TITLE := "TITLE"

  /** One entry of the response's `rows` mapping: its key and its field lists, in the mapping's order. */
  datatype SearchRow = SearchRow(key: string, fields: map<string, seq<string>>)

  /** A row of the listing table. */
  datatype ListedCompany = ListedCompany(id: string, name: string)

  /** The exceptions `i['TITLE'][0]` raises. */
  datatype ListingError =
    | MissingTitle(key: string)   // KeyError: the row has no TITLE
    | EmptyTitle(key: string)     // IndexError: its TITLE list is empty

  predicate HasName(row: SearchRow) {
    TITLE in row.fields && |row.fields[TITLE]| > 0
  }

  /** The error the first unnamed row raises. */
  function RowError(row: SearchRow): ListingError {
    if TITLE in row.fields then EmptyTitle(row.key) else MissingTitle(row.key)
  }

  /**
   * The listing table: one pair per row, in row order, or the exception of
   * the first row without a name.
   */
  function ParseListing(rows: seq<SearchRow>): (r: Result<seq<ListedCompany>, ListingError>)
    ensures r.Ok? <==> forall i :: 0 <= i < |rows| ==> HasName(rows[i])
    ensures r.Ok? ==> |r.value| == |rows|
    ensures r.Ok? ==> forall i :: 0 <= i < |rows| ==>
      r.value[i] == ListedCompany(rows[i].key, rows[i].fields[TITLE][0])
    ensures r.Err? ==> exists i :: 0 <= i < |rows| && !HasName(rows[i]) && r.error == RowError(rows[i]) &&
                                  forall j :: 0 <= j < i ==> HasName(rows[j])
  {
    if rows == [] then Ok([])
    else if !HasName(rows[0]) then Err(RowError(rows[0]))
    else
      match ParseListing(rows[1..])
      case Err(e) =>
        assert forall i :: 1 <= i < |rows| ==> rows[i] == rows[1..][i - 1];
        Err(e)
      case Ok(rest) => Ok([ListedCompany(rows[0].key, rows[0].fields[TITLE][0])] + rest)
  }
}
