/**
 * final_file: the id of each detail row recovered from its URL, the agent
 * and owner cut at their first carriage return, and the inner join of the
 * listing table with the detail table on ID.
 */
module Merge {
  import opened Wrappers
  import opened Strings
  import opened Decimal
  import opened Urls

  const CR := "\r"

  /** A row of the listing file as read back: numeric ID and company name. */
  datatype Company = Company(id: nat, name: string)

  /** A row of the detail file as read back: the page URL and the raw agent and owner texts. */
  datatype DetailRow = DetailRow(url: string, agent: string, owner: string)

  /** A detail row after final_file's per-row steps. */
  datatype CleanRow = CleanRow(url: string, id: nat, agent: string, owner: string)

  /** A row of the merged table. */
  datatype Record = Record(id: nat, name: string, url: string, agent: string, owner: string)

  /** `s.split('\r')[0]`: the name without the address lines that follow it. */
  function StripAddress(s: string): (r: string)
    ensures r <= s && '\r' !in r
  {
    BeforeSpec(s, CR);
    ContainsCR(Before(s, CR));
    Before(s, CR)
  }

  lemma ContainsCR(s: string)
    ensures Contains(s, CR) <==> '\r' in s
  {
    assert CR == ['\r'];
    ContainsChar(s, '\r');
  }

  /**
   * Stripping keeps a prefix of the text with no carriage return in it,
   * leaves text without one unchanged, and is idempotent.
   */
  lemma StripAddressSpec(s: string)
    ensures StripAddress(s) <= s
    ensures '\r' !in StripAddress(s)
    ensures '\r' !in s ==> StripAddress(s) == s
    ensures '\r' in s ==> s[|StripAddress(s)|] == '\r'
    ensures StripAddress(StripAddress(s)) == StripAddress(s)
  {
    BeforeSpec(s, CR);
    ContainsCR(s);
    ContainsCR(StripAddress(s));
  }

  /** Line 110 over the whole column: every row's id text, or IndexError at the first URL without "business/". */
  function IdTexts(rows: seq<DetailRow>): (r: Result<seq<string>, IdError>)
    ensures r.Ok? <==> forall i :: 0 <= i < |rows| ==> IdText(rows[i].url).Some?
    ensures r.Ok? ==> |r.value| == |rows| && forall i :: 0 <= i < |rows| ==> Some(r.value[i]) == IdText(rows[i].url)
    ensures r.Err? ==> r.error == NoBusinessSegment
  {
    if rows == [] then Ok([])
    else
      match IdText(rows[0].url)
      case None => Err(NoBusinessSegment)
      case Some(text) =>
        match IdTexts(rows[1..])
        case Err(e) => Err(e)
        case Ok(rest) => Ok([text] + rest)
  }

  /** Line 111: astype(int) on the whole column, or ValueError at the first text that is not an integer. */
  function ParseIds(texts: seq<string>): (r: Result<seq<nat>, IdError>)
    ensures r.Ok? <==> forall i :: 0 <= i < |texts| ==> ParseNat(texts[i]).Some?
    ensures r.Ok? ==> |r.value| == |texts| && forall i :: 0 <= i < |texts| ==> Some(r.value[i]) == ParseNat(texts[i])
    ensures r.Err? ==> r.error == NotAnInteger
  {
    if texts == [] then Ok([])
    else
      match ParseNat(texts[0])
      case None => Err(NotAnInteger)
      case Some(id) =>
        match ParseIds(texts[1..])
        case Err(e) => Err(e)
        case Ok(rest) => Ok([id] + rest)
  }

  /** Lines 110-115: the detail table with ID, Agent and Owner columns. */
  function CleanDetails(rows: seq<DetailRow>): Result<seq<CleanRow>, IdError> {
    match IdTexts(rows)
    case Err(e) => Err(e)
    case Ok(texts) =>
      match ParseIds(texts)
      case Err(e) => Err(e)
      case Ok(ids) =>
        Ok(seq(|rows|, i requires 0 <= i < |rows| =>
          CleanRow(rows[i].url, ids[i], StripAddress(rows[i].agent), StripAddress(rows[i].owner))))
  }

  function Cleaned(row: DetailRow, id: nat): CleanRow {
    CleanRow(row.url, id, StripAddress(row.agent), StripAddress(row.owner))
  }

  /**
   * The detail table exists exactly when every URL yields an id; row i then
   * carries the id of URL i and its agent and owner with the address cut
   * off. A URL without "business/" anywhere in the column raises IndexError
   * before any integer conversion is tried.
   */
  lemma CleanDetailsSpec(rows: seq<DetailRow>)
    ensures CleanDetails(rows).Ok? <==> forall i :: 0 <= i < |rows| ==> IdFromUrl(rows[i].url).Ok?
    ensures CleanDetails(rows).Ok? ==> |CleanDetails(rows).value| == |rows|
    ensures CleanDetails(rows).Ok? ==> forall i :: 0 <= i < |rows| ==>
      CleanDetails(rows).value[i] == Cleaned(rows[i], IdFromUrl(rows[i].url).value)
    ensures CleanDetails(rows).Err? ==>
      (CleanDetails(rows).error == NoBusinessSegment <==> exists i :: 0 <= i < |rows| && IdText(rows[i].url).None?)
  {
    var t := IdTexts(rows);
    if t.Ok? {
      var p := ParseIds(t.value);
      forall i | 0 <= i < |rows| ensures IdFromUrl(rows[i].url).Ok? <==> ParseNat(t.value[i]).Some? {
        assert Some(t.value[i]) == IdText(rows[i].url);
      }
      if p.Ok? {
        forall i | 0 <= i < |rows| ensures Ok(p.value[i]) == IdFromUrl(rows[i].url) {
          assert Some(t.value[i]) == IdText(rows[i].url);
          assert Some(p.value[i]) == ParseNat(t.value[i]);
        }
      } else {
        var k :| 0 <= k < |t.value| && ParseNat(t.value[k]).None?;
        assert Some(t.value[k]) == IdText(rows[k].url);
      }
    } else {
      var k :| 0 <= k < |rows| && IdText(rows[k].url).None?;
    }
  }

  function Combine(c: Company, d: CleanRow): Record {
    Record(c.id, c.name, d.url, d.agent, d.owner)
  }

  /** The joined rows of one listing row: one per detail row with its id, in detail order. */
  function Matches(c: Company, details: seq<CleanRow>): seq<Record> {
    if details == [] then []
    else (if details[0].id == c.id then [Combine(c, details[0])] else []) + Matches(c, details[1..])
  }

  /** `names.merge(owner_agent, on ID)`: an inner join, listing-row major. */
  function Join(names: seq<Company>, details: seq<CleanRow>): seq<Record> {
    if names == [] then [] else Matches(names[0], details) + Join(names[1..], details)
  }

  /** Line 117 on top of lines 110-115: the final table, or the exception that aborts it. */
  function FinalFile(names: seq<Company>, rows: seq<DetailRow>): Result<seq<Record>, IdError> {
    match CleanDetails(rows)
    case Err(e) => Err(e)
    case Ok(details) => Ok(Join(names, details))
  }

  /** A joined row is a listing row and a detail row with equal ids, and every such pair is joined. */
  lemma {:induction false} MatchesMembers(c: Company, details: seq<CleanRow>)
    ensures forall rec :: rec in Matches(c, details) <==>
      exists j :: 0 <= j < |details| && details[j].id == c.id && rec == Combine(c, details[j])
    decreases |details|
  {
    if details != [] {
      MatchesMembers(c, details[1..]);
      assert forall j :: 1 <= j < |details| ==> details[j] == details[1..][j - 1];
    }
  }

  /**
   * The merge is an inner join: every output row combines a listing row
   * and a detail row with equal ID, every such pair appears, and so an id
   * missing from either table yields no row.
   */
  lemma {:induction false} JoinMembers(names: seq<Company>, details: seq<CleanRow>)
    ensures forall rec :: rec in Join(names, details) <==>
      exists i, j :: 0 <= i < |names| && 0 <= j < |details| && names[i].id == details[j].id &&
                     rec == Combine(names[i], details[j])
    decreases |names|
  {
    if names != [] {
      MatchesMembers(names[0], details);
      JoinMembers(names[1..], details);
      assert forall i :: 1 <= i < |names| ==> names[i] == names[1..][i - 1];
      forall rec | rec in Join(names, details)
        ensures exists i, j :: 0 <= i < |names| && 0 <= j < |details| && names[i].id == details[j].id &&
                               rec == Combine(names[i], details[j])
      {
        if rec in Matches(names[0], details) {
          var j :| 0 <= j < |details| && details[j].id == names[0].id && rec == Combine(names[0], details[j]);
          assert names[0].id == details[j].id && rec == Combine(names[0], details[j]);
        } else {
          assert rec in Join(names[1..], details);
          var i, j :| 0 <= i < |names[1..]| && 0 <= j < |details| && names[1..][i].id == details[j].id &&
                      rec == Combine(names[1..][i], details[j]);
          assert names[i + 1].id == details[j].id && rec == Combine(names[i + 1], details[j]);
        }
      }
      forall i, j | 0 <= i < |names| && 0 <= j < |details| && names[i].id == details[j].id
        ensures Combine(names[i], details[j]) in Join(names, details)
      {
        if i > 0 {
          assert names[1..][i - 1] == names[i];
        }
      }
    }
  }

  /**
   * final_file as a whole: it returns a table exactly when every detail URL
   * yields an id, and a row is then in the table exactly when it pairs a
   * listing row with a cleaned detail row whose URL yields the listing row's
   * ID. IndexError wins over ValueError when both could be raised.
   */
  lemma FinalFileSpec(names: seq<Company>, rows: seq<DetailRow>)
    ensures FinalFile(names, rows).Ok? <==> forall j :: 0 <= j < |rows| ==> IdFromUrl(rows[j].url).Ok?
    ensures FinalFile(names, rows).Ok? ==> forall rec :: rec in FinalFile(names, rows).value <==>
      exists i, j :: 0 <= i < |names| && 0 <= j < |rows| && IdFromUrl(rows[j].url) == Ok(names[i].id) &&
                     rec == Combine(names[i], Cleaned(rows[j], names[i].id))
    ensures FinalFile(names, rows).Err? ==>
      (FinalFile(names, rows).error == NoBusinessSegment <==> exists j :: 0 <= j < |rows| && IdText(rows[j].url).None?)
  {
    CleanDetailsSpec(rows);
    if CleanDetails(rows).Ok? {
      var details := CleanDetails(rows).value;
      JoinMembers(names, details);
      forall j | 0 <= j < |rows| ensures details[j].id == IdFromUrl(rows[j].url).value {
        assert details[j] == Cleaned(rows[j], IdFromUrl(rows[j].url).value);
      }
      forall rec ensures rec in Join(names, details) <==>
        exists i, j :: 0 <= i < |names| && 0 <= j < |rows| && IdFromUrl(rows[j].url) == Ok(names[i].id) &&
                       rec == Combine(names[i], Cleaned(rows[j], names[i].id))
      {
        if rec in Join(names, details) {
          var i, j :| 0 <= i < |names| && 0 <= j < |details| && names[i].id == details[j].id &&
                      rec == Combine(names[i], details[j]);
          assert IdFromUrl(rows[j].url) == Ok(names[i].id);
        }
        if exists i, j :: 0 <= i < |names| && 0 <= j < |rows| && IdFromUrl(rows[j].url) == Ok(names[i].id) &&
                          rec == Combine(names[i], Cleaned(rows[j], names[i].id)) {
          var i, j :| 0 <= i < |names| && 0 <= j < |rows| && IdFromUrl(rows[j].url) == Ok(names[i].id) &&
                      rec == Combine(names[i], Cleaned(rows[j], names[i].id));
          assert details[j] == Cleaned(rows[j], names[i].id);
        }
      }
    }
  }

  /** An id present in only one of the two tables produces no row. */
  lemma JoinDropsUnmatched(names: seq<Company>, details: seq<CleanRow>, id: nat)
    requires (forall i :: 0 <= i < |names| ==> names[i].id != id) ||
             (forall j :: 0 <= j < |details| ==> details[j].id != id)
    ensures forall rec :: rec in Join(names, details) ==> rec.id != id
  {
    JoinMembers(names, details);
  }

  /** How many listing rows carry `id`. */
  function NameCount(names: seq<Company>, id: nat): nat {
    if names == [] then 0 else (if names[0].id == id then 1 else 0) + NameCount(names[1..], id)
  }

  /** How many detail rows carry `id`. */
  function DetailCount(details: seq<CleanRow>, id: nat): nat {
    if details == [] then 0 else (if details[0].id == id then 1 else 0) + DetailCount(details[1..], id)
  }

  /** How many merged rows carry `id`. */
  function RecordCount(records: seq<Record>, id: nat): nat {
    if records == [] then 0 else (if records[0].id == id then 1 else 0) + RecordCount(records[1..], id)
  }

  lemma {:induction false} RecordCountAppend(a: seq<Record>, b: seq<Record>, id: nat)
    ensures RecordCount(a + b, id) == RecordCount(a, id) + RecordCount(b, id)
    decreases |a|
  {
    if a != [] {
      assert (a + b)[0] == a[0] && (a + b)[1..] == a[1..] + b;
      RecordCountAppend(a[1..], b, id);
    } else {
      assert a + b == b;
    }
  }

  lemma {:induction false} MatchesCount(c: Company, details: seq<CleanRow>, id: nat)
    ensures |Matches(c, details)| == DetailCount(details, c.id)
    ensures RecordCount(Matches(c, details), id) == if c.id == id then DetailCount(details, id) else 0
    decreases |details|
  {
    if details != [] {
      MatchesCount(c, details[1..], id);
      var head := if details[0].id == c.id then [Combine(c, details[0])] else [];
      RecordCountAppend(head, Matches(c, details[1..]), id);
    }
  }

  lemma MulSucc(n: nat, d: nat)
    ensures (1 + n) * d == d + n * d
  {
  }

  /** Duplicated ids multiply: `id` appears in the merge once per pair of a listing row and a detail row that carry it. */
  lemma {:induction false} JoinMultiplicity(names: seq<Company>, details: seq<CleanRow>, id: nat)
    ensures RecordCount(Join(names, details), id) == NameCount(names, id) * DetailCount(details, id)
    decreases |names|
  {
    if names != [] {
      var head, tail := Matches(names[0], details), Join(names[1..], details);
      assert Join(names, details) == head + tail;
      MatchesCount(names[0], details, id);
      JoinMultiplicity(names[1..], details, id);
      RecordCountAppend(head, tail, id);
      var n, d := NameCount(names[1..], id), DetailCount(details, id);
      assert RecordCount(tail, id) == n * d;
      if names[0].id == id {
        assert NameCount(names, id) == 1 + n;
        assert RecordCount(head, id) == d;
        MulSucc(n, d);
      } else {
        assert NameCount(names, id) == n;
        assert RecordCount(head, id) == 0;
      }
    }
  }

  predicate UniqueNameIds(names: seq<Company>) {
    forall a, b :: 0 <= a < b < |names| ==> names[a].id != names[b].id
  }

  predicate UniqueDetailIds(details: seq<CleanRow>) {
    forall a, b :: 0 <= a < b < |details| ==> details[a].id != details[b].id
  }

  lemma {:induction false} NameCountBounds(names: seq<Company>, id: nat)
    ensures (exists i :: 0 <= i < |names| && names[i].id == id) <==> NameCount(names, id) > 0
    ensures UniqueNameIds(names) ==> NameCount(names, id) <= 1
    decreases |names|
  {
    if names != [] {
      NameCountBounds(names[1..], id);
      assert forall i :: 1 <= i < |names| ==> names[i] == names[1..][i - 1];
      if exists i :: 0 <= i < |names| && names[i].id == id {
        var i :| 0 <= i < |names| && names[i].id == id;
        if i > 0 {
          assert names[1..][i - 1].id == id;
        }
      }
    }
  }

  lemma {:induction false} DetailCountBounds(details: seq<CleanRow>, id: nat)
    ensures (exists j :: 0 <= j < |details| && details[j].id == id) <==> DetailCount(details, id) > 0
    ensures UniqueDetailIds(details) ==> DetailCount(details, id) <= 1
    decreases |details|
  {
    if details != [] {
      DetailCountBounds(details[1..], id);
      assert forall j :: 1 <= j < |details| ==> details[j] == details[1..][j - 1];
      if exists j :: 0 <= j < |details| && details[j].id == id {
        var j :| 0 <= j < |details| && details[j].id == id;
        if j > 0 {
          assert details[1..][j - 1].id == id;
        }
      }
    }
  }

  /** With no duplicate ids on either side, every id present in both tables yields exactly one row. */
  lemma JoinOnePerId(names: seq<Company>, details: seq<CleanRow>, id: nat)
    requires UniqueNameIds(names) && UniqueDetailIds(details)
    ensures RecordCount(Join(names, details), id) ==
      if (exists i :: 0 <= i < |names| && names[i].id == id) &&
         (exists j :: 0 <= j < |details| && details[j].id == id)
      then 1 else 0
  {
    JoinMultiplicity(names, details, id);
    NameCountBounds(names, id);
    DetailCountBounds(details, id);
  }

  lemma {:induction false} JoinAddDetail(names: seq<Company>, d: CleanRow, details: seq<CleanRow>)
    ensures |Join(names, [d] + details)| == NameCount(names, d.id) + |Join(names, details)|
    decreases |names|
  {
    if names != [] {
      JoinAddDetail(names[1..], d, details);
      MatchesCount(names[0], [d] + details, 0);
      MatchesCount(names[0], details, 0);
      assert ([d] + details)[1..] == details;
    }
  }

  lemma {:induction false} JoinNoLongerThanDetails(names: seq<Company>, details: seq<CleanRow>)
    requires UniqueNameIds(names)
    ensures |Join(names, details)| <= |details|
    decreases |details|
  {
    if details == [] {
      JoinOfNothing(names);
    } else {
      JoinNoLongerThanDetails(names, details[1..]);
      assert details == [details[0]] + details[1..];
      JoinAddDetail(names, details[0], details[1..]);
      NameCountBounds(names, details[0].id);
    }
  }

  lemma {:induction false} JoinOfNothing(names: seq<Company>)
    ensures Join(names, []) == []
    decreases |names|
  {
    if names != [] {
      JoinOfNothing(names[1..]);
    }
  }

  lemma {:induction false} JoinNoLongerThanNames(names: seq<Company>, details: seq<CleanRow>)
    requires UniqueDetailIds(details)
    ensures |Join(names, details)| <= |names|
    decreases |names|
  {
    if names != [] {
      JoinNoLongerThanNames(names[1..], details);
      MatchesCount(names[0], details, 0);
      DetailCountBounds(details, names[0].id);
    }
  }

  /** With no duplicate ids, the merge has at most as many rows as the smaller table. */
  lemma JoinSize(names: seq<Company>, details: seq<CleanRow>)
    requires UniqueNameIds(names) && UniqueDetailIds(details)
    ensures |Join(names, details)| <= |names| && |Join(names, details)| <= |details|
  {
    JoinNoLongerThanNames(names, details);
    JoinNoLongerThanDetails(names, details);
  }
}
