/**
 * owner_spider.parse: the registered agent and the owner cut out of a detail
 * page body with fixed opening and closing markers, and the sentinels that
 * stand in for a marker that is missing.
 */
module Detail {
  import opened Wrappers
  import opened Strings

  const AGENT_OPEN := "Registered Agent</LABEL><VALUE>"
  const OWNER_NAME_OPEN := "Owner Name</LABEL><VALUE>"
  const OWNERS_OPEN := "Owners</LABEL><VALUE>"
  const CLOSE := "</VALUE><ALERT_YN>"
  /** The agent's sentinel (lower-case "found"). */
  const AGENT_MISSING := "Not found"
  /** The owner's sentinel (upper-case "Found"). */
  const OWNER_MISSING := "Not Found"

  /** `body.split(open)[1].split(CLOSE)[0]`; None where the `[1]` raises IndexError. */
  function Field(body: string, open: string): (r: Option<string>)
    requires open != []
    ensures r.Some? <==> Contains(body, open)
    ensures r.Some? ==> !Contains(r.value, CLOSE)
  {
    SecondPiece(body, open);
    match Piece(body, open, 1)
    case None => None
    case Some(p) => BeforeSpec(p, CLOSE); Some(Before(p, CLOSE))
  }

  /** The agent, or its sentinel when the agent marker is missing. */
  function Agent(body: string): (r: string)
    ensures !Contains(body, AGENT_OPEN) ==> r == AGENT_MISSING
    ensures Contains(body, AGENT_OPEN) ==> !Contains(r, CLOSE)
  {
    match Field(body, AGENT_OPEN)
    case Some(a) => a
    case None => AGENT_MISSING
  }

  /** The owner from "Owner Name", else from "Owners", else the owner sentinel. */
  function Owner(body: string): (r: string)
    ensures !Contains(body, OWNER_NAME_OPEN) && !Contains(body, OWNERS_OPEN) ==> r == OWNER_MISSING
    ensures Contains(body, OWNER_NAME_OPEN) || Contains(body, OWNERS_OPEN) ==> !Contains(r, CLOSE)
  {
    match Field(body, OWNER_NAME_OPEN)
    case Some(o) => o
    case None =>
      match Field(body, OWNERS_OPEN)
      case Some(o) => o
      case None => OWNER_MISSING
  }

  /** `f` is `rest` up to the first place where `open` or CLOSE begins, or all of `rest` if neither does. */
  predicate CutAtFirstMarker(rest: string, open: string, f: string) {
    && |f| <= |rest| && f == rest[..|f|]
    && (forall j: nat :: j < |f| ==> !OccursAt(rest, open, j) && !OccursAt(rest, CLOSE, j))
    && (|f| == |rest| || OccursAt(rest, open, |f|) || OccursAt(rest, CLOSE, |f|))
  }

  /**
   * For any opening marker: the field exists once the marker occurs, lies in
   * the text after its first occurrence, holds no CLOSE and no repeat of the
   * marker, and stops at a marker or at the end of the body.
   */
  lemma FieldFound(body: string, open: string, i: nat)
    requires open != [] && IsFirst(body, open, i)
    ensures Field(body, open).Some?
    ensures var rest := body[i + |open|..]; var f := Field(body, open).value;
      && f <= rest
      && !Contains(f, CLOSE)
      && (forall j: nat :: j < |f| ==> !OccursAt(rest, open, j))
      && (|f| == |rest| || OccursAt(rest, open, |f|) || OccursAt(rest, CLOSE, |f|))
  {
    var rest := body[i + |open|..];
    SecondPiece(body, open);
    var p := Before(rest, open);
    BeforeSpec(rest, open);
    BeforeSpec(p, CLOSE);
    var f := Before(p, CLOSE);
    assert Field(body, open) == Some(f);
    if Contains(p, CLOSE) {
      OccursInPrefix(p, rest, CLOSE, |f|);
    }
  }

  /** CLOSE cannot overlap itself or any of the three opening markers. */
  lemma CloseOverlapsNoMarker()
    ensures forall d: nat :: !CanOverlap(CLOSE, CLOSE, d)
    ensures forall d: nat :: !CanOverlap(CLOSE, AGENT_OPEN, d)
    ensures forall d: nat :: !CanOverlap(CLOSE, OWNER_NAME_OPEN, d)
    ensures forall d: nat :: !CanOverlap(CLOSE, OWNERS_OPEN, d)
  {
    assert forall d :: 1 <= d < |CLOSE| && CLOSE[d] == '<' ==> d == 8;
    assert forall d :: 1 <= d < |CLOSE| && CLOSE[d] == 'R' ==> d == 12;
    assert forall d :: 1 <= d < |CLOSE| ==> CLOSE[d] != 'O';
    forall d: nat | 0 < d < |CLOSE|
      ensures !CanOverlap(CLOSE, CLOSE, d) && !CanOverlap(CLOSE, AGENT_OPEN, d)
      ensures !CanOverlap(CLOSE, OWNER_NAME_OPEN, d) && !CanOverlap(CLOSE, OWNERS_OPEN, d)
    {
      Mismatch(CLOSE, CLOSE, d, if d == 8 then 1 else 0);
      Mismatch(CLOSE, AGENT_OPEN, d, if d == 12 then 1 else 0);
      Mismatch(CLOSE, OWNER_NAME_OPEN, d, 0);
      Mismatch(CLOSE, OWNERS_OPEN, d, 0);
    }
  }

  /**
   * For a marker that CLOSE cannot overlap, the field is exactly the text
   * after the marker's first occurrence, up to the earliest following CLOSE
   * or repeat of the marker.
   */
  lemma FieldCut(body: string, open: string, i: nat)
    requires open != [] && IsFirst(body, open, i)
    requires forall d: nat :: !CanOverlap(CLOSE, open, d)
    ensures Field(body, open).Some?
    ensures CutAtFirstMarker(body[i + |open|..], open, Field(body, open).value)
  {
    var rest := body[i + |open|..];
    FieldFound(body, open, i);
    var f := Field(body, open).value;
    CloseOverlapsNoMarker();
    forall j: nat | j < |f| ensures !OccursAt(rest, CLOSE, j) {
      if OccursAt(rest, CLOSE, j) {
        if j + |CLOSE| <= |f| {
          assert f[j..j + |CLOSE|] == rest[j..j + |CLOSE|];
          assert OccursAt(f, CLOSE, j);
          assert false;
        } else if OccursAt(rest, open, |f|) {
          OverlapShift(rest, CLOSE, open, j, |f|);
          assert false;
        } else {
          OverlapShift(rest, CLOSE, CLOSE, j, |f|);
          assert false;
        }
      }
    }
  }

  /** A cut at the first marker contains neither marker. */
  lemma CutHoldsNoMarker(rest: string, open: string, f: string)
    requires open != [] && CutAtFirstMarker(rest, open, f)
    ensures !Contains(f, open) && !Contains(f, CLOSE)
  {
    if Contains(f, open) {
      var j: nat :| OccursAt(f, open, j);
      OccursInPrefix(f, rest, open, j);
    }
    if Contains(f, CLOSE) {
      var j: nat :| OccursAt(f, CLOSE, j);
      OccursInPrefix(f, rest, CLOSE, j);
    }
  }

  /**
   * Without the agent marker the agent is "Not found"; with it, the agent is
   * the text after its first occurrence cut at the earliest following CLOSE
   * or repeat of the marker, and so contains neither.
   */
  lemma AgentExtraction(body: string)
    ensures !Contains(body, AGENT_OPEN) ==> Agent(body) == AGENT_MISSING
    ensures forall i: nat :: IsFirst(body, AGENT_OPEN, i) ==>
      CutAtFirstMarker(body[i + |AGENT_OPEN|..], AGENT_OPEN, Agent(body))
    ensures Contains(body, AGENT_OPEN) ==>
      !Contains(Agent(body), AGENT_OPEN) && !Contains(Agent(body), CLOSE)
  {
    SecondPiece(body, AGENT_OPEN);
    CloseOverlapsNoMarker();
    forall i: nat | IsFirst(body, AGENT_OPEN, i)
      ensures CutAtFirstMarker(body[i + |AGENT_OPEN|..], AGENT_OPEN, Agent(body))
    {
      FieldCut(body, AGENT_OPEN, i);
    }
    var found := Find(body, AGENT_OPEN);
    if found.Some? {
      CutHoldsNoMarker(body[found.value + |AGENT_OPEN|..], AGENT_OPEN, Agent(body));
    }
  }

  /**
   * Owner precedence: "Owner Name" decides whenever it occurs; "Owners" is
   * read only when "Owner Name" is absent; "Not Found" only when both are.
   */
  lemma OwnerExtraction(body: string)
    ensures forall i: nat :: IsFirst(body, OWNER_NAME_OPEN, i) ==>
      CutAtFirstMarker(body[i + |OWNER_NAME_OPEN|..], OWNER_NAME_OPEN, Owner(body))
    ensures !Contains(body, OWNER_NAME_OPEN) ==> forall i: nat :: IsFirst(body, OWNERS_OPEN, i) ==>
      CutAtFirstMarker(body[i + |OWNERS_OPEN|..], OWNERS_OPEN, Owner(body))
    ensures !Contains(body, OWNER_NAME_OPEN) && !Contains(body, OWNERS_OPEN) ==>
      Owner(body) == OWNER_MISSING
  {
    SecondPiece(body, OWNER_NAME_OPEN);
    SecondPiece(body, OWNERS_OPEN);
    CloseOverlapsNoMarker();
    forall i: nat | IsFirst(body, OWNER_NAME_OPEN, i)
      ensures CutAtFirstMarker(body[i + |OWNER_NAME_OPEN|..], OWNER_NAME_OPEN, Owner(body))
    {
      FieldCut(body, OWNER_NAME_OPEN, i);
    }
    if !Contains(body, OWNER_NAME_OPEN) {
      forall i: nat | IsFirst(body, OWNERS_OPEN, i)
        ensures CutAtFirstMarker(body[i + |OWNERS_OPEN|..], OWNERS_OPEN, Owner(body))
      {
        FieldCut(body, OWNERS_OPEN, i);
      }
    }
  }
}
