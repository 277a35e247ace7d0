/**
 * graph_plot without the drawing: the rows kept for each relationship graph,
 * the undirected simple graph from_pandas_edgelist builds from them, the
 * distinct agents (or owners) in order of appearance, and their node sizes.
 */
module Graph {
  import opened Merge
  import Detail

  /** Node size per unit of degree. */
  const SIZE_SCALE := 100

  /** The two graphs: company to registered agent, and company to owner. */
  datatype Relation = AgentOf | OwnerOf

  /** The sentinel each graph filters out. */
  function Sentinel(rel: Relation): string {
    match rel
    case AgentOf => Detail.AGENT_MISSING
    case OwnerOf => Detail.OWNER_MISSING
  }

  /** The column a graph links companies to. */
  function Target(r: Record, rel: Relation): string {
    match rel
    case AgentOf => r.agent
    case OwnerOf => r.owner
  }

  /** `graph_df[graph_df[col] != sentinel]`: the rows whose field was found, in order. */
  function Kept(records: seq<Record>, rel: Relation): (r: seq<Record>)
    ensures |r| <= |records|
    ensures forall x :: x in r <==> x in records && Target(x, rel) != Sentinel(rel)
  {
    if records == [] then []
    else
      var rest := Kept(records[1..], rel);
      assert forall x :: x in records <==> x == records[0] || x in records[1..];
      if Target(records[0], rel) != Sentinel(rel) then [records[0]] + rest else rest
  }

  /** The edges of the undirected simple graph: `{company, target}`, a singleton for a self-loop. */
  function Edges(records: seq<Record>, rel: Relation): set<set<string>> {
    set r | r in Kept(records, rel) :: {r.name, Target(r, rel)}
  }

  /** The graph's nodes: every company and every target of a kept row. */
  function Nodes(records: seq<Record>, rel: Relation): set<string> {
    (set r | r in Kept(records, rel) :: r.name) + (set r | r in Kept(records, rel) :: Target(r, rel))
  }

  /** networkx's degree in a simple graph: incident edges, a self-loop counted twice. */
  function Degree(edges: set<set<string>>, v: string): nat {
    |set e | e in edges && v in e| + (if {v} in edges then 1 else 0)
  }

  /** `list(col.unique())`: each value once, in order of first appearance. */
  function Unique(s: seq<string>): (r: seq<string>)
    ensures |r| <= |s|
    ensures forall x :: x in r <==> x in s
    ensures forall a, b :: 0 <= a < b < |r| ==> r[a] != r[b]
  {
    if s == [] then []
    else
      var init := Unique(s[..|s| - 1]);
      assert forall x :: x in s <==> x in s[..|s| - 1] || x == s[|s| - 1];
      if s[|s| - 1] in init then init else init + [s[|s| - 1]]
  }

  /** `agents` / `owners`: the distinct targets of the kept rows. */
  function Targets(records: seq<Record>, rel: Relation): seq<string> {
    var kept := Kept(records, rel);
    Unique(seq(|kept|, i requires 0 <= i < |kept| => Target(kept[i], rel)))
  }

  /** `agent_size` / `owner_size`: 100 times each target's degree in the graph. */
  function NodeSizes(records: seq<Record>, rel: Relation): seq<nat> {
    var targets := Targets(records, rel);
    var edges := Edges(records, rel);
    seq(|targets|, i requires 0 <= i < |targets| => SIZE_SCALE * Degree(edges, targets[i]))
  }

  /** The distinct companies that name `v` as their agent (or owner). */
  function Linked(records: seq<Record>, rel: Relation, v: string): set<string> {
    set r | r in Kept(records, rel) && Target(r, rel) == v :: r.name
  }

  /** The size the plot means to show: 100 per distinct company linked to the target. */
  function CompanySizes(records: seq<Record>, rel: Relation): seq<nat> {
    var targets := Targets(records, rel);
    seq(|targets|, i requires 0 <= i < |targets| => SIZE_SCALE * |Linked(records, rel, targets[i])|)
  }

  /** No company of a kept row carries the name of any target. */
  predicate NamesAreNotTargets(records: seq<Record>, rel: Relation) {
    forall r, q :: r in Kept(records, rel) && q in Kept(records, rel) ==> r.name != Target(q, rel)
  }

  lemma TargetsMembers(records: seq<Record>, rel: Relation)
    ensures forall v :: v in Targets(records, rel) <==> exists r :: r in Kept(records, rel) && Target(r, rel) == v
  {
    var kept := Kept(records, rel);
    var column := seq(|kept|, i requires 0 <= i < |kept| => Target(kept[i], rel));
    forall v ensures v in column <==> exists r :: r in kept && Target(r, rel) == v {
      if v in column {
        var i :| 0 <= i < |column| && column[i] == v;
        assert kept[i] in kept;
      }
      if exists r :: r in kept && Target(r, rel) == v {
        var r :| r in kept && Target(r, rel) == v;
        var i :| 0 <= i < |kept| && kept[i] == r;
        assert column[i] == v;
      }
    }
  }

  /**
   * Sentinel rows never reach a graph: every edge comes from a row whose
   * field was found and every such row gives an edge; the sentinel is never
   * a target node, and is a node at all only if some company bears its name.
   */
  lemma GraphExcludesSentinel(records: seq<Record>, rel: Relation)
    ensures forall e :: e in Edges(records, rel) <==>
      exists r :: r in records && Target(r, rel) != Sentinel(rel) && e == {r.name, Target(r, rel)}
    ensures Sentinel(rel) !in Targets(records, rel)
    ensures Sentinel(rel) in Nodes(records, rel) ==>
      exists r :: r in records && Target(r, rel) != Sentinel(rel) && r.name == Sentinel(rel)
  {
    TargetsMembers(records, rel);
  }

  /** Pairing distinct companies with a target outside them gives distinct edges. */
  lemma {:induction false} PairImageCard(companies: set<string>, v: string)
    requires v !in companies
    ensures |set c | c in companies :: {c, v}| == |companies|
    decreases |companies|
  {
    if companies != {} {
      var c0 :| c0 in companies;
      var rest := companies - {c0};
      PairImageCard(rest, v);
      var image := set c | c in companies :: {c, v};
      var restImage := set c | c in rest :: {c, v};
      assert image == restImage + {{c0, v}};
      assert {c0, v} !in restImage;
    }
  }

  /**
   * When no company is named `v`, the degree of `v` is the number of
   * distinct companies linked to it: no self-loop, and one edge per company.
   */
  lemma DegreeCountsCompanies(records: seq<Record>, rel: Relation, v: string)
    requires forall r :: r in Kept(records, rel) ==> r.name != v
    ensures Degree(Edges(records, rel), v) == |Linked(records, rel, v)|
  {
    var edges := Edges(records, rel);
    var linked := Linked(records, rel, v);
    var incident := set e | e in edges && v in e;
    var image := set c | c in linked :: {c, v};
    forall e | e in incident ensures e in image {
      var r :| r in Kept(records, rel) && e == {r.name, Target(r, rel)};
      assert Target(r, rel) == v;
      assert r.name in linked;
    }
    forall e | e in image ensures e in incident {
      var c :| c in linked && e == {c, v};
      var r :| r in Kept(records, rel) && Target(r, rel) == v && r.name == c;
      assert {r.name, Target(r, rel)} in edges;
    }
    assert incident == image;
    assert {v} !in edges;
    PairImageCard(linked, v);
  }

  /**
   * When no company shares a name with a target, each target's node size is
   * 100 times the number of distinct companies linked to it.
   */
  lemma SizesCountCompanies(records: seq<Record>, rel: Relation)
    requires NamesAreNotTargets(records, rel)
    ensures NodeSizes(records, rel) == CompanySizes(records, rel)
  {
    var targets := Targets(records, rel);
    TargetsMembers(records, rel);
    forall i | 0 <= i < |targets|
      ensures NodeSizes(records, rel)[i] == CompanySizes(records, rel)[i]
    {
      assert targets[i] in targets;
      var q :| q in Kept(records, rel) && Target(q, rel) == targets[i];
      DegreeCountsCompanies(records, rel, targets[i]);
    }
  }

  /** Two companies, the first naming the second as its agent. */
  function SharedNameRecords(): seq<Record> {
    [Record(1, "X Corp", "", "X Agents LLC", "Not Found"),
     Record(2, "X Agents LLC", "", "Jane Roe", "Not Found")]
  }

  /** Neither row of the example has the agent sentinel. */
  lemma SharedNameKept()
    ensures Kept(SharedNameRecords(), AgentOf) == SharedNameRecords()
  {
    var records := SharedNameRecords();
    assert "X Agents LLC" != Sentinel(AgentOf) && "Jane Roe" != Sentinel(AgentOf);
    assert records[1..] == [records[1]] && [records[1]][1..] == [];
  }

  /** The example has two agents, in row order. */
  lemma SharedNameTargets()
    ensures Targets(SharedNameRecords(), AgentOf) == ["X Agents LLC", "Jane Roe"]
  {
    var records := SharedNameRecords();
    SharedNameKept();
    var column := ["X Agents LLC", "Jane Roe"];
    assert seq(|records|, i requires 0 <= i < |records| => Target(records[i], AgentOf)) == column;
    assert column[..1] == ["X Agents LLC"] && ["X Agents LLC"][..0] == [];
    assert "Jane Roe" != "X Agents LLC";
  }

  /** "X Agents LLC" meets two edges: its own company row and the row naming it. */
  lemma SharedNameDegree()
    ensures Degree(Edges(SharedNameRecords(), AgentOf), "X Agents LLC") == 2
  {
    var records := SharedNameRecords();
    SharedNameKept();
    var e1: set<string> := {"X Corp", "X Agents LLC"};
    var e2: set<string> := {"X Agents LLC", "Jane Roe"};
    var edges := {e1, e2};
    assert Edges(records, AgentOf) == edges;
    assert "X Corp" !in e2;
    assert e1 != e2;
    assert (set e | e in edges && "X Agents LLC" in e) == edges;
    assert |edges| == 2;
    assert {"X Agents LLC"} != e1 && {"X Agents LLC"} != e2 by {
      assert "X Corp" in e1 && "Jane Roe" in e2;
    }
  }

  /** Only "X Corp" names "X Agents LLC" as its agent. */
  lemma SharedNameLinked()
    ensures Linked(SharedNameRecords(), AgentOf, "X Agents LLC") == {"X Corp"}
  {
    SharedNameKept();
    var records := SharedNameRecords();
    assert records[1].agent != "X Agents LLC";
  }

  /**
   * A company that is also another company's agent is one node with both
   * roles: "X Agents LLC", agent of "X Corp" and itself a company whose agent
   * is "Jane Roe", gets size 200 although only one company names it.
   */
  lemma SharedNameInflatesSize()
    ensures var records := [Record(1, "X Corp", "", "X Agents LLC", "Not Found"),
                            Record(2, "X Agents LLC", "", "Jane Roe", "Not Found")];
      && Targets(records, AgentOf) == ["X Agents LLC", "Jane Roe"]
      && NodeSizes(records, AgentOf)[0] == 200
      && CompanySizes(records, AgentOf)[0] == 100
  {
    SharedNameTargets();
    SharedNameDegree();
    SharedNameLinked();
  }
}
