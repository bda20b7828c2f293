/** CSV import: each parsed row becomes a contact through `addNode`, with its
    industry guessed from the role and company (src/components/ImportDialog.jsx). */
module Importing {
  import opened Util
  import opened Records
  import opened Store
  import opened Scoring
  import opened Graph

  /** The industry table of `detectIndustry`, in its key order. */
  const Industries: seq<(seq<string>, string)> := [
    (["developer", "engineer", "software", "tech", "programmer", "it"], "tech"),
    (["finance", "bank", "investment", "trading", "analyst", "wealth"], "finance"),
    (["ecommerce", "e-commerce", "retail", "shopify", "amazon"], "ecommerce"),
    (["logistics", "supply", "shipping", "warehouse", "fulfillment"], "logistics"),
    (["consultant", "consulting", "advisor", "advisory"], "consulting")]

  /** The text the keywords are looked for in. */
  function IndustryText(role: string, company: string): string {
    Lower(role + " " + company)
  }

  /** `keywords.some(keyword => text.includes(keyword))` */
  predicate HasKeyword(text: string, keywords: seq<string>) {
    exists k :: 0 <= k < |keywords| && Contains(text, keywords[k])
  }

  /** `detectIndustry(role, company)`: the first industry of the table with a
      keyword inside the lower-cased `"role company"`, `''` when none has one. */
  function DetectIndustry(role: string, company: string): string {
    var text := IndustryText(role, company);
    var hit := FirstMatch(Industries, (keywords: seq<string>) => HasKeyword(text, keywords));
    if hit.Some? then hit.value else ""
  }

  /** `detectIndustry` answers the first industry of the table with a keyword
      inside the text, and `''` exactly when none has one. */
  lemma DetectIndustryFirst(role: string, company: string)
    ensures var text, r := IndustryText(role, company), DetectIndustry(role, company);
      && (r == "" <==> forall i :: 0 <= i < |Industries| ==> !HasKeyword(text, Industries[i].0))
      && (r != "" ==> exists i :: 0 <= i < |Industries| && HasKeyword(text, Industries[i].0) && r == Industries[i].1
                                 && forall j :: 0 <= j < i ==> !HasKeyword(text, Industries[j].0))
  {
    var text := IndustryText(role, company);
    FirstMatchSpec(Industries, (keywords: seq<string>) => HasKeyword(text, keywords));
    assert forall i :: 0 <= i < |Industries| ==> Industries[i].1 != "";
  }

  /** The keyword `it` matches inside other words: an investment analyst at a
      firm called "Capital" is classed as tech, not finance. */
  lemma CapitalIsTech()
    ensures DetectIndustry("Investment Analyst", "Capital") == "tech"
  {
    var text := IndustryText("Investment Analyst", "Capital");
    assert text[22..24] == "it";
    ContainsAt(text, "it", 22);
    assert Industries[0].0[5] == "it";
    assert HasKeyword(text, Industries[0].0);
  }

  /** Which column of the CSV feeds which field. */
  datatype Mapping = Mapping(name: string, email: string, phone: string, role: string,
                             company: string, location: string, linkedin: string)

  /** A parsed CSV row: column header to cell text. */
  type Row = map<string, string>

  /** `row[column] || ''` */
  function Cell(row: Row, column: string): string {
    if column in row then row[column] else ""
  }

  /** The six leverage dimensions, all 0: the scores of an imported contact. */
  const ImportScores: map<string, int> := map[
    "capitalAccess" := 0, "skillValue" := 0, "networkReach" := 0,
    "reliability" := 0, "speed" := 0, "alignment" := 0]

  /** The record a row hands to `addNode`, `None` when its name is blank once
      trimmed. */
  function RowInput(row: Row, m: Mapping): (r: Option<NodeInput>)
    ensures r.None? <==> Trim(Cell(row, m.name)) == ""
  {
    var name := Cell(row, m.name);
    if Trim(name) == "" then None
    else
      var role := Cell(row, m.role);
      var company := Cell(row, m.company);
      Some(ImportRecord(Trim(name), Trim(Cell(row, m.email)), Trim(Cell(row, m.phone)),
                        Trim(Cell(row, m.location)), Trim(Cell(row, m.linkedin)),
                        Occupation(Trim(role), Trim(company), DetectIndustry(role, company))))
  }

  /** `nodeData` from its already trimmed parts. */
  function ImportRecord(name: string, email: string, phone: string, location: string, linkedin: string,
                        occupation: Occupation): NodeInput {
    NodeInput(None, Some("person"), Some(name), Some(email), Some(phone), Some(location),
              Some(map["linkedin" := linkedin, "x" := "", "instagram" := "", "whatsapp" := ""]),
              Some(occupation), Some([]), Some(ImportScores), Some(0), Some([]), None, None)
  }

  /** What `addNode` stores for such a record. */
  lemma ImportRecordNode(name: string, email: string, phone: string, location: string, linkedin: string,
                         occupation: Occupation, freshId: string)
    ensures var n := BuildNode(ImportRecord(name, email, phone, location, linkedin, occupation), freshId);
      && n.id == freshId && n.kind == "person" && n.name == name && n.email == email
      && n.phone == phone && n.location == location && n.social["linkedin"] == linkedin
      && n.occupation == occupation && n.scores == ImportScores && n.leverageScore == 0
      && n.lastInteraction.None? && n.skills == [] && n.notes == []
  {
  }

  /** A contact made from a row: trimmed name (not blank), email, phone,
      location and LinkedIn handle, the guessed industry, every dimension 0,
      leverage 0 and no last interaction. */
  lemma ImportedNodeShape(row: Row, m: Mapping, freshId: string)
    requires RowInput(row, m).Some?
    ensures var n := BuildNode(RowInput(row, m).value, freshId);
      && n.id == freshId && n.kind == "person"
      && n.name == Trim(Cell(row, m.name)) && n.name != ""
      && n.email == Trim(Cell(row, m.email)) && n.phone == Trim(Cell(row, m.phone))
      && n.location == Trim(Cell(row, m.location))
      && n.social["linkedin"] == Trim(Cell(row, m.linkedin))
      && n.occupation.industry == DetectIndustry(Cell(row, m.role), Cell(row, m.company))
      && n.scores == ImportScores && n.leverageScore == 0
      && n.lastInteraction.None? && n.skills == [] && n.notes == []
  {
    var role := Cell(row, m.role);
    var company := Cell(row, m.company);
    ImportRecordNode(Trim(Cell(row, m.name)), Trim(Cell(row, m.email)), Trim(Cell(row, m.phone)),
                     Trim(Cell(row, m.location)), Trim(Cell(row, m.linkedin)),
                     Occupation(Trim(role), Trim(company), DetectIndustry(role, company)), freshId);
  }

  /** The scores of an imported contact: every dimension 0, which makes a
      leverage of 0, the leverage it is stored with. */
  lemma ImportScoresZero()
    ensures forall k :: k in Dimensions ==> Dim(ImportScores, k) == 0
    ensures CalculateLeverageScore(ImportScores) == 0
  {
    assert Dimensions == ["capitalAccess", "skillValue", "networkReach", "reliability", "speed", "alignment"];
    LeverageExtremes(ImportScores);
  }

  /** The contact a row makes with the given id: none when its name is blank. */
  function Added(row: Row, m: Mapping, freshId: string): (r: seq<Node>)
    ensures |r| <= 1 && (r == [] <==> RowInput(row, m).None?)
  {
    var input := RowInput(row, m);
    if input.Some? then [BuildNode(input.value, freshId)] else []
  }

  /** The contacts the first `i` rows make, in row order, each row taking the
      fresh id at its own position. */
  function ImportedNodes(rows: seq<Row>, m: Mapping, ids: seq<string>, i: nat): (r: seq<Node>)
    requires i <= |rows| == |ids|
    ensures |r| <= i
  {
    if i == 0 then [] else ImportedNodes(rows, m, ids, i - 1) + Added(rows[i - 1], m, ids[i - 1])
  }

  /** How many of the first `i` rows have a name. */
  function NamedRows(rows: seq<Row>, m: Mapping, i: nat): nat
    requires i <= |rows|
  {
    if i == 0 then 0 else NamedRows(rows, m, i - 1) + if RowInput(rows[i - 1], m).Some? then 1 else 0
  }

  /** Every named row, and only those, makes a contact. */
  lemma {:induction false} ImportedCount(rows: seq<Row>, m: Mapping, ids: seq<string>, i: nat)
    requires i <= |rows| == |ids|
    ensures |ImportedNodes(rows, m, ids, i)| == NamedRows(rows, m, i)
  {
    if i > 0 {
      ImportedCount(rows, m, ids, i - 1);
    }
  }

  /** The node table after storing `ns` one after the other. */
  function StoreAll(nodes: map<string, Node>, ns: seq<Node>): map<string, Node> {
    if ns == [] then nodes else StoreAll(nodes, ns[..|ns| - 1])[ns[|ns| - 1].id := ns[|ns| - 1]]
  }

  /** The graph after adding `ns` one after the other. */
  function PutAll(g: GraphState, ns: seq<Node>): GraphState {
    if ns == [] then g else PutNode(PutAll(g, ns[..|ns| - 1]), ns[|ns| - 1])
  }

  /** Every imported contact is in the table afterwards. */
  lemma {:induction false} StoreAllHolds(nodes: map<string, Node>, ns: seq<Node>, n: Node)
    requires n in ns
    ensures n.id in StoreAll(nodes, ns)
  {
    var last := ns[|ns| - 1];
    if n != last {
      assert n in ns[..|ns| - 1];
      StoreAllHolds(nodes, ns[..|ns| - 1], n);
    }
  }

  /** The table and graph hold what was there before plus the contacts `done`
      when the store can be written, and nothing new when it cannot. */
  ghost predicate Imported(nodes: map<string, Node>, graph: GraphState, available: bool,
                           nodes0: map<string, Node>, graph0: GraphState, done: seq<Node>)
  {
    && (available ==> nodes == StoreAll(nodes0, done) && graph == PutAll(graph0, done))
    && (!available ==> nodes == nodes0 && graph == graph0)
  }

  /** Where the row loop stands after `i` rows: the contacts of those rows
      stored when the store can be written, and every row counted once, as an
      import when it was stored and as an error otherwise. */
  ghost predicate Progress(nodes: map<string, Node>, graph: GraphState, available: bool,
                           rows: seq<Row>, m: Mapping, freshIds: seq<string>, i: nat,
                           nodes0: map<string, Node>, graph0: GraphState,
                           imported: nat, errors: nat)
    requires i <= |rows| == |freshIds|
  {
    && Imported(nodes, graph, available, nodes0, graph0, ImportedNodes(rows, m, freshIds, i))
    && imported + errors == i
    && imported == if available then |ImportedNodes(rows, m, freshIds, i)| else 0
  }

  /** A row with a blank name changes nothing and counts as an error. */
  lemma BlankRowStep(nodes: map<string, Node>, graph: GraphState, available: bool,
                     rows: seq<Row>, m: Mapping, freshIds: seq<string>, i: nat,
                     nodes0: map<string, Node>, graph0: GraphState, imported: nat, errors: nat)
    requires i < |rows| == |freshIds| && RowInput(rows[i], m).None?
    requires Progress(nodes, graph, available, rows, m, freshIds, i, nodes0, graph0, imported, errors)
    ensures Progress(nodes, graph, available, rows, m, freshIds, i + 1, nodes0, graph0, imported, errors + 1)
  {
    BlankRowAddsNothing(rows, m, freshIds, i);
  }

  lemma BlankRowAddsNothing(rows: seq<Row>, m: Mapping, freshIds: seq<string>, i: nat)
    requires i < |rows| == |freshIds| && RowInput(rows[i], m).None?
    ensures ImportedNodes(rows, m, freshIds, i + 1) == ImportedNodes(rows, m, freshIds, i)
  {
    var done := ImportedNodes(rows, m, freshIds, i);
    assert Added(rows[i], m, freshIds[i]) == [];
    assert done + [] == done;
  }

  /** A named row passed to `addNode`: stored, it is one more import and its
      contact joins the table and graph; refused by the store, it is an error
      and nothing changes. */
  lemma NamedRowStep(nodes: map<string, Node>, graph: GraphState, available: bool,
                     nodes': map<string, Node>, graph': GraphState,
                     rows: seq<Row>, m: Mapping, freshIds: seq<string>, i: nat,
                     nodes0: map<string, Node>, graph0: GraphState, imported: nat, errors: nat)
    requires i < |rows| == |freshIds| && RowInput(rows[i], m).Some?
    requires Progress(nodes, graph, available, rows, m, freshIds, i, nodes0, graph0, imported, errors)
    requires var n := BuildNode(RowInput(rows[i], m).value, freshIds[i]);
      && (available ==> nodes' == nodes[n.id := n] && graph' == PutNode(graph, n))
      && (!available ==> nodes' == nodes && graph' == graph)
    ensures available ==>
      Progress(nodes', graph', available, rows, m, freshIds, i + 1, nodes0, graph0, imported + 1, errors)
    ensures !available ==>
      Progress(nodes', graph', available, rows, m, freshIds, i + 1, nodes0, graph0, imported, errors + 1)
  {
    var done := ImportedNodes(rows, m, freshIds, i);
    var n := BuildNode(RowInput(rows[i], m).value, freshIds[i]);
    assert ImportedNodes(rows, m, freshIds, i + 1) == done + [n];
    assert (done + [n])[..|done|] == done;
  }

  /** One pass of the row loop, on row `i`: a row with a blank name is an
      error; any other is passed to `addNode`, and is an import when the store
      can be written and an error when it cannot. The ghost parameters are
      the table, graph and store state from before the loop. */
  method ImportRow(index: GraphIndex, rows: seq<Row>, m: Mapping, freshIds: seq<string>, i: nat,
                   imported: nat, errors: nat,
                   ghost nodes0: map<string, Node>, ghost graph0: GraphState, ghost available: bool)
    returns (imported': nat, errors': nat)
    requires i < |rows| == |freshIds| && index.Valid() && index.db.available == available
    requires Progress(index.db.nodes, index.graph, available, rows, m, freshIds, i, nodes0, graph0, imported, errors)
    modifies index, index.db
    ensures index.Valid() && index.db.available == available
    ensures Progress(index.db.nodes, index.graph, available, rows, m, freshIds, i + 1, nodes0, graph0, imported', errors')
    ensures index.db.relationships == old(index.db.relationships)
  {
    var input := RowInput(rows[i], m);
    if input.None? {
      BlankRowStep(index.db.nodes, index.graph, available, rows, m, freshIds, i, nodes0, graph0, imported, errors);
      return imported, errors + 1;
    }
    ghost var nodes, graph := index.db.nodes, index.graph;
    var added := index.AddNode(input.value, freshIds[i]);
    NamedRowStep(nodes, graph, available, index.db.nodes, index.graph, rows, m, freshIds, i, nodes0, graph0, imported, errors);
    if added.Success? {
      imported', errors' := imported + 1, errors;
    } else {
      imported', errors' := imported, errors + 1;
    }
  }

  /** The row loop of `handleImport`: a row with a blank name is an error; any
      other is passed to `addNode`, and a failing store makes it an error too
      while the loop goes on. Every row is counted once. */
  method ImportRows(index: GraphIndex, rows: seq<Row>, m: Mapping, freshIds: seq<string>)
    returns (imported: nat, errors: nat)
    requires index.Valid() && |freshIds| == |rows|
    modifies index, index.db
    ensures index.Valid() && index.db.available == old(index.db.available)
    ensures Imported(index.db.nodes, index.graph, index.db.available, old(index.db.nodes), old(index.graph),
                     ImportedNodes(rows, m, freshIds, |rows|))
    ensures index.db.relationships == old(index.db.relationships)
    ensures imported + errors == |rows|
    ensures imported == if index.db.available then NamedRows(rows, m, |rows|) else 0
  {
    ghost var nodes0, graph0, available := index.db.nodes, index.graph, index.db.available;
    imported, errors := 0, 0;
    var i := 0;
    while i < |rows|
      invariant 0 <= i <= |rows|
      invariant index.Valid() && index.db.available == available
      invariant Progress(index.db.nodes, index.graph, available, rows, m, freshIds, i, nodes0, graph0, imported, errors)
      invariant index.db.relationships == old(index.db.relationships)
    {
      imported, errors := ImportRow(index, rows, m, freshIds, i, imported, errors, nodes0, graph0, available);
      i := i + 1;
    }
    ImportedCount(rows, m, freshIds, |rows|);
  }
}
