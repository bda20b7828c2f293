# social-graph: a verified model of the relationship-graph engine

social-graph is a personal network manager. It stores contacts ("nodes") and the
relationships between them in two IndexedDB tables. It mirrors them in an
in-memory graphology graph and scores every contact on six leverage dimensions.
Relationship strength decays with time since the last interaction. A set of
analytic queries answers questions such as "who connects me to investors" or
"whom should I reconnect with". A handful of React components edit contacts,
relationships, scores and notes, and import contacts from CSV.

This project models that core in Dafny and proves what its code promises:

- `Records` (records.dfy): the stored records, the partial-update merge
  (`{ ...record, ...updates }`) and JavaScript's `x || default`.
- `Store` (db.dfy): the two Dexie tables as the class `Store.Database`, with
  two maps and an `available` flag. A store that cannot be written fails every
  call with `Unavailable`. Adding an existing key fails with `ConstraintError`.
  Deleting a node cascades to its relationships.
- `Graph` (graph.dfy): the module-level graph as the class `Graph.GraphIndex`.
  It holds a node map, the node insertion order and the edge sequence in
  insertion order, next to the store it mirrors. Each mutation
  (`loadGraph`, `addNode`, `updateNodeData`, `removeNode`, `addRelationship`,
  `updateRelationshipData`, `removeRelationship`) is a method. Its `ensures`
  gives the new store and graph through value-level functions (`PutNode`,
  `DropNode`, `PutEdge`, ...). Lemmas prove those functions keep the graph
  well formed:
  - every node is listed once;
  - every edge ends at nodes;
  - at most one edge joins an ordered pair.
- `GraphPaths` (graph_paths.dfy): shortest paths by breadth over hop counts, and
  `findPathsToIndustry`.
- `Queries` (queries.js), `Suggestions`, `Root`, `Scoring` and `Decay`:
  - the queries are pure functions over a well-formed graph `Snapshot` with
    the current time `now` passed in, so none of them can change the graph;
  - `Decay.ApplyDecayToAllRelationships` is a method with the source's two
    loops.
- `ScoreEditing`, `EdgeEditing`, `NodeEditing`, `NotesPanel` and `Importing`:
  the state rules of the React components.
  - Component state is a class whose handlers are methods.
  - The notes sort is an in-place insertion sort on an `array`.
  - The CSV import loop is a method over the rows.

Times are integers (milliseconds since the epoch, UTC). Scores are integers. The
decay curve `x => Math.pow(0.95, x)` is a parameter `pow` that satisfies
`Decay.IsDecayCurve`: it is 1 at 0, lies in (0, 1] for non-negative exponents,
and never increases.

## Model

| member | source | states |
|---|---|---|
| Records.OrText | src/lib/graph.js:80-84 | `s \|\| d` on text: a present non-empty string wins, a missing or empty one gives the default |
| Records.OrElse | src/lib/graph.js:85-101 | `x \|\| d` on an object or array: a present value wins, a missing one gives the default |
| Records.MergeNode | src/lib/db.js:48-50 | merging a patch never changes the key, and the empty patch changes nothing |
| Records.FullNodePatchWrites | src/lib/graph.js:104-113 | the upsert fallback `updateNode(id, node)` leaves exactly the new record under the old key |
| Records.MergeRel | src/lib/db.js:84-86 | merging a relationship patch keeps the key, and the empty patch changes nothing |
| Records.FullRelPatchWrites | src/lib/graph.js:199-201 | writing every field of a relationship into a stored record leaves exactly that relationship, apart from the key, which the store then moves (`Store.Database.ReplaceRelationship`) |
| Records.StrengthPatch | src/lib/decay.js:82-84 | the decay write `{ strength }` changes a relationship's strength and nothing else |
| Store.ListsFilter | src/lib/db.js:44-46 | filtering a listing of a table lists exactly the records meeting the filter, each once |
| Store.ListValues | src/lib/db.js:40-42 | `toArray()` lists every record of the table exactly once |
| Store.Database.constructor | src/lib/db.js:21-27 | a new store is empty, with the given availability |
| Store.Database.CreateNode | src/lib/db.js:32-34 | `add` stores the node under a free key and answers the key; a taken key fails with ConstraintError; nothing else changes |
| Store.Database.GetNode | src/lib/db.js:36-38 | the stored node under the key, or none |
| Store.Database.GetAllNodes | src/lib/db.js:40-42 | every stored node exactly once |
| Store.Database.GetNodesByType | src/lib/db.js:44-46 | exactly the stored nodes of the given type, each once |
| Store.Database.UpdateNode | src/lib/db.js:48-50 | an unknown key answers 0 and changes nothing; a known one merges the patch into that record only and answers 1 |
| Store.Database.DeleteNode | src/lib/db.js:52-57 | the node is gone, every relationship touching it is gone, all other nodes and relationships stay |
| Store.Database.CreateRelationship | src/lib/db.js:60-62 | stores the relationship under a free key; a taken key fails with ConstraintError |
| Store.Database.GetRelationship | src/lib/db.js:64-66 | the stored relationship under the key, or none |
| Store.Database.GetAllRelationships | src/lib/db.js:68-70 | every stored relationship exactly once |
| Store.Database.GetRelationshipsByNode | src/lib/db.js:72-76 | the relationships leaving the node, then those arriving at it, each part listing its set exactly once |
| Store.Database.GetRelationshipBetween | src/lib/db.js:78-82 | a stored forward relationship when one exists, else a stored reverse one, else none (and then neither direction is stored) |
| Store.Database.UpdateRelationship | src/lib/db.js:84-86 | merges the patch into that record only; an unknown key answers 0 and changes nothing |
| Store.Database.ReplaceRelationship | src/lib/db.js:84-86 | `update(key, relationship)` with a whole record: the record moves to the relationship's own id and the old key goes; a new id already taken fails with ConstraintError and changes nothing; an unknown key answers 0 |
| Store.Database.DeleteRelationship | src/lib/db.js:88-90 | removes exactly that key |
| Store.Database.SearchNodes | src/lib/db.js:102-113 | exactly the stored nodes whose lower-cased name, email, role, company or industry contains the lower-cased query |
| Scoring.CalculateLeverageScore | src/lib/scoring.js:6-21 | the result lies in 0..100; strictly inside, it is within one half of `sum * 10 / 6`; 0 and 100 are answered only when the rounded value is at or past those bounds |
| Scoring.LeverageOnlyDimensions | src/lib/scoring.js:7-17 | two score maps that agree on the six dimensions (a missing one counting as 0) score alike |
| Scoring.LeverageIgnoresExtraKeys | src/lib/scoring.js:7-17 | setting a key outside the six dimensions, such as `trust`, leaves the score unchanged |
| Scoring.LeverageExtremes | src/lib/scoring.js:16-20 | all six dimensions at 10 give 100; all at 0 give 0 |
| Scoring.LeverageMonotone | src/lib/scoring.js:16-20 | raising one dimension with the others fixed never lowers the score |
| Scoring.ValidateScore | src/lib/scoring.js:55-59 | the result lies in 0..10, is 0 for a non-numeric input, and is otherwise the rounded value clamped to 0..10 |
| Scoring.ValidateScoreIdempotent | src/lib/scoring.js:55-59 | validating a validated score gives it back |
| Scoring.UpdateLeverageScore | src/lib/scoring.js:26-35 | the leverage equals the score computed from the node's scores, and every other field is unchanged |
| Scoring.GetScoreBreakdown | src/lib/scoring.js:40-50 | each dimension is the input's value (0 when missing), and the leverage agrees with those dimensions |
| Decay.CivilFromDays | src/lib/decay.js:9-15 | the calendar date of a day number is a valid date that maps back to the same day number |
| Decay.DateOf | src/lib/decay.js:9-15 | the year, month and day that `new Date(t)` shows form a valid calendar date |
| Decay.DaysFromCivilOrdered | src/lib/decay.js:9-15 | earlier calendar dates have smaller day numbers |
| Decay.CivilRoundTrip | src/lib/decay.js:9-15 | a valid date is the date of its own day number |
| Decay.MonthsBetweenSelf | src/lib/decay.js:9-15 | an instant is zero months from itself |
| Decay.MonthsBetweenSwap | src/lib/decay.js:9-15 | swapping the two dates negates the month count |
| Decay.MonthsBetweenForward | src/lib/decay.js:9-15 | going forward in time never gives a negative month count |
| Decay.MonthsBetweenMonthEnd | src/lib/decay.js:9-15 | 31 January to 1 February counts as zero months (one calendar month minus thirty days) |
| Decay.RoundTenth | src/lib/decay.js:35-36 | `Math.round(x * 10) / 10` is a multiple of 0.1 within 0.05 of `x` |
| Decay.RoundTenthMonotone | src/lib/decay.js:35-36 | rounding to a tenth preserves order |
| Decay.RoundTenthOfTenth | src/lib/decay.js:35-36 | a multiple of 0.1 rounds to itself |
| Decay.DecayBy | src/lib/decay.js:35-36 | the decay branch answers a value in [1, 10] that is a tenth or the clamp 1; strictly inside the clamp it is `s * 0.95^months` rounded to the nearest tenth (within 0.05 of it); 10 only when the decayed value is at least 9.95, and 1 only when it is below 1.05 |
| Decay.DecayedStrength | src/lib/decay.js:24-37 | with no date the result is the larger of 1 and the strength decayed over twelve months; with no elapsed time it is the strength unchanged; otherwise it is the decayed value `s * 0.95^months` rounded to a tenth and clamped to [1, 10], with the same bounds as `DecayBy` |
| Decay.DecayedAtLastInteraction | src/lib/decay.js:30-33 | measured at the moment of the last interaction, nothing has decayed |
| Decay.DecayNeverStrengthens | src/lib/decay.js:24-37 | a strength in [1, 10] that is a multiple of 0.1 never grows by decay, in any branch |
| Decay.UndatedAtMost | src/lib/decay.js:25-28 | twelve months of decay never raise an undated strength of at least 1 |
| Decay.DecayByAtMost | src/lib/decay.js:35-36 | the decay branch never raises a strength of at least 1 that is a multiple of 0.1 |
| Decay.DecayByMonotone | src/lib/decay.js:35-36 | more months of decay never give more strength |
| Decay.ApplyDecayToRelationship | src/lib/decay.js:42-53 | every field is kept, `originalStrength` is the strength, `decayedStrength` is the decayed value |
| Decay.UpdateFor | src/lib/decay.js:66-79 | a write is planned for an edge exactly when it has a last interaction and its decayed strength differs from its strength by more than 0.1; the write carries the decayed value |
| Decay.PendingUpdatesSound | src/lib/decay.js:66-79 | every planned write comes from an edge that calls for it |
| Decay.PendingUpdatesComplete | src/lib/decay.js:66-79 | every edge that calls for a write gets one |
| Decay.PlanUpdates | src/lib/decay.js:66-79 | the loop collects exactly the planned writes, in edge order |
| Decay.ApplyUpdatesOnlyStrength | src/lib/decay.js:82-84 | the writes change the graph only through edge strengths (with size and colour following); nodes, order and edge ends stay |
| Decay.StoreUpdatesOnlyStrength | src/lib/decay.js:82-84 | the writes keep the table's keys and change only strengths |
| Decay.UpdateHasEdge | src/lib/decay.js:82-84 | every planned write still finds its edge after the writes before it |
| Decay.ApplyDecayToAllRelationships | src/lib/decay.js:59-87 | answers the number of planned writes and leaves graph and table with exactly those writes applied in order; a store that cannot be written fails and changes nothing; nodes never change |
| Graph.NodeColorFirstMatch | src/lib/graph.js:309-329 | the colour is that of the first table key, in table order, found in the lower-cased industry, and slate when none is found |
| Graph.EdgeColor | src/lib/graph.js:331-341 | a known relationship type gets its table colour, any other type grey `#6b7280` |
| Graph.DecorateNode | src/lib/graph.js:115-128 | a graph node carries the record, the label `name \|\| 'Unnamed'`, size `max(5, leverage / 10)` and the industry colour |
| Graph.LoadedNode | src/lib/graph.js:22-30 | as `addNode`'s attributes, but the label is the bare name |
| Graph.DecorateEdge | src/lib/graph.js:211-215 | an edge joins the relationship's ends, with size `strength / 2` and the type colour |
| Graph.BuildNode | src/lib/graph.js:77-102 | every given field is kept (an empty id or type falls back) and every missing field takes its default: generated id, type `person`, empty texts, no skills, all scores 0, leverage 0, no last interaction, empty metadata |
| Graph.StrengthOr5 | src/lib/graph.js:190 | a missing or zero strength becomes 5, any other is kept |
| Graph.BuildRelationship | src/lib/graph.js:184-195 | the stored relationship takes the given fields and the defaults `business`, 5, `bidirectional`, no tags and creation time `now` |
| Graph.AllGraphNodes | src/lib/graph.js:178-180 | the attributes of every node, in insertion order |
| Graph.GetNodeData | src/lib/graph.js:174-176 | a node's attributes exactly when it is in the graph |
| Graph.IncidentEdges | src/lib/graph.js:264-265 | exactly the edges with the node at either end |
| Graph.RelationshipsForNode | src/lib/graph.js:264-277 | none for an unknown node; otherwise one entry per incident edge, with both end nodes and the node at the other end |
| Graph.EdgeBetween | src/lib/graph.js:198 | finds an edge from `source` to `target` exactly when one exists |
| Graph.EdgeWithId | src/lib/graph.js:222-230 | the first edge whose relationship carries the id, or none exactly when no edge does |
| Graph.LoadEdges | src/lib/graph.js:42-59 | the loaded edges join nodes, come from stored relationships, carry their decorated attributes and never repeat an ordered pair |
| Graph.LoadEdgesCover | src/lib/graph.js:42-59 | every stored relationship whose ends are both nodes gets an edge joining its ordered pair |
| Graph.LoadedNodes | src/lib/graph.js:18-39 | after loading, the graph's node keys are exactly the stored node keys |
| Graph.PutNode | src/lib/graph.js:115-140 | after `addNode` the node carries its decorated attributes, new or not; other nodes and all edges stay; a new id joins the end of the node order |
| Graph.PutNodeWellFormed | src/lib/graph.js:115-140 | adding a node keeps the graph well formed |
| Graph.PutNodeIdempotent | src/lib/graph.js:115-140 | adding the same node twice is adding it once |
| Graph.DropNode | src/lib/graph.js:169-172 | the node leaves the graph with exactly the edges touching it; all else stays |
| Graph.DropNodeWellFormed | src/lib/graph.js:169-172 | dropping a node keeps the graph well formed |
| Graph.PutThenDropNode | src/lib/graph.js:115-172 | adding a new node and removing it restores the graph |
| Graph.Refreshed | src/lib/graph.js:154-164 | the patched node's label is the merged name and its size is `leverage / 10` with no floor; the colour follows the merged record |
| Graph.RefreshNode | src/lib/graph.js:150-167 | `updateNodeData` changes only that graph node and keeps the graph well formed |
| Graph.PutEdge | src/lib/graph.js:197-217 | an existing edge on the ordered pair is overwritten in place, otherwise exactly one edge is appended; the edge count grows by at most one, and by one exactly when the pair was free |
| Graph.PutEdgeWellFormed | src/lib/graph.js:197-217 | adding a relationship keeps the graph well formed |
| Graph.PutEdgeIdempotent | src/lib/graph.js:197-217 | adding the same relationship twice is adding it once |
| Graph.PutEdgeReversePair | src/lib/graph.js:198 | a relationship on the reverse of an existing pair adds a second edge |
| Graph.RemoveEdgeWithId | src/lib/graph.js:248-258 | the first edge carrying the id is dropped, the others keep their order; no such edge changes nothing |
| Graph.RemoveEdgeWellFormed | src/lib/graph.js:248-258 | removing a relationship keeps the graph well formed |
| Graph.PutThenRemoveEdge | src/lib/graph.js:183-258 | adding a relationship on a free pair under an unused id and removing it restores the graph |
| Graph.PatchedEdge | src/lib/graph.js:233-243 | the patched edge keeps its ends, takes the merged record, and its size and colour follow the new strength and type |
| Graph.PatchEdgeWithId | src/lib/graph.js:220-246 | only the first edge carrying the id changes, and the graph stays well formed |
| Graph.GraphIndex.constructor | src/lib/graph.js:5 | a new graph is empty over the given store |
| Graph.GraphIndex.LoadGraph | src/lib/graph.js:10-68 | the graph is cleared; the stored nodes become its nodes and the stored relationships with both ends present its edges; a failing store leaves it empty |
| Graph.GraphIndex.AddLoadedNodes | src/lib/graph.js:18-39 | the node pass adds every stored node once, first come first added |
| Graph.GraphIndex.AddLoadedEdges | src/lib/graph.js:42-59 | the relationship pass builds exactly the loaded edges |
| Graph.GraphIndex.AddNode | src/lib/graph.js:76-148 | an upsert: the defaulted record is stored (a taken key falls back to an update) and the graph holds the decorated node; a failing store fails the call and touches nothing |
| Graph.GraphIndex.StoreNode | src/lib/graph.js:104-113 | the record ends up under its key whether the key was free or taken |
| Graph.GraphIndex.UpdateNodeData | src/lib/graph.js:150-167 | none and no change for an unknown id; otherwise the merged record is stored, returned and shown on the graph node; a node missing from the graph fails after the store write |
| Graph.GraphIndex.RemoveNode | src/lib/graph.js:169-172 | the store drops the node and its relationships, then the graph drops the node and its edges; a node missing from the graph fails after the store write |
| Graph.GraphIndex.AddRelationship | src/lib/graph.js:183-218 | an end missing from the graph fails first and writes nothing; an existing edge on the ordered pair takes the relationship, whose store record moves to the new id; otherwise the relationship is stored and one edge added; a taken id or a failing store fails and leaves graph and store unchanged |
| Graph.GraphIndex.UpdateRelationshipData | src/lib/graph.js:220-246 | none and no change when no edge carries the id; otherwise the patch reaches the store and that edge, and the merged record is returned |
| Graph.GraphIndex.RemoveRelationship | src/lib/graph.js:248-258 | when an edge carries the id, the record and that edge are deleted; otherwise nothing changes |
| GraphPaths.NeighborsJoin | src/lib/graph.js:280-289 | the neighbours of a node are exactly the nodes an edge joins it to, in either direction |
| GraphPaths.Walks | src/lib/graph.js:280-289 | exactly the walks of `k` hops from the source |
| GraphPaths.Search | src/lib/graph.js:280-289 | breadth by hop count: the walk found ends at the target and no shorter walk does |
| GraphPaths.ShortestPath | src/lib/graph.js:280-289 | a path found is a walk from the source to the target |
| GraphPaths.ShortestPathMinimal | src/lib/graph.js:280-289 | no walk between the two nodes is shorter than the path found |
| GraphPaths.ShortestPathComplete | src/lib/graph.js:280-289 | a path is found whenever some walk joins the two nodes |
| GraphPaths.ShortestPathSimple | src/lib/graph.js:280-289 | a shortest path repeats no node |
| GraphPaths.SimpleWalk | src/lib/graph.js:280-289 | any walk can be shortened to one that repeats no node |
| GraphPaths.FindShortestPathAsWritten | src/lib/graph.js:280-289 | the code as written: the missing method throws and the catch answers null |
| GraphPaths.AsWrittenMissesPath | src/lib/graph.js:280-289 | between connected nodes the code as written reports no path where a path exists |
| GraphPaths.FindShortestPath | src/lib/graph.js:280-289 | the node attributes along a shortest path, from the source's to the target's, or none exactly when no path exists |
| GraphPaths.IndustryTargets | src/lib/graph.js:292-295 | exactly the nodes whose lower-cased industry contains the lower-cased query, each once, in insertion order |
| GraphPaths.Reached | src/lib/graph.js:297-303 | one entry per target a path reaches, with that target and its path |
| GraphPaths.FindPathsToIndustry | src/lib/graph.js:291-306 | a permutation of the reached entries, sorted by path length |
| GraphPaths.FindPathsToIndustryMembers | src/lib/graph.js:291-306 | an entry is listed exactly when its node is in the industry and a shortest path reaches it |
| Queries.RecentCount | src/lib/queries.js:20-25 | the count of recent interactions is bounded by the node's edges |
| Queries.TopUnderutilizedConnections | src/lib/queries.js:7-39 | exactly `limit` (5 by default) nodes, or all of them when fewer qualify, each not contacted in 90 days and with positive leverage, taken from the candidates without repeats (a sub-multiset), sorted by utilisation; no node left out ranks above one kept |
| Queries.ShortestPathToIndustry | src/lib/queries.js:44-49 | the first entry of `findPathsToIndustry`: an entry of it with no longer path than any other |
| Queries.ShortestPathToIndustryNone | src/lib/queries.js:44-49 | none exactly when no node of the industry can be reached |
| Queries.ShortestPathToIndustryMinimal | src/lib/queries.js:44-49 | the path reported is no longer than any walk to any node of the industry |
| Queries.ShortestPathToIndustryFirst | src/lib/queries.js:44-49 | on ties the stable sort keeps the earliest-inserted target |
| Queries.InvestorIds | src/lib/queries.js:59-72 | exactly the nodes with capital access at least 7 or an investor keyword in the lower-cased role, industry or company |
| Queries.InvestorsAmong | src/lib/queries.js:80-83 | only investors are counted as connections |
| Queries.ToConnectors | src/lib/queries.js:77-93 | every non-investor node with an investor connection is listed with its connections, and only such nodes |
| Queries.ConnectorsToInvestors | src/lib/queries.js:54-96 | a permutation of the connectors, sorted by their number of investor connections |
| Queries.ConnectorsToInvestorsMembers | src/lib/queries.js:54-96 | a listed connector is a non-investor node whose count is its number of investor connections, which is positive |
| Queries.ConnectorsComplete | src/lib/queries.js:54-96 | every non-investor node with a relationship to an investor is listed |
| Queries.FastValidators | src/lib/queries.js:101-124 | exactly the nodes with speed and alignment at least 7 and no or a recent interaction (48 days by default), sorted by speed plus alignment |
| Queries.FastValidatorsMembers | src/lib/queries.js:101-124 | a node is listed exactly when it is such a validator |
| Queries.TieOf | src/lib/queries.js:141-149 | the potential of a tie is the other node's leverage minus ten times the strength (5 when falsy) |
| Queries.TiesOf | src/lib/queries.js:136-151 | exactly the weak ties of the node: strength at most 4 and a counterpart with leverage of at least 50 |
| Queries.AllTiesMembers | src/lib/queries.js:130-158 | the loop collects exactly the weak ties of every node |
| Queries.WeakTiesHighUpside | src/lib/queries.js:130-158 | the 20 weak ties with the highest potential, or all of them when there are fewer, taken from the ties without repeats (a sub-multiset), sorted by potential, each a tie of some node |
| Queries.WeakTiesHighUpsideMembers | src/lib/queries.js:130-158 | each entry is a weak tie with the stated potential |
| Queries.WeakTiesHighUpsideTop | src/lib/queries.js:130-158 | a weak tie left out has no more potential than any tie kept |
| Queries.PeopleToReconnectWith | src/lib/queries.js:164-177 | 10 nodes, or all of them when fewer qualify, each last contacted more than 90 days ago with leverage at least 40, taken from the candidates without repeats (a sub-multiset), sorted by leverage; none left out ranks higher |
| Queries.FindPeopleByIndustry | src/lib/queries.js:182-191 | exactly the nodes whose lower-cased industry or company contains the lower-cased query |
| Queries.FindPeopleBySkill | src/lib/queries.js:196-204 | exactly the nodes with a skill tag containing the lower-cased query |
| Root.GetRootNodeId | src/lib/root.js:47-49 | always `root` |
| Root.RootNode | src/lib/root.js:15-41 | the root contact has id `root`, `isRoot` metadata, all scores 10, leverage 100 and the current time as last interaction |
| Root.RootLeverageConsistent | src/lib/root.js:24-38 | the root's stored leverage is what its scores compute to |
| Root.EnsureRootNode | src/lib/root.js:9-45 | answers true exactly when no root was stored and creates it then; afterwards a root exists; a present root changes nothing |
| Root.EnsureRootNodeTwice | src/lib/root.js:9-45 | a second call answers false |
| Suggestions.GetReconnectSuggestions | src/lib/suggestions.js:7-9 | exactly `peopleToReconnectWith`, hence at most 10 due contacts |
| Suggestions.WholeMonths | src/lib/suggestions.js:19-21 | the floor of the elapsed time in 30-day months |
| Suggestions.Reason | src/lib/suggestions.js:26 | begins with the leverage text and ends with "no recent interaction" exactly when the month count is missing or 0; otherwise the month count can be read back from the text before " months since last interaction" |
| Suggestions.FormatSuggestion | src/lib/suggestions.js:14-28 | the person is passed through, the month count is missing exactly when the date is, and otherwise it is the floor of the elapsed 30-day months |
| ScoreEditing.Defaulted | src/components/ScoreEditor.jsx:5-12 | exactly the six dimensions, each the given value or 0 |
| ScoreEditing.DefaultedKeepsLeverage | src/components/ScoreEditor.jsx:5-12 | defaulting never changes the leverage the scores imply |
| ScoreEditing.Payload | src/components/ScoreEditor.jsx:30-33 | the emitted scores with `leverageScore` equal to the score they compute to |
| ScoreEditing.ScoreEditor.constructor | src/components/ScoreEditor.jsx:5-12 | the first state is the defaulted scores |
| ScoreEditing.ScoreEditor.Sync | src/components/ScoreEditor.jsx:14-23 | new props reset the state to the defaulted scores, and the shown leverage follows |
| ScoreEditing.ScoreEditor.HandleChange | src/components/ScoreEditor.jsx:25-34 | only the edited key changes, to its validated value in 0..10; the payload emitted, when a handler is given, carries the matching leverage |
| ScoreEditing.ScoreEditor.DisplayedLeverage | src/components/ScoreEditor.jsx:36 | the shown leverage is the score of the local state, in 0..100 |
| EdgeEditing.BlankForm | src/components/EdgeForm.jsx:4-11 | a new form has strength 5 and no tags |
| EdgeEditing.FormOf | src/components/EdgeForm.jsx:15-26 | an edited relationship fills the form, empty ends falling back to the given ones, an empty type to `business`, a zero strength to 5 and an empty direction to `bidirectional` |
| EdgeEditing.AddTag | src/components/EdgeForm.jsx:32-40 | the trimmed tag joins the end only when it is non-empty and new; the list stays duplicate-free |
| EdgeEditing.AddThenRemoveTag | src/components/EdgeForm.jsx:32-47 | removing a tag just added restores the list |
| EdgeEditing.Truncate | src/components/EdgeForm.jsx:62 | `parseInt` of the strength truncates toward zero |
| EdgeEditing.Submit | src/components/EdgeForm.jsx:49-65 | alerts exactly when an end is empty or both ends coincide; otherwise a given handler receives every field with the strength truncated |
| EdgeEditing.AvailableNodes | src/components/EdgeForm.jsx:67 | exactly the nodes other than the current source |
| EdgeEditing.EdgeForm.constructor | src/components/EdgeForm.jsx:4-13 | the form starts blank with an empty tag box |
| EdgeEditing.EdgeForm.LoadRelationship | src/components/EdgeForm.jsx:15-26 | editing a relationship fills the form from it |
| EdgeEditing.EdgeForm.HandleAddTag | src/components/EdgeForm.jsx:32-40 | an accepted tag joins the list and clears the box; otherwise nothing changes; tags stay duplicate-free |
| EdgeEditing.EdgeForm.HandleRemoveTag | src/components/EdgeForm.jsx:42-47 | every copy of the tag leaves, the rest keep their order |
| EdgeEditing.EdgeForm.HandleSubmit | src/components/EdgeForm.jsx:49-65 | submitting reads the form and changes nothing |
| NodeEditing.BlankForm | src/components/NodeForm.jsx:5-34 | a new form has exactly the twelve fields, no skills and leverage 0 |
| NodeEditing.FormOf | src/components/NodeForm.jsx:38-62 | an edited contact fills the twelve fields; an empty type becomes `person`; the last interaction is null exactly when missing, and kept otherwise |
| NodeEditing.Before | src/components/NodeForm.jsx:66 | the part of the name before the first dot |
| NodeEditing.Child | src/components/NodeForm.jsx:66 | the child name contains no dot |
| NodeEditing.SetField | src/components/NodeForm.jsx:64-77 | a plain name replaces that key only; a dotted name replaces that child of its parent and keeps the parent's other children; other keys stay |
| NodeEditing.ScoreChange | src/components/NodeForm.jsx:79-81 | sets `scores` and `leverageScore` together from the payload; other keys stay |
| NodeEditing.ScoreChangeInSync | src/components/NodeForm.jsx:79-81 | fed from the score editor, the form's leverage is the score its scores compute to |
| NodeEditing.Weight | src/components/NodeForm.jsx:87 | `parseInt(weight) \|\| 5`: the parsed number, or 5 when it is NaN or 0 |
| NodeEditing.AddSkill | src/components/NodeForm.jsx:83-91 | a blank tag adds nothing; otherwise the skill joins the end and the earlier skills stay |
| NodeEditing.AddThenRemoveSkill | src/components/NodeForm.jsx:83-98 | removing the skill just added restores the list |
| NodeEditing.RemoveSkillKeepsOthers | src/components/NodeForm.jsx:93-98 | removing one skill keeps every other in order |
| NodeEditing.NodeForm.constructor | src/components/NodeForm.jsx:5-36 | the form starts blank with the skill boxes at `''` and `5` |
| NodeEditing.NodeForm.LoadNode | src/components/NodeForm.jsx:38-62 | editing a contact fills the form from it as `FormOf` states, keeping any stored last interaction, and the skills stay a list |
| NodeEditing.NodeForm.HandleChange | src/components/NodeForm.jsx:64-77 | the form becomes the set field's result |
| NodeEditing.NodeForm.HandleScoreChange | src/components/NodeForm.jsx:79-81 | the form takes the payload's scores and leverage |
| NodeEditing.NodeForm.HandleAddSkill | src/components/NodeForm.jsx:83-91 | a non-blank tag joins the skills and resets the boxes; a blank one changes nothing |
| NodeEditing.NodeForm.HandleRemoveSkill | src/components/NodeForm.jsx:93-98 | the skill at the index leaves the list |
| NotesPanel.ScoreUpdate | src/components/NodePanel.jsx:18-23 | the update sent carries the scores and their leverage and nothing else |
| NotesPanel.ScoreUpdateInSync | src/components/NodePanel.jsx:18-23 | a contact updated from the editor's payload has a leverage that matches its scores |
| NotesPanel.AddNote | src/components/NodePanel.jsx:25-37 | a blank note sends nothing; otherwise the note joins the end and the last interaction becomes its date |
| NotesPanel.AddNoteMerged | src/components/NodePanel.jsx:25-37 | after the update, the earlier notes are kept in order and the last interaction is the new note's date |
| NotesPanel.DeleteNote | src/components/NodePanel.jsx:39-44 | removes exactly the note at the index, the rest keep their order |
| NotesPanel.SortNotes | src/components/NodePanel.jsx:280-281 | the array is sorted in place, newest first, stably |
| NotesPanel.InsertNote | src/components/NodePanel.jsx:280-281 | one insertion step moves a note into the sorted prefix and leaves the rest alone |
| NotesPanel.DeleteShownNote | src/components/NodePanel.jsx:280-289 | a delete index refers to the sorted order and removes exactly the note shown there |
| Importing.DetectIndustryFirst | src/components/ImportDialog.jsx:14-30 | the first industry, in table order, with a keyword inside the lower-cased `role company`, and `''` exactly when none has one |
| Importing.CapitalIsTech | src/components/ImportDialog.jsx:17 | the keyword `it` matches inside "Capital", so an investment analyst there is classed as tech |
| Importing.RowInput | src/components/ImportDialog.jsx:95-134 | a row yields a record exactly when its name is not blank once trimmed |
| Importing.ImportRecordNode | src/components/ImportDialog.jsx:105-134 | the stored contact has the given trimmed fields, all scores 0, leverage 0 and no last interaction |
| Importing.ImportedNodeShape | src/components/ImportDialog.jsx:95-136 | an imported contact has trimmed name, email, phone, location and LinkedIn, the detected industry, zero scores and no last interaction |
| Importing.ImportScoresZero | src/components/ImportDialog.jsx:123-131 | the six dimensions are 0, which gives leverage 0 |
| Importing.Added | src/components/ImportDialog.jsx:95-99 | a row makes one contact, or none exactly when its name is blank |
| Importing.ImportedCount | src/components/ImportDialog.jsx:93-142 | every named row, and only those, makes a contact |
| Importing.StoreAllHolds | src/components/ImportDialog.jsx:136 | every imported contact is in the table afterwards |
| Importing.BlankRowStep | src/components/ImportDialog.jsx:95-99 | a blank row changes nothing and counts one error |
| Importing.NamedRowStep | src/components/ImportDialog.jsx:136-141 | a named row is one more import when the store takes it, and one more error when `addNode` throws |
| Importing.ImportRow | src/components/ImportDialog.jsx:94-141 | one pass of the loop keeps the progress invariant and leaves relationships alone |
| Importing.ImportRows | src/components/ImportDialog.jsx:90-142 | `imported + errors` is the number of rows; imported counts the named rows, which are all stored and shown in order; a failing store imports none |
| Util.Filter | src/lib/queries.js:182-191 | `filter` keeps exactly the matching elements, in order |
| Util.RemoveAll | src/components/EdgeForm.jsx:45 | every copy of the value goes and every other element keeps its count |
| Util.RemoveAt | src/components/NodeForm.jsx:96 | `filter((_, i) => i !== index)` drops the element at the index, or nothing when the index is out of range |
| Util.RemoveAtMultiset | src/components/NodePanel.jsx:40 | dropping the element at an index removes exactly one copy of it |
| Util.FirstIndex | src/lib/root.js:10-11 | the first index whose element matches, or none exactly when none does |
| Util.SliceTo | src/lib/queries.js:36 | `slice(0, end)` is a prefix of the length JavaScript gives, negative ends counting from the back |
| Util.InsertDesc | src/components/NodePanel.jsx:281 | inserting into a sorted list keeps it sorted and adds exactly one copy |
| Util.SortDesc | src/lib/queries.js:35 | a stable descending sort: a permutation, sorted by the key, and the elements of any one key in their input order |
| Util.SortDescHead | src/lib/queries.js:44-49 | the head of the sorted list is the first element with the largest key |
| Util.TopSlice | src/lib/queries.js:35-36 | what a top slice of a sorted list leaves out ranks no higher than what it keeps |
| Util.TopBy | src/lib/queries.js:164-177 | filter, sort and slice: a sub-multiset of the matching elements, sorted, exactly `end` of them or all when fewer match, none left out ranking higher |
| Util.Lower | src/lib/queries.js:184-189 | lower-casing keeps the length and lowers each letter |
| Util.LeadingSpaceSpec | src/components/ImportDialog.jsx:96 | the white space skipped is all white space and ends at a non-space character |
| Util.Trim | src/components/ImportDialog.jsx:96 | the trimmed text is no longer and neither starts nor ends with white space |
| Util.TrimCuts | src/components/ImportDialog.jsx:96 | the trimmed text is the original with only white space cut from its two ends, so together with `Trim`'s own contract it is exactly the text between the first and last non-space characters |
| Util.BlankIffAllSpace | src/components/ImportDialog.jsx:96 | a text is blank once trimmed exactly when all of it is white space |
| Util.ParseInt | src/components/NodeForm.jsx:87 | `parseInt` is NaN exactly when no digit follows the leading white space and sign; otherwise it is the value of the leading digits, negated after a minus sign |
| Util.IntToString | src/lib/suggestions.js:26 | the decimal text of an integer, which `parseInt` reads back |
| Util.FirstMatchSpec | src/lib/graph.js:322-326 | the first matching entry of a table, or none exactly when no key matches |
| Util.Keys | src/lib/db.js:40-42 | each key of the map exactly once |

## Left out

- The single-flight `loadingPromise` guard of `loadGraph` and all async interleaving: every operation is a sequential call.
- Generated ids (`Date.now()` and `Math.random()`), node coordinates `x`/`y` and the clock: ids come in as `freshId`, coordinates are not modelled, and the current time comes in as `now`.
- Dexie's schema versions, graphology's internals and Papa's CSV parsing: the store is two maps, the graph is a node map with an edge sequence, and the import takes already parsed rows.
- The column auto-mapping of the import dialog (header regexes): the mapping comes in as a parameter.
- `Math.pow(0.95, x)`: a parameter `pow` with the properties `IsDecayCurve` states; no concrete decayed value is computed.
- Floating point: strengths and months are exact reals and scores are integers. Rounding is modelled as `Math.round` on exact values.
- Dates: timestamps are UTC milliseconds. ISO date strings, their parsing and the local time zone of `new Date()` are not modelled.
- `toLowerCase` and `trim` cover ASCII letters and ASCII white space only.
- Console logging. The swallowing of "already exist" errors is modelled: the call does not fail.
- Presentation: `GraphView`, `RadarChart`, `PRIGNode`, `DirectionalButtons`, `SimpleNodeForm`, `SuggestionsPanel`, `App` and `useGraph`. Rendering and alerts are outcomes of the handlers, not markup.
- `getGraph`, `getNeighbors`, `bulkCreateNodes` and `bulkCreateRelationships`: thin pass-throughs to the library, which the modelled core never calls.
- Store.Database.GetRelationshipBetween: the source queries a compound index `[source+target]` that the schema does not declare. The model gives the evidently intended lookup (the forward pair, else the reverse) and not the schema error Dexie would raise.
- Store.Database.GetAllNodes: IndexedDB returns records in key order. The model promises each record exactly once and leaves the order open.
- Store.Database.GetNodesByType: Dexie answers in `type` index order, then key order. The model promises each matching record exactly once and leaves the order open.
- Store.Database.GetAllRelationships: Dexie answers in key order. The model promises each record exactly once and leaves the order open.
- Store.Database.GetRelationshipsByNode: each of the two parts comes in index order, then key order, in Dexie. The model keeps the outgoing-then-incoming split and leaves the order within each part open.
- Store.Database.SearchNodes: the filter runs over the table in key order. The model promises each matching record exactly once and leaves the order open.
- Graph.GraphIndex.LoadGraph: the relationships are loaded in some listing of the table, not necessarily key order. So the edge order after a load is left open, and so is which stored relationship gets the edge when two share an ordered pair (the first one listed wins).
- Decay.DecayNeverStrengthens: proved for strengths of at least 1 that are multiples of 0.1 (what the form's slider and the decay itself produce). Other strengths can round upward.
- Decay.MonthsBetween carries no contract of its own: it is the calendar formula itself, and its properties are the `MonthsBetween*` lemmas.
- NodeEditing.FormOf: the contract names the type, the skills and the last interaction. The other nine fields are fixed by `FieldOf`, one field at a time.
- `findShortestPath` as written never finds a path (see Findings). `shortestPathToIndustry` and `findPathsToIndustry` are modelled over the intended path search. The intended path search treats every relationship as usable in both directions, as most relationships are `bidirectional`.
- The notes sort keys on the note date as a number. `new Date(b.date) - new Date(a.date)` on an unparsable date is NaN, which is not modelled.

## Findings

| source | as written | input that shows it | evidently intended | confidence | as-written member | corrected member |
|---|---|---|---|---|---|---|
| src/lib/graph.js:280-289 | `graph.shortestPath(sourceId, targetId)` is not a method of graphology's `Graph`, and nothing imports a shortest-path library. The call throws, the catch answers `null`, so `findShortestPath` is always `null`, `findPathsToIndustry` always `[]` and `shortestPathToIndustry` always `null` | any two connected nodes, such as `a` and `b` joined by one relationship | the node attributes along a shortest path between the two nodes, `null` only when none exists | not executed | GraphPaths.AsWrittenMissesPath | GraphPaths.FindShortestPath |
