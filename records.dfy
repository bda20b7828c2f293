/** The records the application stores: contacts ("nodes") and the relationships
    between them, together with the partial objects callers pass in to create or
    patch them. Timestamps are milliseconds since the epoch (UTC). */
module Records {
  import opened Util

  datatype Occupation = Occupation(role: string, company: string, industry: string)

  datatype Skill = Skill(tag: string, weight: int)

  datatype Note = Note(text: string, date: int)

  /** A contact as the store keeps it. `kind` is the `type` field ('person' or
      'company'); `scores` holds the six leverage dimensions and possibly others
      (`trust`, `influence`). */
  datatype Node = Node(
    id: string,
    kind: string,
    name: string,
    email: string,
    phone: string,
    location: string,
    social: map<string, string>,
    occupation: Occupation,
    skills: seq<Skill>,
    scores: map<string, int>,
    leverageScore: int,
    notes: seq<Note>,
    lastInteraction: Option<int>,
    metadata: map<string, bool>)

  datatype Relationship = Relationship(
    id: string,
    source: string,
    target: string,
    kind: string,
    strength: real,
    direction: string,
    contextTags: seq<string>,
    createdAt: int,
    lastInteraction: Option<int>)

  /** The score map every new contact gets when none is given: all eight keys 0. */
  const ZeroScores: map<string, int> := map[
    "trust" := 0, "influence" := 0, "capitalAccess" := 0, "skillValue" := 0,
    "networkReach" := 0, "reliability" := 0, "speed" := 0, "alignment" := 0]

  const NoOccupation := Occupation("", "", "")

  /** `s || d` for a string: the empty string is falsy. */
  function OrText(s: Option<string>, d: string): (r: string)
    ensures s.Some? && s.value != "" ==> r == s.value
    ensures s.None? || s.value == "" ==> r == d
  {
    if s.Some? && s.value != "" then s.value else d
  }

  /** `x || d` for an object or an array: present values are always truthy. */
  function OrElse<T>(x: Option<T>, d: T): (r: T)
    ensures x.Some? ==> r == x.value
    ensures x.None? ==> r == d
  {
    if x.Some? then x.value else d
  }

  /** What a caller hands to `addNode`: every field may be missing. */
  datatype NodeInput = NodeInput(
    id: Option<string>,
    kind: Option<string>,
    name: Option<string>,
    email: Option<string>,
    phone: Option<string>,
    location: Option<string>,
    social: Option<map<string, string>>,
    occupation: Option<Occupation>,
    skills: Option<seq<Skill>>,
    scores: Option<map<string, int>>,
    leverageScore: Option<int>,
    notes: Option<seq<Note>>,
    lastInteraction: Option<int>,
    metadata: Option<map<string, bool>>)

  /** A partial update (`{ ...node, ...updates }`): a present field replaces the
      stored one. `lastInteraction` may be set to a date or cleared. */
  datatype NodePatch = NodePatch(
    kind: Option<string>,
    name: Option<string>,
    email: Option<string>,
    phone: Option<string>,
    location: Option<string>,
    social: Option<map<string, string>>,
    occupation: Option<Occupation>,
    skills: Option<seq<Skill>>,
    scores: Option<map<string, int>>,
    leverageScore: Option<int>,
    notes: Option<seq<Note>>,
    lastInteraction: Option<Option<int>>,
    metadata: Option<map<string, bool>>)

  const EmptyNodePatch := NodePatch(None, None, None, None, None, None, None, None, None, None, None, None, None)

  function MergeNode(n: Node, p: NodePatch): (r: Node)
    ensures r.id == n.id
    ensures p == EmptyNodePatch ==> r == n
  {
    Node(n.id, OrElse(p.kind, n.kind), OrElse(p.name, n.name), OrElse(p.email, n.email),
         OrElse(p.phone, n.phone), OrElse(p.location, n.location), OrElse(p.social, n.social),
         OrElse(p.occupation, n.occupation), OrElse(p.skills, n.skills), OrElse(p.scores, n.scores),
         OrElse(p.leverageScore, n.leverageScore), OrElse(p.notes, n.notes),
         OrElse(p.lastInteraction, n.lastInteraction), OrElse(p.metadata, n.metadata))
  }

  /** The patch that writes every field of `n` (the key stays the stored one,
      FullNodePatchWrites). */
  function FullNodePatch(n: Node): NodePatch {
    NodePatch(Some(n.kind), Some(n.name), Some(n.email), Some(n.phone), Some(n.location),
              Some(n.social), Some(n.occupation), Some(n.skills), Some(n.scores),
              Some(n.leverageScore), Some(n.notes), Some(n.lastInteraction), Some(n.metadata))
  }

  lemma FullNodePatchWrites(m: Node, n: Node)
    ensures MergeNode(m, FullNodePatch(n)) == n.(id := m.id)
  {
  }

  /** What a caller hands to `addRelationship`. `strength` is `None` when it is
      missing or not a number. */
  datatype RelInput = RelInput(
    id: Option<string>,
    source: string,
    target: string,
    kind: Option<string>,
    strength: Option<real>,
    direction: Option<string>,
    contextTags: Option<seq<string>>,
    createdAt: Option<int>,
    lastInteraction: Option<int>)

  datatype RelPatch = RelPatch(
    source: Option<string>,
    target: Option<string>,
    kind: Option<string>,
    strength: Option<real>,
    direction: Option<string>,
    contextTags: Option<seq<string>>,
    createdAt: Option<int>,
    lastInteraction: Option<Option<int>>)

  const EmptyRelPatch := RelPatch(None, None, None, None, None, None, None, None)

  function MergeRel(r: Relationship, p: RelPatch): (m: Relationship)
    ensures m.id == r.id
    ensures p == EmptyRelPatch ==> m == r
  {
    Relationship(r.id, OrElse(p.source, r.source), OrElse(p.target, r.target), OrElse(p.kind, r.kind),
                 OrElse(p.strength, r.strength), OrElse(p.direction, r.direction),
                 OrElse(p.contextTags, r.contextTags), OrElse(p.createdAt, r.createdAt),
                 OrElse(p.lastInteraction, r.lastInteraction))
  }

  /** The patch that writes every field of `r` (the key stays the stored one,
      FullRelPatchWrites). */
  function FullRelPatch(r: Relationship): RelPatch {
    RelPatch(Some(r.source), Some(r.target), Some(r.kind), Some(r.strength), Some(r.direction),
             Some(r.contextTags), Some(r.createdAt), Some(r.lastInteraction))
  }

  lemma FullRelPatchWrites(m: Relationship, r: Relationship)
    ensures MergeRel(m, FullRelPatch(r)) == r.(id := m.id)
  {
  }

  /** A patch that only sets `strength`. */
  function StrengthPatch(s: real): (p: RelPatch)
    ensures forall r: Relationship :: MergeRel(r, p) == r.(strength := s)
  {
    EmptyRelPatch.(strength := Some(s))
  }
}
