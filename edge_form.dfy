/** The relationship form: its field values, the context-tag list it edits and
    the checks it makes before handing a relationship on
    (src/components/EdgeForm.jsx). */
module EdgeEditing {
  import opened Util
  import opened Records

  /** The `formData` state. `strength` is the number the slider last produced. */
  datatype EdgeFormData = EdgeFormData(
    source: string,
    target: string,
    kind: string,
    strength: real,
    direction: string,
    contextTags: seq<string>)

  /** What `onSave` receives: the form with `strength` passed through `parseInt`. */
  datatype EdgeSubmission = EdgeSubmission(
    source: string,
    target: string,
    kind: string,
    strength: int,
    direction: string,
    contextTags: seq<string>)

  /** The outcome of submitting: an alert with its message, the relationship
      handed to `onSave`, or nothing when there is no `onSave`. */
  datatype SubmitOutcome = Alert(message: string) | Saved(edge: EdgeSubmission) | Ignored

  const SelectBoth := "Please select both source and target nodes"
  const NotSame := "Source and target cannot be the same"

  /** The form of a new relationship from the given ends. */
  function BlankForm(sourceNodeId: Option<string>, targetNodeId: Option<string>): (f: EdgeFormData)
    ensures f.strength == 5.0 && f.contextTags == []
  {
    EdgeFormData(OrText(sourceNodeId, ""), OrText(targetNodeId, ""), "business", 5.0, "bidirectional", [])
  }

  /** The form filled from a stored relationship: each empty (or zero) field
      falls back to the given end, then to the blank form's value. */
  function FormOf(rel: Relationship, sourceNodeId: Option<string>, targetNodeId: Option<string>): (f: EdgeFormData)
    ensures rel.source != "" ==> f.source == rel.source
    ensures rel.source == "" ==> f.source == BlankForm(sourceNodeId, targetNodeId).source
    ensures rel.target != "" ==> f.target == rel.target
    ensures rel.target == "" ==> f.target == BlankForm(sourceNodeId, targetNodeId).target
    ensures f.kind == (if rel.kind == "" then "business" else rel.kind)
    ensures f.strength != 0.0 && (rel.strength != 0.0 ==> f.strength == rel.strength)
    ensures f.direction == (if rel.direction == "" then "bidirectional" else rel.direction)
    ensures f.contextTags == rel.contextTags
  {
    EdgeFormData(OrText(Some(rel.source), OrText(sourceNodeId, "")),
                 OrText(Some(rel.target), OrText(targetNodeId, "")),
                 OrText(Some(rel.kind), "business"),
                 if rel.strength != 0.0 then rel.strength else 5.0,
                 OrText(Some(rel.direction), "bidirectional"),
                 rel.contextTags)
  }

  /** Whether `handleAddTag` accepts the typed tag. */
  predicate TagAccepted(tags: seq<string>, newTag: string) {
    Trim(newTag) != "" && Trim(newTag) !in tags
  }

  /** The tag list after `handleAddTag`: the trimmed tag joins at the end
      unless it is blank or already listed, so a list without repeats keeps
      none. */
  function AddTag(tags: seq<string>, newTag: string): (r: seq<string>)
    ensures |tags| <= |r| <= |tags| + 1 && r[..|tags|] == tags
    ensures forall t :: t in r <==> t in tags || (t == Trim(newTag) && t != "")
    ensures NoDuplicates(tags) ==> NoDuplicates(r)
  {
    if TagAccepted(tags, newTag) then
      var r := tags + [Trim(newTag)];
      assert r[..|tags|] == tags;
      r
    else
      assert tags[..|tags|] == tags;
      tags
  }

  /** Removing a tag just added gives back the list from before. */
  lemma AddThenRemoveTag(tags: seq<string>, newTag: string)
    requires TagAccepted(tags, newTag)
    ensures RemoveAll(AddTag(tags, newTag), Trim(newTag)) == tags
  {
    RemoveAllAppended(tags, Trim(newTag));
  }

  /** A truncation toward zero: what `parseInt` makes of the decimal text of a
      number. */
  function Truncate(x: real): (n: int)
    ensures 0.0 <= x ==> n as real <= x < n as real + 1.0
    ensures x < 0.0 ==> n as real - 1.0 < x <= n as real
  {
    if x >= 0.0 then x.Floor else -((-x).Floor)
  }

  /** `handleSubmit`: rejects a form without both ends, then one whose ends
      coincide; otherwise every field goes to `onSave`, `strength` as an
      integer. */
  function Submit(f: EdgeFormData, hasOnSave: bool): (r: SubmitOutcome)
    ensures r.Alert? <==> f.source == "" || f.target == "" || f.source == f.target
    ensures r.Alert? ==> r.message == if f.source == "" || f.target == "" then SelectBoth else NotSame
    ensures r.Saved? <==> hasOnSave && f.source != "" && f.target != "" && f.source != f.target
    ensures r.Saved? ==>
      && r.edge.source == f.source && r.edge.target == f.target && r.edge.kind == f.kind
      && r.edge.direction == f.direction && r.edge.contextTags == f.contextTags
      && r.edge.strength == Truncate(f.strength)
  {
    if f.source == "" || f.target == "" then Alert(SelectBoth)
    else if f.source == f.target then Alert(NotSame)
    else if hasOnSave then
      Saved(EdgeSubmission(f.source, f.target, f.kind, Truncate(f.strength), f.direction, f.contextTags))
    else Ignored
  }

  /** `availableNodes`: the candidate targets, every node but the source. */
  function AvailableNodes(allNodes: seq<Node>, source: string): (r: seq<Node>)
    ensures forall n :: n in r <==> n in allNodes && n.id != source
    ensures |r| <= |allNodes|
  {
    Filter(allNodes, (n: Node) => n.id != source)
  }

  class EdgeForm {
    var formData: EdgeFormData
    /** The tag being typed. */
    var newTag: string

    constructor (sourceNodeId: Option<string>, targetNodeId: Option<string>)
      ensures formData == BlankForm(sourceNodeId, targetNodeId) && newTag == ""
    {
      formData := BlankForm(sourceNodeId, targetNodeId);
      newTag := "";
    }

    /** The effect that fills the form when a relationship is being edited. */
    method LoadRelationship(rel: Relationship, sourceNodeId: Option<string>, targetNodeId: Option<string>)
      modifies this
      ensures formData == FormOf(rel, sourceNodeId, targetNodeId) && newTag == old(newTag)
    {
      formData := FormOf(rel, sourceNodeId, targetNodeId);
    }

    /** Typing in the tag box. */
    method TypeTag(text: string)
      modifies this
      ensures newTag == text && formData == old(formData)
    {
      newTag := text;
    }

    /** `handleAddTag`: an accepted tag joins the list and clears the box; a
        blank or repeated one changes nothing. The list keeps having no
        repeats. */
    method HandleAddTag()
      modifies this
      ensures formData == old(formData).(contextTags := AddTag(old(formData.contextTags), old(newTag)))
      ensures newTag == if TagAccepted(old(formData.contextTags), old(newTag)) then "" else old(newTag)
      ensures NoDuplicates(old(formData.contextTags)) ==> NoDuplicates(formData.contextTags)
    {
      if TagAccepted(formData.contextTags, newTag) {
        formData := formData.(contextTags := AddTag(formData.contextTags, newTag));
        newTag := "";
      } else {
        assert AddTag(formData.contextTags, newTag) == formData.contextTags;
      }
    }

    /** `handleRemoveTag(tag)`: every copy of `tag` leaves the list, the other
        tags stay (RemoveAll). */
    method HandleRemoveTag(tag: string)
      modifies this
      ensures formData == old(formData).(contextTags := RemoveAll(old(formData.contextTags), tag))
      ensures tag !in formData.contextTags && newTag == old(newTag)
    {
      formData := formData.(contextTags := RemoveAll(formData.contextTags, tag));
    }

    /** `handleSubmit`: reads the form and changes nothing. */
    method HandleSubmit(hasOnSave: bool) returns (r: SubmitOutcome)
      ensures r == Submit(formData, hasOnSave)
    {
      if formData.source == "" || formData.target == "" {
        r := Alert(SelectBoth);
      } else if formData.source == formData.target {
        r := Alert(NotSame);
      } else if hasOnSave {
        var f := formData;
        r := Saved(EdgeSubmission(f.source, f.target, f.kind, Truncate(f.strength), f.direction, f.contextTags));
      } else {
        r := Ignored;
      }
    }
  }
}
