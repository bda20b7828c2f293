/** The contact form: a loosely typed record of field values edited one input
    at a time, a score editor, and a skill list
    (src/components/NodeForm.jsx). */
module NodeEditing {
  import opened Util
  import opened Records
  import opened Scoring
  import opened ScoreEditing

  /** A JavaScript value as the form holds it; `JNull` also stands for
      `undefined`. */
  datatype Json = JStr(s: string) | JNum(n: int) | JObj(fields: map<string, Json>) | JList(items: seq<Json>) | JNull

  /** The `formData` state: a field name to its value. */
  type Form = map<string, Json>

  /** The twelve fields of the form. */
  const FormKeys: set<string> := {"type", "name", "email", "phone", "location", "social", "occupation",
                                  "skills", "scores", "leverageScore", "notes", "lastInteraction"}

  function Get(form: Form, k: string): Json {
    if k in form then form[k] else JNull
  }

  function Nums(m: map<string, int>): (r: map<string, Json>)
    ensures forall k :: k in r <==> k in m
    ensures forall k :: k in m ==> r[k] == JNum(m[k])
  {
    map k | k in m :: JNum(m[k])
  }

  function Strs(m: map<string, string>): (r: map<string, Json>)
    ensures forall k :: k in r <==> k in m
  {
    map k | k in m :: JStr(m[k])
  }

  function SkillJson(tag: string, weight: int): Json {
    JObj(map["tag" := JStr(tag), "weight" := JNum(weight)])
  }

  function NoteJson(n: Note): Json {
    JObj(map["text" := JStr(n.text), "date" := JNum(n.date)])
  }

  /** The skill list as the form holds it, one object per skill. */
  function SkillsJson(skills: seq<Skill>): (r: Json)
    ensures r.JList? && |r.items| == |skills|
  {
    JList(seq(|skills|, i requires 0 <= i < |skills| => SkillJson(skills[i].tag, skills[i].weight)))
  }

  /** The notes as the form holds them, one object per note. */
  function NotesJson(notes: seq<Note>): (r: Json)
    ensures r.JList? && |r.items| == |notes|
  {
    JList(seq(|notes|, i requires 0 <= i < |notes| => NoteJson(notes[i])))
  }

  /** The form of a new contact. */
  function BlankForm(): (f: Form)
    ensures forall k :: k in f <==> k in FormKeys
    ensures f["skills"] == JList([]) && f["leverageScore"] == JNum(0)
  {
    map["type" := JStr("person"), "name" := JStr(""), "email" := JStr(""), "phone" := JStr(""),
        "location" := JStr(""),
        "social" := JObj(map["linkedin" := JStr(""), "x" := JStr(""), "instagram" := JStr(""), "whatsapp" := JStr("")]),
        "occupation" := JObj(map["role" := JStr(""), "company" := JStr(""), "industry" := JStr("")]),
        "skills" := JList([]),
        "scores" := JObj(Nums(map k | k in Dimensions :: 0)),
        "leverageScore" := JNum(0), "notes" := JList([]), "lastInteraction" := JNull]
  }

  /** The value the form filled from `node` holds under the field `k`. */
  function FieldOf(node: Node, k: string): Json {
    var o := node.occupation;
    if k == "type" then JStr(OrText(Some(node.kind), "person"))
    else if k == "skills" then SkillsJson(node.skills)
    else if k == "lastInteraction" then
      if node.lastInteraction.Some? then JNum(node.lastInteraction.value) else JNull
    else if k == "name" then JStr(OrText(Some(node.name), ""))
    else if k == "email" then JStr(OrText(Some(node.email), ""))
    else if k == "phone" then JStr(OrText(Some(node.phone), ""))
    else if k == "location" then JStr(OrText(Some(node.location), ""))
    else if k == "social" then JObj(Strs(node.social))
    else if k == "occupation" then
      JObj(map["role" := JStr(o.role), "company" := JStr(o.company), "industry" := JStr(o.industry)])
    else if k == "scores" then JObj(Nums(node.scores))
    else if k == "leverageScore" then JNum(node.leverageScore)
    else NotesJson(node.notes)
  }

  /** The form filled from a stored contact when it is being edited: an empty
      type becomes `person`, a missing `lastInteraction` becomes null (a stored
      date, even the epoch, is a non-empty string and is kept), every other
      field is copied. */
  function FormOf(node: Node): (f: Form)
    ensures forall k :: k in f <==> k in FormKeys
    ensures Get(f, "type") == JStr(if node.kind == "" then "person" else node.kind)
    ensures Get(f, "skills") == SkillsJson(node.skills)
    ensures Get(f, "lastInteraction") == JNull <==> node.lastInteraction.None?
    ensures node.lastInteraction.Some? ==> Get(f, "lastInteraction") == JNum(node.lastInteraction.value)
  {
    map k | k in FormKeys :: FieldOf(node, k)
  }

  /** The part of `s` before its first `c` (all of `s` when there is none). */
  function Before(s: string, c: char): (r: string)
    ensures |r| <= |s| && r == s[..|r|] && c !in r
    ensures |r| < |s| ==> s[|r|] == c
    ensures c !in s ==> r == s
  {
    if s == [] || s[0] == c then ""
    else
      var rest := Before(s[1..], c);
      assert s == [s[0]] + s[1..];
      [s[0]] + rest
  }

  /** The top-level field a `handleChange` name writes: `parent` of
      `"parent.child"`, the whole name when it has no dot. */
  function TopKey(field: string): string {
    Before(field, '.')
  }

  /** `child` of `"parent.child"`: what follows the first dot, up to the next
      one (`field.split('.')` keeps only the first two parts). */
  function Child(field: string): (c: string)
    requires '.' in field
    ensures '.' !in c
  {
    var p := Before(field, '.');
    Before(field[|p| + 1..], '.')
  }

  /** `{ ...v }` for the value under the parent key: its fields when it is an
      object, nothing otherwise. */
  function Spread(v: Json): map<string, Json> {
    if v.JObj? then v.fields else map[]
  }

  /** `handleChange(field, value)`: a dotted name sets one child of its parent
      object and keeps the parent's other children; a plain name sets that
      field. No other field changes. */
  function SetField(form: Form, field: string, value: string): (r: Form)
    ensures TopKey(field) in r
    ensures forall k :: k != TopKey(field) ==> (k in r <==> k in form)
    ensures forall k :: k != TopKey(field) && k in form ==> r[k] == form[k]
    ensures '.' !in field ==> TopKey(field) == field && r[field] == JStr(value)
    ensures '.' in field ==>
      var p := r[TopKey(field)];
      var before := Spread(Get(form, TopKey(field)));
      && p.JObj? && Child(field) in p.fields && p.fields[Child(field)] == JStr(value)
      && (forall c :: c != Child(field) ==> (c in p.fields <==> c in before))
      && (forall c :: c != Child(field) && c in before ==> p.fields[c] == before[c])
  {
    if '.' in field then
      var parent := TopKey(field);
      form[parent := JObj(Spread(Get(form, parent))[Child(field) := JStr(value)])]
    else
      form[field := JStr(value)]
  }

  /** `handleScoreChange(scores)`: the editor's payload becomes `scores`, and its
      `leverageScore` (null when it has none) becomes the form's. */
  function ScoreChange(form: Form, scores: map<string, int>): (r: Form)
    ensures "scores" in r && "leverageScore" in r
    ensures r["scores"] == JObj(Nums(scores))
    ensures r["leverageScore"] == if "leverageScore" in scores then JNum(scores["leverageScore"]) else JNull
    ensures forall k :: k != "scores" && k != "leverageScore" ==> (k in r <==> k in form)
    ensures forall k :: k != "scores" && k != "leverageScore" && k in form ==> r[k] == form[k]
  {
    form["scores" := JObj(Nums(scores))]
        ["leverageScore" := if "leverageScore" in scores then JNum(scores["leverageScore"]) else JNull]
  }

  /** Fed from the score editor, the form's leverage is the leverage of the
      scores it now holds. */
  lemma ScoreChangeInSync(form: Form, local: map<string, int>)
    ensures var r := ScoreChange(form, Payload(local));
      r["scores"] == JObj(Nums(Payload(local)))
      && r["leverageScore"] == JNum(CalculateLeverageScore(Payload(local)))
      && r["leverageScore"] == JNum(CalculateLeverageScore(local))
  {
    var p := Payload(local);
    assert "leverageScore" in p;
  }

  /** `parseInt(weight) || 5`: the number the text starts with, 5 when there is
      none or it is 0. */
  function Weight(weight: string): (w: int)
    ensures w != 0
    ensures ParseInt(weight).Some? && ParseInt(weight).value != 0 ==> w == ParseInt(weight).value
    ensures ParseInt(weight).None? || ParseInt(weight).value == 0 ==> w == 5
  {
    var p := ParseInt(weight);
    if p.Some? && p.value != 0 then p.value else 5
  }

  /** The skill list after `handleAddSkill`: a tag that is blank once trimmed
      adds nothing; otherwise the skill, tag as typed, joins at the end. */
  function AddSkill(skills: seq<Json>, tag: string, weight: string): (r: seq<Json>)
    ensures Trim(tag) == "" ==> r == skills
    ensures Trim(tag) != "" ==>
      (|r| == |skills| + 1 && r[..|skills|] == skills && r[|skills|] == SkillJson(tag, Weight(weight)))
  {
    if Trim(tag) != "" then
      var r := skills + [SkillJson(tag, Weight(weight))];
      assert r[..|skills|] == skills;
      r
    else skills
  }

  /** Removing the skill just added gives back the list from before. */
  lemma AddThenRemoveSkill(skills: seq<Json>, tag: string, weight: string)
    requires Trim(tag) != ""
    ensures RemoveAt(AddSkill(skills, tag, weight), |skills|) == skills
  {
    var r := AddSkill(skills, tag, weight);
    assert r[..|skills|] == skills;
  }

  /** `handleRemoveSkill(index)` keeps every other skill, in order. */
  lemma RemoveSkillKeepsOthers(skills: seq<Json>, index: int)
    requires 0 <= index < |skills|
    ensures var r := RemoveAt(skills, index);
      |r| == |skills| - 1
      && (forall i :: 0 <= i < index ==> r[i] == skills[i])
      && (forall i :: index <= i < |r| ==> r[i] == skills[i + 1])
  {
    var r := RemoveAt(skills, index);
    var a, b := skills[..index], skills[index + 1..];
    assert r == a + b;
    forall i | index <= i < |r| ensures r[i] == skills[i + 1] {
      assert r[i] == b[i - index];
    }
  }

  /** The form holds its skills as a list, which the skill handlers need. */
  predicate SkillList(form: Form) {
    "skills" in form && form["skills"].JList?
  }

  class NodeForm {
    var formData: Form
    /** The `newSkill` state: the tag and the weight as typed. */
    var newSkillTag: string
    var newSkillWeight: string

    constructor ()
      ensures formData == BlankForm() && newSkillTag == "" && newSkillWeight == "5"
    {
      formData := BlankForm();
      newSkillTag := "";
      newSkillWeight := "5";
    }

    /** The effect that fills the form when a contact is being edited. */
    method LoadNode(node: Node)
      modifies this
      ensures formData == FormOf(node) && SkillList(formData)
      ensures newSkillTag == old(newSkillTag) && newSkillWeight == old(newSkillWeight)
    {
      formData := FormOf(node);
    }

    /** `handleChange(field, value)`. A name whose top-level key is not
        `skills` keeps the skill list a list. */
    method HandleChange(field: string, value: string)
      modifies this
      ensures formData == SetField(old(formData), field, value)
      ensures SkillList(old(formData)) && TopKey(field) != "skills" ==> SkillList(formData)
      ensures newSkillTag == old(newSkillTag) && newSkillWeight == old(newSkillWeight)
    {
      formData := SetField(formData, field, value);
    }

    /** `handleScoreChange(scores)`. */
    method HandleScoreChange(scores: map<string, int>)
      modifies this
      ensures formData == ScoreChange(old(formData), scores)
      ensures SkillList(old(formData)) ==> SkillList(formData)
      ensures newSkillTag == old(newSkillTag) && newSkillWeight == old(newSkillWeight)
    {
      formData := ScoreChange(formData, scores);
    }

    /** Typing in the skill boxes. */
    method TypeSkill(tag: string, weight: string)
      modifies this
      ensures newSkillTag == tag && newSkillWeight == weight && formData == old(formData)
    {
      newSkillTag := tag;
      newSkillWeight := weight;
    }

    /** `handleAddSkill`: a tag that is not blank joins the list with its
        weight and the skill boxes are reset; a blank one changes nothing. */
    method HandleAddSkill()
      requires SkillList(formData)
      modifies this
      ensures formData == old(formData)["skills" := JList(AddSkill(old(formData["skills"].items), old(newSkillTag), old(newSkillWeight)))]
      ensures SkillList(formData)
      ensures Trim(old(newSkillTag)) != "" ==> newSkillTag == "" && newSkillWeight == "5"
      ensures Trim(old(newSkillTag)) == "" ==> formData == old(formData) && newSkillTag == old(newSkillTag) && newSkillWeight == old(newSkillWeight)
    {
      if Trim(newSkillTag) != "" {
        formData := formData["skills" := JList(AddSkill(formData["skills"].items, newSkillTag, newSkillWeight))];
        newSkillTag := "";
        newSkillWeight := "5";
      } else {
        assert formData["skills"] == JList(formData["skills"].items);
      }
    }

    /** `handleRemoveSkill(index)`: the skill at `index` leaves the list. */
    method HandleRemoveSkill(index: int)
      requires SkillList(formData)
      modifies this
      ensures formData == old(formData)["skills" := JList(RemoveAt(old(formData["skills"].items), index))]
      ensures SkillList(formData)
      ensures newSkillTag == old(newSkillTag) && newSkillWeight == old(newSkillWeight)
    {
      formData := formData["skills" := JList(RemoveAt(formData["skills"].items, index))];
    }
  }
}
