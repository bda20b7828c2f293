/** The contact panel: the updates it sends for scores and notes, and the
    newest-first ordering it imposes on a contact's notes when it shows them
    (src/components/NodePanel.jsx). */
module NotesPanel {
  import opened Util
  import opened Records
  import opened Scoring
  import opened ScoreEditing

  /** What `onUpdate` receives: the contact's id and the patch. */
  datatype Update = Update(id: string, patch: NodePatch)

  /** The sort key of the notes list: the note's date. */
  function NoteDate(n: Note): real {
    n.date as real
  }

  /** `handleScoreUpdate(scores)`: the editor's payload as `scores`, with its
      `leverageScore` beside it. */
  function ScoreUpdate(node: Node, scores: map<string, int>, hasOnUpdate: bool): (r: Option<Update>)
    ensures r.Some? <==> hasOnUpdate
    ensures r.Some? ==> r.value.id == node.id && r.value.patch.scores == Some(scores)
    ensures r.Some? && "leverageScore" in scores ==> r.value.patch.leverageScore == Some(scores["leverageScore"])
    ensures r.Some? ==> r.value.patch.(scores := None, leverageScore := None) == EmptyNodePatch
  {
    if !hasOnUpdate then None
    else
      var lev := if "leverageScore" in scores then Some(scores["leverageScore"]) else None;
      Some(Update(node.id, EmptyNodePatch.(scores := Some(scores), leverageScore := lev)))
  }

  /** A contact updated from the score editor's payload has a leverage that
      agrees with its scores. */
  lemma ScoreUpdateInSync(node: Node, local: map<string, int>)
    ensures var u := ScoreUpdate(node, Payload(local), true).value;
      var m := MergeNode(node, u.patch);
      m.scores == Payload(local) && m.leverageScore == CalculateLeverageScore(m.scores)
  {
    var p := Payload(local);
    assert "leverageScore" in p;
  }

  /** `handleAddNote`: a note whose text is blank once trimmed is dropped and
      nothing is sent. Otherwise the note, dated with the chosen day or `now`
      when none was chosen, joins the end of the list, and the contact's last
      interaction becomes that date. */
  function AddNote(node: Node, text: string, date: Option<int>, now: int, hasOnUpdate: bool): (r: Option<Update>)
    ensures r.None? <==> !hasOnUpdate || Trim(text) == ""
    ensures r.Some? ==>
      var d := if date.Some? then date.value else now;
      && r.value.id == node.id
      && r.value.patch.notes == Some(node.notes + [Note(text, d)])
      && r.value.patch.lastInteraction == Some(Some(d))
      && r.value.patch.(notes := None, lastInteraction := None) == EmptyNodePatch
  {
    if Trim(text) == "" || !hasOnUpdate then None
    else
      var d := OrElse(date, now);
      Some(Update(node.id, EmptyNodePatch.(notes := Some(node.notes + [Note(text, d)]),
                                           lastInteraction := Some(Some(d)))))
  }

  /** After a note is added, the contact's last interaction is the date of its
      newest-added note and the earlier notes are kept in order. */
  lemma AddNoteMerged(node: Node, text: string, date: Option<int>, now: int)
    requires Trim(text) != ""
    ensures var m := MergeNode(node, AddNote(node, text, date, now, true).value.patch);
      && |m.notes| == |node.notes| + 1 && m.notes[..|node.notes|] == node.notes
      && m.notes[|node.notes|].text == text
      && m.lastInteraction == Some(m.notes[|node.notes|].date)
  {
    var m := MergeNode(node, AddNote(node, text, date, now, true).value.patch);
    assert m.notes == node.notes + [m.notes[|node.notes|]];
  }

  /** `handleDeleteNote(index)`: the note at `index` of the list as shown
      leaves it; the others keep their order. */
  function DeleteNote(node: Node, index: int, hasOnUpdate: bool): (r: Option<Update>)
    ensures r.Some? <==> hasOnUpdate
    ensures r.Some? ==> r.value.id == node.id && r.value.patch == EmptyNodePatch.(notes := Some(RemoveAt(node.notes, index)))
    ensures r.Some? && 0 <= index < |node.notes| ==>
      multiset(r.value.patch.notes.value) == multiset(node.notes) - multiset{node.notes[index]}
  {
    if !hasOnUpdate then None
    else
      var rest := RemoveAt(node.notes, index);
      if 0 <= index < |node.notes| then
        RemoveAtMultiset(node.notes, index);
        Some(Update(node.id, EmptyNodePatch.(notes := Some(rest))))
      else
      Some(Update(node.id, EmptyNodePatch.(notes := Some(rest))))
  }

  /** The render-time `notes.sort(...)`: newest date first, notes with the same
      date kept in their order, done in place by insertion. */
  method SortNotes(a: array<Note>)
    modifies a
    ensures a[..] == SortDesc(old(a[..]), NoteDate)
  {
    ghost var orig := a[..];
    var i := 0;
    while i < a.Length
      invariant 0 <= i <= a.Length
      invariant a[..i] == SortDesc(orig[..i], NoteDate)
      invariant a[i..] == orig[i..]
    {
      ghost var before := a[..];
      InsertNote(a, i);
      SortDescSnoc(orig, i, NoteDate);
      assert before[i] == orig[i] && before[..i] == SortDesc(orig[..i], NoteDate);
      assert before[i..][1..] == before[i + 1..] && orig[i..][1..] == orig[i + 1..];
      i := i + 1;
    }
    assert orig[..a.Length] == orig;
  }

  /** One pass of the insertion sort: the note at `i` moves left past every
      older note of the sorted prefix. */
  method InsertNote(a: array<Note>, i: int)
    requires 0 <= i < a.Length && SortedDesc(a[..i], NoteDate)
    modifies a
    ensures a[..i + 1] == InsertDesc(old(a[i]), old(a[..i]), NoteDate)
    ensures a[i + 1..] == old(a[i + 1..])
  {
    var x := a[i];
    ghost var s, tail := a[..i], a[i + 1..];
    assert a[..] == s[..i] + [a[i]] + s[i..] + tail;
    var j := i;
    // a[j] is a hole: the notes of `s` from j on have moved one place right.
    while j > 0 && a[j - 1].date < x.date
      invariant 0 <= j <= i
      invariant a[..] == s[..j] + [a[j]] + s[j..] + tail
      invariant forall k :: j <= k < i ==> NoteDate(s[k]) < NoteDate(x)
    {
      ShiftHole(s, j, a[j], tail);
      a[j] := a[j - 1];
      j := j - 1;
    }
    FillHole(s, j, a[j], x, tail);
    a[j] := x;
    InsertDescAt(x, s, NoteDate, j);
  }

  /** Moving the hole one place left: the note before it is copied into it. */
  lemma ShiftHole(s: seq<Note>, j: int, h: Note, tail: seq<Note>)
    requires 0 < j <= |s|
    ensures (s[..j] + [h] + s[j..] + tail)[j - 1] == s[j - 1]
    ensures (s[..j] + [h] + s[j..] + tail)[j := s[j - 1]] == s[..j - 1] + [s[j - 1]] + s[j - 1..] + tail
  {
    var t := s[..j] + [h] + s[j..] + tail;
    var u := s[..j - 1] + [s[j - 1]] + s[j - 1..] + tail;
    assert |t| == |u|;
    forall k | 0 <= k < |t| ensures t[j := s[j - 1]][k] == u[k] {
      if k < j - 1 {
      } else if k <= j {
      } else if k <= |s| {
        assert t[k] == s[k - 1];
      } else {
      }
    }
  }

  /** Putting `x` into the hole splices it into `s`. */
  lemma FillHole(s: seq<Note>, j: int, h: Note, x: Note, tail: seq<Note>)
    requires 0 <= j <= |s|
    ensures var t := (s[..j] + [h] + s[j..] + tail)[j := x];
      t[..|s| + 1] == s[..j] + [x] + s[j..] && t[|s| + 1..] == tail
  {
    var t := (s[..j] + [h] + s[j..] + tail)[j := x];
    assert t == s[..j] + [x] + s[j..] + tail;
  }

  /** Deleting the note shown at position `index` after the sort removes that
      note, and only it, from the contact's notes. */
  lemma DeleteShownNote(notes: seq<Note>, index: int)
    requires 0 <= index < |notes|
    ensures var shown := SortDesc(notes, NoteDate);
      multiset(RemoveAt(shown, index)) == multiset(notes) - multiset{shown[index]}
  {
    RemoveAtMultiset(SortDesc(notes, NoteDate), index);
  }
}
