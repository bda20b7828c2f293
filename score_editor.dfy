/** The score editor: six sliders held in local state, each change validated and
    sent on together with the leverage score it implies
    (src/components/ScoreEditor.jsx). */
module ScoreEditing {
  import opened Util
  import opened Scoring

  /** The editor's starting state for `scores`: exactly the six dimensions, a
      missing (or 0) one as 0. */
  function Defaulted(scores: map<string, int>): (r: map<string, int>)
    ensures forall k :: k in r <==> k in Dimensions
    ensures forall k :: k in Dimensions ==> r[k] == Dim(scores, k)
  {
    map k | k in Dimensions :: Dim(scores, k)
  }

  /** Defaulting never changes the leverage score the scores imply. */
  lemma DefaultedKeepsLeverage(scores: map<string, int>)
    ensures CalculateLeverageScore(Defaulted(scores)) == CalculateLeverageScore(scores)
  {
    var d := Defaulted(scores);
    forall k | k in Dimensions ensures Dim(d, k) == Dim(scores, k) {
    }
    LeverageOnlyDimensions(d, scores);
  }

  /** What `onChange` receives: the scores with `leverageScore` set from them. The
      leverage it carries is the leverage of the payload itself, because the
      extra key is not one of the six dimensions. */
  function Payload(scores: map<string, int>): (p: map<string, int>)
    ensures "leverageScore" in p && p["leverageScore"] == CalculateLeverageScore(p)
    ensures forall k :: k != "leverageScore" ==> (k in p <==> k in scores)
    ensures forall k :: k in scores && k != "leverageScore" ==> p[k] == scores[k]
  {
    var lev := CalculateLeverageScore(scores);
    assert "leverageScore" !in Dimensions;
    LeverageIgnoresExtraKeys(scores, "leverageScore", lev);
    scores["leverageScore" := lev]
  }

  class ScoreEditor {
    /** The `localScores` state. */
    var localScores: map<string, int>

    /** The first render: the six dimensions of the given scores. */
    constructor (scores: map<string, int>)
      ensures localScores == Defaulted(scores)
    {
      localScores := Defaulted(scores);
    }

    /** The effect that runs when the `scores` prop changes: the local state is
        reset from the new scores. */
    method Sync(scores: map<string, int>)
      modifies this
      ensures localScores == Defaulted(scores)
      ensures DisplayedLeverage() == CalculateLeverageScore(scores)
    {
      localScores := Defaulted(scores);
      DefaultedKeepsLeverage(scores);
    }

    /** `handleChange(key, value)`: the value is validated and stored under
        `key`, no other key changes, and when there is an `onChange` handler it
        is sent the new scores with their leverage. `value` is `None` for input
        that is not a number. */
    method HandleChange(key: string, value: Option<real>, hasOnChange: bool)
      returns (emitted: Option<map<string, int>>)
      modifies this
      ensures localScores == old(localScores)[key := ValidateScore(value)]
      ensures 0 <= localScores[key] <= 10
      ensures forall k :: k != key ==> (k in localScores <==> k in old(localScores))
      ensures forall k :: k != key && k in localScores ==> localScores[k] == old(localScores)[k]
      ensures emitted.Some? <==> hasOnChange
      ensures emitted.Some? ==> emitted.value == Payload(localScores)
    {
      var validated := ValidateScore(value);
      localScores := localScores[key := validated];
      if hasOnChange {
        emitted := Some(Payload(localScores));
      } else {
        emitted := None;
      }
    }

    /** The leverage shown under the sliders. */
    function DisplayedLeverage(): (r: int)
      reads this
      ensures 0 <= r <= 100
    {
      CalculateLeverageScore(localScores)
    }
  }
}
