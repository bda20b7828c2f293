/** The business leverage score: six dimensions scored 0..10 combine into one
    integer in 0..100 (src/lib/scoring.js). */
module Scoring {
  import opened Util
  import opened Records

  /** The six dimensions the score is made of, in the order the source lists them. */
  const Dimensions: seq<string> :=
    ["capitalAccess", "skillValue", "networkReach", "reliability", "speed", "alignment"]

  /** A dimension's value; a missing key counts as 0. */
  function Dim(scores: map<string, int>, k: string): int {
    if k in scores then scores[k] else 0
  }

  function DimensionSum(scores: map<string, int>): int {
    Dim(scores, "capitalAccess") + Dim(scores, "skillValue") + Dim(scores, "networkReach")
    + Dim(scores, "reliability") + Dim(scores, "speed") + Dim(scores, "alignment")
  }

  function Clamp(lo: int, hi: int, x: int): int
    requires lo <= hi
  {
    if x < lo then lo else if x > hi then hi else x
  }

  /** `calculateLeverageScore`: `Math.round(sum * 10 / 6)` clamped to 0..100. For an
      integer sum, rounding half up of `10 * sum / 6` is `(10 * sum + 3) / 6`. The
      result is the nearest integer to `10 * sum / 6` (halves round up), pushed
      into range. */
  function CalculateLeverageScore(scores: map<string, int>): (r: int)
    ensures 0 <= r <= 100
    ensures 0 < r < 100 ==> 6 * r - 3 <= 10 * DimensionSum(scores) < 6 * r + 3
    ensures r == 0 ==> 10 * DimensionSum(scores) < 3
    ensures r == 100 ==> 10 * DimensionSum(scores) >= 597
  {
    Clamp(0, 100, (10 * DimensionSum(scores) + 3) / 6)
  }

  /** Only the six dimensions matter: two score maps that agree on them score alike. */
  lemma LeverageOnlyDimensions(a: map<string, int>, b: map<string, int>)
    requires forall k :: k in Dimensions ==> Dim(a, k) == Dim(b, k)
    ensures CalculateLeverageScore(a) == CalculateLeverageScore(b)
  {
    assert DimensionSum(a) == DimensionSum(b) by {
      assert Dimensions[0] == "capitalAccess" && Dimensions[1] == "skillValue";
      assert Dimensions[2] == "networkReach" && Dimensions[3] == "reliability";
      assert Dimensions[4] == "speed" && Dimensions[5] == "alignment";
    }
  }

  /** Extra keys such as `trust` or `influence` are ignored. */
  lemma LeverageIgnoresExtraKeys(scores: map<string, int>, k: string, v: int)
    requires k !in Dimensions
    ensures CalculateLeverageScore(scores[k := v]) == CalculateLeverageScore(scores)
  {
    LeverageOnlyDimensions(scores[k := v], scores);
  }

  /** Every dimension at 10 gives the top score, every one at 0 (or missing) gives 0. */
  lemma LeverageExtremes(scores: map<string, int>)
    ensures (forall k :: k in Dimensions ==> Dim(scores, k) == 10) ==> CalculateLeverageScore(scores) == 100
    ensures (forall k :: k in Dimensions ==> Dim(scores, k) == 0) ==> CalculateLeverageScore(scores) == 0
  {
    assert Dimensions[0] == "capitalAccess" && Dimensions[1] == "skillValue";
    assert Dimensions[2] == "networkReach" && Dimensions[3] == "reliability";
    assert Dimensions[4] == "speed" && Dimensions[5] == "alignment";
  }

  /** Raising one dimension with the others held fixed never lowers the score. */
  lemma LeverageMonotone(scores: map<string, int>, k: string, v: int)
    requires k in Dimensions && v >= Dim(scores, k)
    ensures CalculateLeverageScore(scores[k := v]) >= CalculateLeverageScore(scores)
  {
    var s' := scores[k := v];
    assert DimensionSum(s') >= DimensionSum(scores);
    DivMonotone(10 * DimensionSum(scores) + 3, 10 * DimensionSum(s') + 3);
  }

  lemma DivMonotone(a: int, b: int)
    requires a <= b
    ensures a / 6 <= b / 6
  {
  }

  /** `validateScore(value)`: `Number(value)`, 0 when that is `NaN` (`None`), else
      rounded half up and clamped to 0..10. */
  function ValidateScore(value: Option<real>): (r: int)
    ensures 0 <= r <= 10
    ensures value.None? ==> r == 0
    ensures value.Some? && 0 < r < 10 ==> r as real - 0.5 <= value.value < r as real + 0.5
    ensures value.Some? && r == 0 ==> value.value < 0.5
    ensures value.Some? && r == 10 ==> value.value >= 9.5
  {
    if value.None? then 0
    else Clamp(0, 10, (value.value + 0.5).Floor)
  }

  /** A validated score passes validation unchanged. */
  lemma ValidateScoreIdempotent(value: Option<real>)
    ensures ValidateScore(Some(ValidateScore(value) as real)) == ValidateScore(value)
  {
    var v := ValidateScore(value);
    assert (v as real + 0.5).Floor == v;
  }

  /** `updateLeverageScore(node)`: the node with its leverage recomputed from its
      scores; nothing else changes. */
  function UpdateLeverageScore(node: Node): (r: Node)
    ensures r.leverageScore == CalculateLeverageScore(r.scores)
    ensures r.(leverageScore := node.leverageScore) == node
  {
    node.(leverageScore := CalculateLeverageScore(node.scores))
  }

  datatype Breakdown = Breakdown(
    capitalAccess: int, skillValue: int, networkReach: int,
    reliability: int, speed: int, alignment: int, leverageScore: int)

  function BreakdownScores(b: Breakdown): map<string, int> {
    map["capitalAccess" := b.capitalAccess, "skillValue" := b.skillValue,
        "networkReach" := b.networkReach, "reliability" := b.reliability,
        "speed" := b.speed, "alignment" := b.alignment]
  }

  /** `getScoreBreakdown(scores)`: each dimension (missing ones as 0) and the
      leverage score, which is the score of the dimensions shown. */
  function GetScoreBreakdown(scores: map<string, int>): (b: Breakdown)
    ensures forall k :: k in Dimensions ==> Dim(BreakdownScores(b), k) == Dim(scores, k)
    ensures b.leverageScore == CalculateLeverageScore(BreakdownScores(b))
    ensures 0 <= b.leverageScore <= 100
  {
    var b := Breakdown(Dim(scores, "capitalAccess"), Dim(scores, "skillValue"),
      Dim(scores, "networkReach"), Dim(scores, "reliability"), Dim(scores, "speed"),
      Dim(scores, "alignment"), CalculateLeverageScore(scores));
    LeverageOnlyDimensions(BreakdownScores(b), scores);
    b
  }
}
