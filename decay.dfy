/** Relationship decay: strength fades with the months since the last
    interaction. Timestamps are milliseconds since 1970-01-01 in UTC; the
    calendar fields `getFullYear`, `getMonth` and `getDate` are read from the
    proleptic Gregorian calendar. */
module Decay {
  import opened Util
  import opened Records
  import opened Store
  import opened Graph

  // ---------------------------------------------------------------------------
  // The calendar behind `new Date(t)`
  // ---------------------------------------------------------------------------

  const DayMs := 24 * 60 * 60 * 1000

  predicate IsLeap(y: int) {
    y % 4 == 0 && (y % 100 != 0 || y % 400 == 0)
  }

  function DaysInYear(y: int): int {
    if IsLeap(y) then 366 else 365
  }

  function DaysInMonth(y: int, m: int): (r: int)
    requires 1 <= m <= 12
    ensures 28 <= r <= 31
  {
    if m == 2 then (if IsLeap(y) then 29 else 28)
    else if m == 4 || m == 6 || m == 9 || m == 11 then 30
    else 31
  }

  /** The days of year `y` from the first of month `m` to the end of the year. */
  function RestOfYear(y: int, m: int): int
    requires 1 <= m <= 13
    decreases 13 - m
  {
    if m == 13 then 0 else DaysInMonth(y, m) + RestOfYear(y, m + 1)
  }

  lemma RestOfYearWhole(y: int)
    ensures RestOfYear(y, 1) == DaysInYear(y)
  {
  }

  /** The day number of January 1 of year `y`, day 0 being 1970-01-01. */
  function YearStart(y: int): int
    decreases if y >= 1970 then y - 1970 else 1970 - y
  {
    if y == 1970 then 0
    else if y > 1970 then YearStart(y - 1) + DaysInYear(y - 1)
    else YearStart(y + 1) - DaysInYear(y)
  }

  lemma {:induction false} YearStartStep(y: int)
    ensures YearStart(y + 1) == YearStart(y) + DaysInYear(y)
    decreases if y >= 1970 then y - 1970 else 1970 - y
  {
    if y < 1969 {
      YearStartStep(y + 1);
    }
  }

  /** The year holding day `start(y) + z`, and the day within that year. */
  function YearOf(y: int, z: int): (r: (int, int))
    ensures 0 <= r.1 < DaysInYear(r.0)
    ensures YearStart(r.0) + r.1 == YearStart(y) + z
    decreases if z < 0 then 400 - z else z
  {
    if z < 0 then
      YearStartStep(y - 1);
      YearOf(y - 1, z + DaysInYear(y - 1))
    else if z < DaysInYear(y) then (y, z)
    else
      YearStartStep(y);
      YearOf(y + 1, z - DaysInYear(y))
  }

  /** The days of year `y` before the first of month `m`. */
  function MonthStart(y: int, m: int): int
    requires 1 <= m <= 13
  {
    if m == 1 then 0 else MonthStart(y, m - 1) + DaysInMonth(y, m - 1)
  }

  lemma {:induction false} MonthStartRest(y: int, m: int)
    requires 1 <= m <= 13
    ensures MonthStart(y, m) + RestOfYear(y, m) == DaysInYear(y)
  {
    if m == 1 {
      RestOfYearWhole(y);
    } else {
      MonthStartRest(y, m - 1);
    }
  }

  /** Month `m` onward: the month and day of month holding day `doy` of the year. */
  function MonthOf(y: int, m: int, doy: int): (r: (int, int))
    requires 1 <= m <= 12 && 0 <= doy < RestOfYear(y, m)
    ensures m <= r.0 <= 12 && 1 <= r.1 <= DaysInMonth(y, r.0)
    ensures MonthStart(y, r.0) + r.1 - 1 == MonthStart(y, m) + doy
    decreases 13 - m
  {
    if doy < DaysInMonth(y, m) then (m, doy + 1)
    else MonthOf(y, m + 1, doy - DaysInMonth(y, m))
  }

  /** A calendar date: `getFullYear()`, `getMonth() + 1` and `getDate()`. */
  datatype CivilDate = CivilDate(year: int, month: int, day: int)

  predicate ValidDate(d: CivilDate) {
    1 <= d.month <= 12 && 1 <= d.day <= DaysInMonth(d.year, d.month)
  }

  /** The day number of a date, day 0 being 1970-01-01. */
  function DaysFromCivil(d: CivilDate): int
    requires 1 <= d.month <= 12
  {
    YearStart(d.year) + MonthStart(d.year, d.month) + d.day - 1
  }

  /** The date of day number `z`. */
  function CivilFromDays(z: int): (d: CivilDate)
    ensures ValidDate(d)
    ensures DaysFromCivil(d) == z
  {
    var (y, doy) := YearOf(1970, z);
    RestOfYearWhole(y);
    var (m, day) := MonthOf(y, 1, doy);
    CivilDate(y, m, day)
  }

  /** The date `new Date(t)` shows for the instant `t`. */
  function DateOf(t: int): (d: CivilDate)
    ensures ValidDate(d)
  {
    CivilFromDays(t / DayMs)
  }

  /** A date strictly before another in calendar order. */
  predicate DateBefore(a: CivilDate, b: CivilDate) {
    a.year < b.year
    || (a.year == b.year && a.month < b.month)
    || (a.year == b.year && a.month == b.month && a.day < b.day)
  }

  lemma {:induction false} YearStartMonotone(y: int, y': int)
    requires y <= y'
    ensures YearStart(y) + DaysInYear(y) <= YearStart(y') || y == y'
    decreases y' - y
  {
    if y < y' {
      YearStartStep(y);
      if y + 1 < y' {
        YearStartMonotone(y + 1, y');
      }
    }
  }

  lemma {:induction false} MonthStartMonotone(y: int, m: int, m': int)
    requires 1 <= m <= m' <= 13
    ensures MonthStart(y, m) <= MonthStart(y, m')
    decreases m' - m
  {
    if m < m' {
      MonthStartMonotone(y, m, m' - 1);
    }
  }

  /** The last day of a month is before the first day of the next. */
  lemma DayInYear(d: CivilDate)
    requires ValidDate(d)
    ensures MonthStart(d.year, d.month) + d.day <= MonthStart(d.year, d.month + 1)
    ensures MonthStart(d.year, d.month) + d.day <= DaysInYear(d.year)
  {
    MonthStartMonotone(d.year, d.month + 1, 13);
    MonthStartRest(d.year, 13);
  }

  /** Day numbers follow calendar order. */
  lemma DaysFromCivilOrdered(a: CivilDate, b: CivilDate)
    requires ValidDate(a) && ValidDate(b) && DateBefore(a, b)
    ensures DaysFromCivil(a) < DaysFromCivil(b)
  {
    DayInYear(a);
    if a.year < b.year {
      YearStartMonotone(a.year, b.year);
      MonthStartMonotone(b.year, 1, b.month);
    } else if a.month < b.month {
      MonthStartMonotone(a.year, a.month + 1, b.month);
    }
  }

  /** Every valid date is the date of its own day number. */
  lemma CivilRoundTrip(d: CivilDate)
    requires ValidDate(d)
    ensures CivilFromDays(DaysFromCivil(d)) == d
  {
    var e := CivilFromDays(DaysFromCivil(d));
    if DateBefore(e, d) {
      DaysFromCivilOrdered(e, d);
    } else if DateBefore(d, e) {
      DaysFromCivilOrdered(d, e);
    }
  }

  // ---------------------------------------------------------------------------
  // monthsBetween
  // ---------------------------------------------------------------------------

  /** `monthsBetween(date1, date2)`: whole calendar months between the two
      dates plus the difference of the days of month over 30. */
  function MonthsBetween(t1: int, t2: int): real {
    var d1 := DateOf(t1);
    var d2 := DateOf(t2);
    ((d2.year - d1.year) * 12 + (d2.month - d1.month)) as real + (d2.day - d1.day) as real / 30.0
  }

  lemma MonthsBetweenSelf(t: int)
    ensures MonthsBetween(t, t) == 0.0
  {
  }

  lemma MonthsBetweenSwap(t1: int, t2: int)
    ensures MonthsBetween(t2, t1) == -MonthsBetween(t1, t2)
  {
  }

  /** Going forward in time never gives a negative month count. */
  lemma MonthsBetweenForward(t1: int, t2: int)
    requires t1 <= t2
    ensures MonthsBetween(t1, t2) >= 0.0
  {
    var d1 := DateOf(t1);
    var d2 := DateOf(t2);
    assert t1 / DayMs <= t2 / DayMs;
    if DateBefore(d2, d1) {
      DaysFromCivilOrdered(d2, d1);
      assert false;
    }
    if d1.year != d2.year || d1.month != d2.month {
      assert (d2.year - d1.year) * 12 + (d2.month - d1.month) >= 1;
    }
  }

  /** The last day of a 31-day month and the first of the next are a whole
      day apart, yet `monthsBetween` counts them as zero months: such a
      relationship is not decayed. */
  lemma MonthsBetweenMonthEnd()
    ensures DateOf(30 * DayMs) == CivilDate(1970, 1, 31)
    ensures DateOf(31 * DayMs) == CivilDate(1970, 2, 1)
    ensures MonthsBetween(30 * DayMs, 31 * DayMs) == 0.0
  {
    assert 30 * DayMs / DayMs == 30 && 31 * DayMs / DayMs == 31;
    assert MonthStart(1970, 2) == 31;
    assert DaysFromCivil(CivilDate(1970, 1, 31)) == 30;
    assert DaysFromCivil(CivilDate(1970, 2, 1)) == 31;
    CivilRoundTrip(CivilDate(1970, 1, 31));
    CivilRoundTrip(CivilDate(1970, 2, 1));
  }

  // ---------------------------------------------------------------------------
  // calculateDecayedStrength
  // ---------------------------------------------------------------------------

  /** What the model needs of `x => Math.pow(0.95, x)`: 1 at 0, within (0, 1]
      for non-negative exponents, and non-increasing. */
  ghost predicate IsDecayCurve(pow: real -> real) {
    && pow(0.0) == 1.0
    && (forall x :: x >= 0.0 ==> 0.0 < pow(x) <= 1.0)
    && (forall x, y :: 0.0 <= x <= y ==> pow(y) <= pow(x))
  }

  function MaxR(a: real, b: real): (r: real)
    ensures r >= a && r >= b && (r == a || r == b)
  {
    if a >= b then a else b
  }

  function MinR(a: real, b: real): (r: real)
    ensures r <= a && r <= b && (r == a || r == b)
  {
    if a <= b then a else b
  }

  /** A multiple of 0.1. */
  predicate IsTenth(x: real) {
    (x * 10.0).Floor as real == x * 10.0
  }

  /** `Math.round(x * 10) / 10`: the nearest multiple of 0.1, halves upward. */
  function RoundTenth(x: real): (r: real)
    ensures IsTenth(r)
    ensures x - 0.05 < r <= x + 0.05
  {
    var n := (x * 10.0 + 0.5).Floor;
    assert (n as real * 10.0 / 10.0).Floor == n;
    n as real / 10.0
  }

  lemma RoundTenthMonotone(x: real, y: real)
    requires x <= y
    ensures RoundTenth(x) <= RoundTenth(y)
  {
    var a := (x * 10.0 + 0.5).Floor;
    var b := (y * 10.0 + 0.5).Floor;
    assert a as real <= x * 10.0 + 0.5 <= y * 10.0 + 0.5 < b as real + 1.0;
    assert a <= b;
  }

  lemma RoundTenthOfTenth(x: real)
    requires IsTenth(x)
    ensures RoundTenth(x) == x
  {
    var n := (x * 10.0).Floor;
    assert (x * 10.0 + 0.5).Floor == n;
  }

  /** The decay branch: `max(1, min(10, round1(s * 0.95^months)))`. */
  function DecayBy(pow: real -> real, s: real, months: real): (r: real)
    ensures 1.0 <= r <= 10.0 && (IsTenth(r) || r == 1.0)
    // strictly inside the clamp, the decayed value rounded to the nearest tenth
    ensures 1.0 < r < 10.0 ==> s * pow(months) - 0.05 < r <= s * pow(months) + 0.05
    ensures r == 10.0 ==> s * pow(months) >= 9.95
    ensures r == 1.0 ==> s * pow(months) < 1.05
  {
    MaxR(1.0, MinR(10.0, RoundTenth(s * pow(months))))
  }

  /** `calculateDecayedStrength(s, lastInteraction, now)`: without a date the
      strength decays as if twelve months had passed, with a floor of 1 and no
      rounding; no time elapsed leaves it as it is; otherwise DecayBy. */
  function DecayedStrength(pow: real -> real, s: real, last: Option<int>, now: int): (r: real)
    ensures last.None? ==> r >= 1.0 && (r == 1.0 || r == s * pow(12.0)) && r >= s * pow(12.0)
    ensures last.Some? && MonthsBetween(last.value, now) <= 0.0 ==> r == s
    ensures last.Some? && MonthsBetween(last.value, now) > 0.0 ==>
      var x := s * pow(MonthsBetween(last.value, now));
      && 1.0 <= r <= 10.0 && (IsTenth(r) || r == 1.0)
      && (1.0 < r < 10.0 ==> x - 0.05 < r <= x + 0.05)
      && (r == 10.0 ==> x >= 9.95)
      && (r == 1.0 ==> x < 1.05)
  {
    if last.None? then MaxR(1.0, s * pow(12.0))
    else
      var months := MonthsBetween(last.value, now);
      if months <= 0.0 then s else DecayBy(pow, s, months)
  }

  /** Measured at the moment of the last interaction, nothing has decayed. */
  lemma DecayedAtLastInteraction(pow: real -> real, s: real, t: int)
    ensures DecayedStrength(pow, s, Some(t), t) == s
  {
    MonthsBetweenSelf(t);
  }

  /** Decay never strengthens a relationship whose strength is a multiple of
      0.1 of at least 1, and never takes it below 1. */
  lemma DecayNeverStrengthens(pow: real -> real, s: real, last: Option<int>, now: int)
    requires IsDecayCurve(pow) && s >= 1.0 && IsTenth(s)
    ensures 1.0 <= DecayedStrength(pow, s, last, now) <= s
  {
    if last.None? {
      UndatedAtMost(pow, s, now);
    } else {
      var months := MonthsBetween(last.value, now);
      if months > 0.0 {
        DecayByAtMost(pow, s, months);
      }
    }
  }

  /** Without a date, twelve months of decay never raise a strength of at
      least 1. */
  lemma UndatedAtMost(pow: real -> real, s: real, now: int)
    requires IsDecayCurve(pow) && s >= 1.0
    ensures DecayedStrength(pow, s, None, now) <= s
  {
    assert pow(12.0) <= 1.0;
    ScaledDown(s, pow(12.0));
  }

  /** The decay branch never raises a strength of at least 1 that is a
      multiple of 0.1. */
  lemma DecayByAtMost(pow: real -> real, s: real, months: real)
    requires IsDecayCurve(pow) && s >= 1.0 && IsTenth(s) && months >= 0.0
    ensures DecayBy(pow, s, months) <= s
  {
    assert pow(months) <= 1.0;
    ScaledDown(s, pow(months));
    ClampedAtMost(s * pow(months), s);
  }

  /** Rounding and clamping a value no larger than `s` gives no more than `s`. */
  lemma ClampedAtMost(x: real, s: real)
    requires x <= s && s >= 1.0 && IsTenth(s)
    ensures MaxR(1.0, MinR(10.0, RoundTenth(x))) <= s
  {
    RoundTenthMonotone(x, s);
    RoundTenthOfTenth(s);
  }

  /** A factor of at most 1 makes a non-negative strength no larger. */
  lemma ScaledDown(s: real, p: real)
    requires s >= 0.0 && p <= 1.0
    ensures s * p <= s
  {
    assert s * (1.0 - p) >= 0.0;
  }

  /** The longer ago, the weaker: decay over more months gives no more strength. */
  lemma DecayByMonotone(pow: real -> real, s: real, m1: real, m2: real)
    requires IsDecayCurve(pow) && s >= 0.0 && 0.0 <= m1 <= m2
    ensures DecayBy(pow, s, m2) <= DecayBy(pow, s, m1)
  {
    assert pow(m2) <= pow(m1);
    assert s * pow(m2) <= s * pow(m1);
    RoundTenthMonotone(s * pow(m2), s * pow(m1));
  }

  // ---------------------------------------------------------------------------
  // applyDecayToRelationship
  // ---------------------------------------------------------------------------

  /** A relationship with the two fields `applyDecayToRelationship` adds. */
  datatype DecayedRelationship = DecayedRelationship(rel: Relationship, decayedStrength: real, originalStrength: real)

  /** `applyDecayToRelationship(rel)`: every field kept, the decayed strength
      (measured at `now`) added, and the strength recorded as the original. */
  function ApplyDecayToRelationship(pow: real -> real, rel: Relationship, now: int): (r: DecayedRelationship)
    ensures r.rel == rel && r.originalStrength == rel.strength
    ensures r.decayedStrength == DecayedStrength(pow, rel.strength, rel.lastInteraction, now)
  {
    DecayedRelationship(rel, DecayedStrength(pow, rel.strength, rel.lastInteraction, now), rel.strength)
  }

  // ---------------------------------------------------------------------------
  // applyDecayToAllRelationships
  // ---------------------------------------------------------------------------

  datatype StrengthUpdate = StrengthUpdate(id: string, strength: real)

  function Abs(x: real): real {
    if x < 0.0 then -x else x
  }

  /** The write the batch pass plans for one edge: only an edge with a last
      interaction whose decayed strength differs by more than 0.1. */
  function UpdateFor(pow: real -> real, e: GraphEdge, now: int): (u: Option<StrengthUpdate>)
    ensures u.Some? <==> (e.rel.lastInteraction.Some?
      && Abs(DecayedStrength(pow, e.rel.strength, e.rel.lastInteraction, now) - e.rel.strength) > 0.1)
    ensures u.Some? ==> u.value == StrengthUpdate(e.rel.id, DecayedStrength(pow, e.rel.strength, e.rel.lastInteraction, now))
  {
    if e.rel.lastInteraction.None? then None
    else
      var decayed := DecayedStrength(pow, e.rel.strength, e.rel.lastInteraction, now);
      if Abs(decayed - e.rel.strength) > 0.1 then Some(StrengthUpdate(e.rel.id, decayed)) else None
  }

  /** The `updates` list of the first loop, in edge order. */
  function PendingUpdates(pow: real -> real, es: seq<GraphEdge>, now: int): (r: seq<StrengthUpdate>)
    ensures |r| <= |es|
  {
    if es == [] then []
    else
      var u := UpdateFor(pow, es[|es| - 1], now);
      PendingUpdates(pow, es[..|es| - 1], now) + (if u.Some? then [u.value] else [])
  }

  /** Every planned write comes from an edge. */
  lemma {:induction false} PendingUpdatesSound(pow: real -> real, es: seq<GraphEdge>, now: int, u: StrengthUpdate)
    requires u in PendingUpdates(pow, es, now)
    ensures exists i :: 0 <= i < |es| && UpdateFor(pow, es[i], now) == Some(u)
  {
    var init := es[..|es| - 1];
    if u in PendingUpdates(pow, init, now) {
      PendingUpdatesSound(pow, init, now, u);
      var i :| 0 <= i < |init| && UpdateFor(pow, init[i], now) == Some(u);
      assert es[i] == init[i];
    } else {
      assert UpdateFor(pow, es[|es| - 1], now) == Some(u);
    }
  }

  /** Every edge that calls for a write gets one. */
  lemma {:induction false} PendingUpdatesComplete(pow: real -> real, es: seq<GraphEdge>, now: int, i: int)
    requires 0 <= i < |es| && UpdateFor(pow, es[i], now).Some?
    ensures UpdateFor(pow, es[i], now).value in PendingUpdates(pow, es, now)
  {
    var init := es[..|es| - 1];
    if i < |es| - 1 {
      assert es[i] == init[i];
      PendingUpdatesComplete(pow, init, now, i);
    }
  }

  /** The graph after the writes of `us`, in order. */
  function ApplyUpdates(g: GraphState, us: seq<StrengthUpdate>): GraphState {
    if us == [] then g
    else
      var u := us[|us| - 1];
      PatchEdgeWithId(ApplyUpdates(g, us[..|us| - 1]), u.id, StrengthPatch(u.strength))
  }

  /** The relationship table after the writes of `us`, in order. */
  function StoreUpdates(m: map<string, Relationship>, us: seq<StrengthUpdate>): map<string, Relationship> {
    if us == [] then m
    else
      var u := us[|us| - 1];
      var m' := StoreUpdates(m, us[..|us| - 1]);
      if u.id in m' then m'[u.id := MergeRel(m'[u.id], StrengthPatch(u.strength))] else m'
  }

  /** `f` is `e`, or `e` with a new strength and the size and colour
      `updateRelationshipData` derives from it. */
  predicate Restrengthened(e: GraphEdge, f: GraphEdge) {
    f == e || f == PatchedEdge(e, StrengthPatch(f.rel.strength))
  }

  /** The batch pass changes edges only through their strength: the nodes, the
      edge order, the ends and every other relationship field stay. */
  lemma {:induction false} ApplyUpdatesOnlyStrength(g: GraphState, us: seq<StrengthUpdate>)
    ensures var r := ApplyUpdates(g, us);
      && r.nodes == g.nodes && r.order == g.order && |r.edges| == |g.edges|
      && forall i :: 0 <= i < |g.edges| ==> Restrengthened(g.edges[i], r.edges[i])
  {
    if us != [] {
      var u := us[|us| - 1];
      var h := ApplyUpdates(g, us[..|us| - 1]);
      ApplyUpdatesOnlyStrength(g, us[..|us| - 1]);
      var r := PatchEdgeWithId(h, u.id, StrengthPatch(u.strength));
      assert r == ApplyUpdates(g, us);
      forall i | 0 <= i < |g.edges| ensures Restrengthened(g.edges[i], r.edges[i]) {
        RestrengthenedStep(g.edges[i], h.edges[i], r.edges[i]);
      }
    }
  }

  lemma RestrengthenedStep(e: GraphEdge, f: GraphEdge, h: GraphEdge)
    requires Restrengthened(e, f) && Restrengthened(f, h)
    ensures Restrengthened(e, h)
  {
    if f != e && h != f {
      assert h.rel.kind == f.rel.kind == e.rel.kind;
    }
  }

  /** The relationship table keeps its keys and only strengths change. */
  lemma {:induction false} StoreUpdatesOnlyStrength(m: map<string, Relationship>, us: seq<StrengthUpdate>)
    ensures var r := StoreUpdates(m, us);
      && r.Keys == m.Keys
      && forall k :: k in m ==> r[k] == m[k].(strength := r[k].strength)
  {
    if us != [] {
      StoreUpdatesOnlyStrength(m, us[..|us| - 1]);
    }
  }

  /** `applyDecayToAllRelationships`: plans one write per edge that calls for
      it, then performs the writes in order through `updateRelationshipData`
      and answers their number. A store that cannot be written fails the first
      write, and the call with it. */
  method ApplyDecayToAllRelationships(index: GraphIndex, pow: real -> real, now: int) returns (r: Result<nat>)
    requires index.Valid()
    modifies index, index.db
    ensures index.Valid() && index.db.available == old(index.db.available) && index.db.nodes == old(index.db.nodes)
    ensures var us := PendingUpdates(pow, old(index.graph.edges), now);
      && (index.db.available || us == [] ==>
            && r == Success(|us|)
            && index.graph == ApplyUpdates(old(index.graph), us)
            && index.db.relationships == StoreUpdates(old(index.db.relationships), us))
      && (!index.db.available && us != [] ==>
            && r == Failure(StoreFailure(Unavailable))
            && index.graph == old(index.graph) && index.db.relationships == old(index.db.relationships))
  {
    var updates := PlanUpdates(index.graph.edges, pow, now);
    ghost var g0 := index.graph;
    ghost var m0 := index.db.relationships;
    var j := 0;
    while j < |updates|
      invariant 0 <= j <= |updates|
      invariant index.Valid() && index.db.available == old(index.db.available) && index.db.nodes == old(index.db.nodes)
      invariant index.graph == ApplyUpdates(g0, updates[..j])
      invariant index.db.relationships == StoreUpdates(m0, updates[..j])
      invariant j > 0 ==> index.db.available
    {
      var u := updates[j];
      UpdateHasEdge(pow, g0, now, updates[..j], u);
      var w := index.UpdateRelationshipData(u.id, StrengthPatch(u.strength));
      if w.Failure? {
        return Failure(w.error);
      }
      ApplyUpdatesStep(g0, updates, j);
      StoreUpdatesStep(m0, updates, j);
      j := j + 1;
    }
    assert updates[..|updates|] == updates;
    r := Success(|updates|);
  }

  /** The first loop of `applyDecayToAllRelationships`: the planned writes,
      edge by edge. */
  method PlanUpdates(edges: seq<GraphEdge>, pow: real -> real, now: int) returns (updates: seq<StrengthUpdate>)
    ensures updates == PendingUpdates(pow, edges, now)
  {
    updates := [];
    var k := 0;
    while k < |edges|
      invariant 0 <= k <= |edges|
      invariant updates == PendingUpdates(pow, edges[..k], now)
    {
      var e := edges[k];
      assert edges[..k + 1][..k] == edges[..k];
      if e.rel.lastInteraction.Some? {
        var decayed := DecayedStrength(pow, e.rel.strength, e.rel.lastInteraction, now);
        if Abs(decayed - e.rel.strength) > 0.1 {
          updates := updates + [StrengthUpdate(e.rel.id, decayed)];
        }
      }
      k := k + 1;
    }
    assert edges[..|edges|] == edges;
  }

  lemma ApplyUpdatesStep(g: GraphState, us: seq<StrengthUpdate>, j: int)
    requires 0 <= j < |us|
    ensures ApplyUpdates(g, us[..j + 1]) == PatchEdgeWithId(ApplyUpdates(g, us[..j]), us[j].id, StrengthPatch(us[j].strength))
  {
    assert us[..j + 1][..j] == us[..j];
  }

  lemma StoreUpdatesStep(m: map<string, Relationship>, us: seq<StrengthUpdate>, j: int)
    requires 0 <= j < |us|
    ensures var m' := StoreUpdates(m, us[..j]);
      StoreUpdates(m, us[..j + 1]) == if us[j].id in m' then m'[us[j].id := MergeRel(m'[us[j].id], StrengthPatch(us[j].strength))] else m'
  {
    assert us[..j + 1][..j] == us[..j];
  }

  /** A planned write still finds its edge after the writes before it, and the
      store holds its relationship when the graph was loaded from it. */
  lemma UpdateHasEdge(pow: real -> real, g0: GraphState, now: int, done: seq<StrengthUpdate>, u: StrengthUpdate)
    requires u in PendingUpdates(pow, g0.edges, now)
    ensures EdgeWithId(ApplyUpdates(g0, done).edges, u.id).Some?
  {
    PendingUpdatesSound(pow, g0.edges, now, u);
    var i :| 0 <= i < |g0.edges| && UpdateFor(pow, g0.edges[i], now) == Some(u);
    ApplyUpdatesOnlyStrength(g0, done);
    var h := ApplyUpdates(g0, done);
    assert h.edges[i].rel.id == u.id;
  }
}
