/** Reconnect suggestions and their one-line explanation. */
module Suggestions {
  import opened Util
  import opened Records
  import opened Graph
  import opened Queries

  /** Thirty days in milliseconds: the month `formatSuggestion` counts in. */
  const MonthMs := 1000 * 60 * 60 * 24 * 30

  /** `getReconnectSuggestions()`: the answer of `peopleToReconnectWith`. */
  function GetReconnectSuggestions(g: Snapshot, now: int): (r: seq<GraphNode>)
    ensures r == PeopleToReconnectWith(g, now)
    ensures |r| <= 10 && forall n :: n in r ==> DueForReconnect(n, now)
  {
    PeopleToReconnectWith(g, now)
  }

  datatype Suggestion = Suggestion(person: GraphNode, monthsAgo: Option<int>, reason: string)

  const NoRecent := ", no recent interaction"
  const MonthsSince := " months since last interaction"

  function ScorePart(person: GraphNode): string {
    "High leverage score (" + IntToString(person.data.leverageScore) + "/100)"
  }

  /** `Math.floor(elapsed / month)` for a positive month length: the whole
      months in `elapsed`. */
  function WholeMonths(elapsed: int): (m: int)
    ensures m * MonthMs <= elapsed < (m + 1) * MonthMs
  {
    var m := elapsed / MonthMs;
    assert elapsed == MonthMs * m + elapsed % MonthMs;
    m
  }

  /** The reason line: the leverage, then the month count when it is given
      and not 0, otherwise "no recent interaction". */
  function Reason(person: GraphNode, monthsAgo: Option<int>): (s: string)
    ensures |ScorePart(person)| <= |s| && s[..|ScorePart(person)|] == ScorePart(person)
    ensures EndsWith(s, NoRecent) <==> (monthsAgo.None? || monthsAgo.value == 0)
    ensures monthsAgo.Some? && monthsAgo.value != 0 ==>
      var n := |ScorePart(person)| + 2;
      && n <= |s| - |MonthsSince| && EndsWith(s, MonthsSince)
      && ParseInt(s[n..|s| - |MonthsSince|]) == Some(monthsAgo.value)
  {
    var pre := ScorePart(person);
    if monthsAgo.Some? && monthsAgo.value != 0 then
      var count := IntToString(monthsAgo.value);
      MonthsText(pre, count);
      pre + (", " + count) + MonthsSince
    else
      PrefixKept(pre, NoRecent);
      assert (pre + NoRecent)[|pre + NoRecent| - |NoRecent|..] == NoRecent;
      pre + NoRecent
  }

  /** The text naming the months starts with the score part, carries the count
      where it is read back, and does not end like one that names none. */
  lemma MonthsText(pre: string, count: string)
    ensures var s := pre + (", " + count) + MonthsSince;
      && s[..|pre|] == pre
      && s[|pre| + 2..|s| - |MonthsSince|] == count
      && EndsWith(s, MonthsSince) && !EndsWith(s, NoRecent)
  {
    var s := pre + (", " + count) + MonthsSince;
    PrefixKept(pre, (", " + count) + MonthsSince);
    assert s == pre + ((", " + count) + MonthsSince);
    MonthsSinceNotNoRecent(pre + (", " + count));
    assert s[|s| - |MonthsSince|..] == MonthsSince;
  }

  lemma PrefixKept(pre: string, tail: string)
    ensures (pre + tail)[..|pre|] == pre
  {
  }

  /** A reason that names the months does not end like one that does not. */
  lemma MonthsSinceNotNoRecent(pre: string)
    ensures !EndsWith(pre + MonthsSince, NoRecent)
  {
    var s := pre + MonthsSince;
    assert s[|s| - |NoRecent|] == MonthsSince[7] == ' ';
    assert s[|s| - |NoRecent|..][0] != NoRecent[0];
  }

  /** `formatSuggestion(person)`: the whole 30-day periods since the last
      interaction (rounded down, so negative for a date ahead of `now`), and
      the reason line. */
  function FormatSuggestion(person: GraphNode, now: int): (r: Suggestion)
    ensures r.person == person
    ensures r.monthsAgo.None? <==> person.data.lastInteraction.None?
    ensures r.monthsAgo.Some? ==>
      var elapsed := now - person.data.lastInteraction.value;
      r.monthsAgo.value * MonthMs <= elapsed < (r.monthsAgo.value + 1) * MonthMs
    ensures r.reason == Reason(person, r.monthsAgo)
  {
    var monthsAgo := if person.data.lastInteraction.Some?
                     then Some(WholeMonths(now - person.data.lastInteraction.value))
                     else None;
    Suggestion(person, monthsAgo, Reason(person, monthsAgo))
  }

  predicate EndsWith(s: string, suffix: string) {
    |suffix| <= |s| && s[|s| - |suffix|..] == suffix
  }
}
