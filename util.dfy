/** Helpers shared by the whole model: optional values, the JavaScript string and
    array operations the source relies on (`toLowerCase`, `includes`, `trim`,
    `parseInt`, `filter`, `slice`, the stable `sort`), and listing a map's keys. */
module Util {

  datatype Option<+T> = None | Some(value: T)

  // ---------------------------------------------------------------------------
  // Sequences
  // ---------------------------------------------------------------------------

  predicate NoDuplicates<T(==)>(s: seq<T>) {
    forall i, j :: 0 <= i < j < |s| ==> s[i] != s[j]
  }

  /** `s.filter(p)` */
  function Filter<T(!new)>(s: seq<T>, p: T -> bool): (r: seq<T>)
    ensures |r| <= |s|
    ensures forall x :: x in r <==> x in s && p(x)
    ensures NoDuplicates(s) ==> NoDuplicates(r)
  {
    if s == [] then []
    else
      var rest := Filter(s[1..], p);
      assert NoDuplicates(s) ==> s[0] !in s[1..];
      (if p(s[0]) then [s[0]] else []) + rest
  }

  lemma {:induction false} FilterAppend<T(!new)>(a: seq<T>, b: seq<T>, p: T -> bool)
    ensures Filter(a + b, p) == Filter(a, p) + Filter(b, p)
  {
    if a == [] {
      assert a + b == b;
    } else {
      assert (a + b)[1..] == a[1..] + b;
      FilterAppend(a[1..], b, p);
    }
  }

  lemma {:induction false} FilterMultiset<T(!new)>(s: seq<T>, p: T -> bool)
    ensures multiset(Filter(s, p)) <= multiset(s)
    ensures forall x :: p(x) ==> multiset(Filter(s, p))[x] == multiset(s)[x]
  {
    if s != [] {
      FilterMultiset(s[1..], p);
      assert s == [s[0]] + s[1..];
    }
  }

  /** Filtering with a predicate every element meets changes nothing. */
  lemma {:induction false} FilterKeepsAll<T(!new)>(s: seq<T>, p: T -> bool)
    requires forall i :: 0 <= i < |s| ==> p(s[i])
    ensures Filter(s, p) == s
  {
    if s != [] {
      FilterKeepsAll(s[1..], p);
      assert [s[0]] + s[1..] == s;
    }
  }

  /** `s.filter(x => x !== v)`: every copy of `v` goes, the rest keeps its order. */
  function RemoveAll<T(==,!new)>(s: seq<T>, v: T): (r: seq<T>)
    ensures v !in r
    ensures forall x :: x != v ==> multiset(r)[x] == multiset(s)[x]
    ensures NoDuplicates(s) ==> NoDuplicates(r)
  {
    if s == [] then []
    else
      var rest := RemoveAll(s[1..], v);
      assert s == [s[0]] + s[1..];
      if s[0] == v then rest
      else
        assert NoDuplicates(s) ==> s[0] !in rest by {
          if NoDuplicates(s) {
            assert s[0] !in s[1..];
            assert multiset(s[1..])[s[0]] == 0;
          }
        }
        [s[0]] + rest
  }

  lemma {:induction false} RemoveAllAppend<T(!new)>(a: seq<T>, b: seq<T>, v: T)
    ensures RemoveAll(a + b, v) == RemoveAll(a, v) + RemoveAll(b, v)
  {
    if a == [] {
      assert a + b == b;
    } else {
      assert (a + b)[1..] == a[1..] + b;
      RemoveAllAppend(a[1..], b, v);
    }
  }

  /** Removing a value that does not occur changes nothing. */
  lemma {:induction false} RemoveAllAbsent<T(!new)>(s: seq<T>, v: T)
    requires v !in s
    ensures RemoveAll(s, v) == s
  {
    if s != [] {
      assert [s[0]] + s[1..] == s;
      RemoveAllAbsent(s[1..], v);
    }
  }

  /** Appending a new value and removing it again restores the sequence. */
  lemma RemoveAllAppended<T(!new)>(s: seq<T>, v: T)
    requires v !in s
    ensures RemoveAll(s + [v], v) == s
  {
    RemoveAllAppend(s, [v], v);
    RemoveAllAbsent(s, v);
  }

  /** Inserting a new key and removing it again restores the map. */
  lemma MapPutRemove<K, V>(m: map<K, V>, k: K, v: V)
    requires k !in m
    ensures m[k := v] - {k} == m
  {
  }

  /** `s.filter((_, i) => i !== index)` */
  function RemoveAt<T>(s: seq<T>, index: int): (r: seq<T>)
    ensures r == if 0 <= index < |s| then s[..index] + s[index + 1..] else s
  {
    if s == [] then []
    else
      var rest := RemoveAt(s[1..], index - 1);
      if index == 0 then rest
      else
        assert [s[0]] + s[1..] == s;
        assert 0 < index < |s| ==> [s[0]] + s[1..][..index - 1] == s[..index];
        [s[0]] + rest
  }

  /** RemoveAt takes out exactly one copy of the element at `index`. */
  lemma RemoveAtMultiset<T>(s: seq<T>, index: int)
    requires 0 <= index < |s|
    ensures multiset(RemoveAt(s, index)) == multiset(s) - multiset{s[index]}
  {
    var a, e, b := s[..index], s[index], s[index + 1..];
    assert s == a + [e] + b;
    MultisetWithout(a, e, b);
  }

  /** Taking `e` out from between `a` and `b` takes one copy out of the multiset. */
  lemma MultisetWithout<T>(a: seq<T>, e: T, b: seq<T>)
    ensures multiset(a + b) == multiset(a + [e] + b) - multiset{e}
  {
    var kept, all := multiset(a) + multiset(b), multiset(a) + multiset{e} + multiset(b);
    assert multiset(a + [e] + b) == all;
    forall x ensures kept[x] == (all - multiset{e})[x] {
    }
  }

  /** `s.findIndex(p)`, with `None` for -1. */
  function FirstIndex<T>(s: seq<T>, p: T -> bool): (r: Option<nat>)
    ensures r.None? <==> forall i :: 0 <= i < |s| ==> !p(s[i])
    ensures r.Some? ==> r.value < |s| && p(s[r.value]) && forall j :: 0 <= j < r.value ==> !p(s[j])
  {
    if s == [] then None
    else if p(s[0]) then Some(0)
    else
      var r := FirstIndex(s[1..], p);
      if r.None? then None else Some(r.value + 1)
  }

  /** `s.slice(0, end)` with JavaScript's treatment of a negative `end`. */
  function SliceTo<T>(s: seq<T>, end: int): (r: seq<T>)
    ensures 0 <= end ==> |r| == if end < |s| then end else |s|
    ensures end < 0 ==> |r| == if |s| + end < 0 then 0 else |s| + end
    ensures r == s[..|r|]
  {
    var k := if end >= 0 then (if end < |s| then end else |s|)
             else (if |s| + end < 0 then 0 else |s| + end);
    s[..k]
  }

  // ---------------------------------------------------------------------------
  // Stable sorting (Array.prototype.sort is stable since ES2019)
  // ---------------------------------------------------------------------------

  ghost predicate SortedDesc<T>(s: seq<T>, key: T -> real) {
    forall i, j :: 0 <= i < j < |s| ==> key(s[i]) >= key(s[j])
  }

  /** Putting `h` in front of a sorted list keeps it sorted when `h` ranks first. */
  lemma ConsSorted<T>(h: T, s: seq<T>, key: T -> real)
    requires SortedDesc(s, key)
    requires forall i :: 0 <= i < |s| ==> key(h) >= key(s[i])
    ensures SortedDesc([h] + s, key)
  {
    var r := [h] + s;
    forall i, j | 0 <= i < j < |r| ensures key(r[i]) >= key(r[j]) {
      assert r[j] == s[j - 1];
      if i > 0 { assert r[i] == s[i - 1]; }
    }
  }

  lemma SortedHeadFirst<T>(s: seq<T>, key: T -> real, y: T)
    requires SortedDesc(s, key) && s != [] && y in s
    ensures key(s[0]) >= key(y)
  {
    var j :| 0 <= j < |s| && s[j] == y;
    if j > 0 { assert key(s[0]) >= key(s[j]); }
  }

  /** Inserts `x` after every element whose key is at least `key(x)`. */
  function InsertDesc<T>(x: T, s: seq<T>, key: T -> real): (r: seq<T>)
    requires SortedDesc(s, key)
    ensures |r| == |s| + 1
    ensures multiset(r) == multiset(s) + multiset{x}
    ensures SortedDesc(r, key)
    ensures r[0] == if s != [] && key(s[0]) >= key(x) then s[0] else x
  {
    if s == [] then [x]
    else if key(s[0]) >= key(x) then
      var rest := InsertDesc(x, s[1..], key);
      InsertAfterHead(x, s, key, rest);
      [s[0]] + rest
    else
      InsertAtHead(x, s, key);
      [x] + s
  }

  lemma InsertAfterHead<T>(x: T, s: seq<T>, key: T -> real, rest: seq<T>)
    requires s != [] && SortedDesc(s, key) && key(s[0]) >= key(x)
    requires SortedDesc(rest, key) && multiset(rest) == multiset(s[1..]) + multiset{x}
    ensures SortedDesc([s[0]] + rest, key)
    ensures multiset([s[0]] + rest) == multiset(s) + multiset{x}
  {
    assert s == [s[0]] + s[1..];
    forall i | 0 <= i < |rest| ensures key(s[0]) >= key(rest[i]) {
      assert rest[i] in multiset(rest);
      if rest[i] != x {
        assert rest[i] in multiset(s[1..]);
        assert rest[i] in s;
        SortedHeadFirst(s, key, rest[i]);
      }
    }
    ConsSorted(s[0], rest, key);
  }

  lemma InsertAtHead<T>(x: T, s: seq<T>, key: T -> real)
    requires s != [] && SortedDesc(s, key) && key(s[0]) < key(x)
    ensures SortedDesc([x] + s, key)
  {
    forall i | 0 <= i < |s| ensures key(x) >= key(s[i]) { SortedHeadFirst(s, key, s[i]); }
    ConsSorted(x, s, key);
  }

  /** Inserting behind a head that ranks at least as high leaves the head
      first. */
  lemma InsertBehindHead<T>(x: T, s: seq<T>, key: T -> real)
    requires s != [] && SortedDesc(s, key) && key(s[0]) >= key(x)
    ensures SortedDesc(s[1..], key)
    ensures InsertDesc(x, s, key) == [s[0]] + InsertDesc(x, s[1..], key)
  {
  }

  lemma InsertInFront<T>(x: T, s: seq<T>, key: T -> real)
    requires SortedDesc(s, key) && (s == [] || key(s[0]) < key(x))
    ensures InsertDesc(x, s, key) == s[..0] + [x] + s[0..]
  {
    assert s[..0] + [x] + s[0..] == [x] + s;
  }

  /** Where InsertDesc puts `x`: at the first position whose element ranks
      below it, which is where an insertion sort that shifts the lower-ranked
      elements right stops. */
  lemma {:induction false} InsertDescAt<T>(x: T, s: seq<T>, key: T -> real, j: int)
    requires SortedDesc(s, key) && 0 <= j <= |s|
    requires j == 0 || key(s[j - 1]) >= key(x)
    requires forall k :: j <= k < |s| ==> key(s[k]) < key(x)
    ensures InsertDesc(x, s, key) == s[..j] + [x] + s[j..]
  {
    if j == 0 {
      InsertInFront(x, s, key);
    } else {
      assert key(s[0]) >= key(s[j - 1]);
      InsertBehindHead(x, s, key);
      var tail := s[1..];
      InsertDescAt(x, tail, key, j - 1);
      assert tail[..j - 1] == s[1..j] && tail[j - 1..] == s[j..];
      assert s[..j] == [s[0]] + s[1..j];
      AppendRegroup([s[0]], s[1..j], [x], s[j..]);
    }
  }

  lemma AppendRegroup<T>(h: seq<T>, m: seq<T>, x: seq<T>, t: seq<T>)
    ensures h + (m + x + t) == (h + m) + x + t
  {
  }

  /** The elements whose key is `k`. */
  function HasKey<T>(key: T -> real, k: real): T -> bool {
    x => key(x) == k
  }

  /** A stable sort, descending by `key`: `s.sort((a, b) => key(b) - key(a))`.
      Elements with equal keys keep their input order. */
  function SortDesc<T(!new)>(s: seq<T>, key: T -> real): (r: seq<T>)
    ensures |r| == |s|
    ensures multiset(r) == multiset(s)
    ensures SortedDesc(r, key)
    ensures forall k :: Filter(r, HasKey(key, k)) == Filter(s, HasKey(key, k))
  {
    if s == [] then []
    else
      var init := s[..|s| - 1];
      var x := s[|s| - 1];
      assert s == init + [x];
      var r := InsertDesc(x, SortDesc(init, key), key);
      assert forall k :: Filter(r, HasKey(key, k)) == Filter(s, HasKey(key, k)) by {
        forall k ensures Filter(r, HasKey(key, k)) == Filter(s, HasKey(key, k)) {
          InsertDescFilter(x, SortDesc(init, key), key, k);
          FilterAppend(init, [x], HasKey(key, k));
        }
      }
      r
  }

  /** Filtering by one key, InsertDesc puts `x` behind the elements of equal key. */
  lemma {:induction false} InsertDescFilter<T(!new)>(x: T, s: seq<T>, key: T -> real, k: real)
    requires SortedDesc(s, key)
    ensures Filter(InsertDesc(x, s, key), HasKey(key, k))
      == Filter(s, HasKey(key, k)) + Filter([x], HasKey(key, k))
  {
    var p := HasKey(key, k);
    if s == [] {
      assert InsertDesc(x, s, key) == [x];
      assert Filter(s, p) == [];
    } else if key(s[0]) >= key(x) {
      InsertBehindHead(x, s, key);
      InsertDescFilter(x, s[1..], key, k);
      FilterBehindHead(s, InsertDesc(x, s[1..], key), Filter([x], p), p);
    } else {
      InsertAtFront(x, s, key);
      FilterInFront(x, s, key, k);
    }
  }

  /** Put in front of elements that all rank lower, `x` is behind every element
      of its own key. */
  lemma FilterInFront<T(!new)>(x: T, s: seq<T>, key: T -> real, k: real)
    requires SortedDesc(s, key) && s != [] && key(s[0]) < key(x)
    ensures Filter([x] + s, HasKey(key, k)) == Filter(s, HasKey(key, k)) + Filter([x], HasKey(key, k))
  {
    var p := HasKey(key, k);
    FilterCons(x, s, p);
    FilterCons(x, [], p);
    assert [x] + [] == [x];
    if key(x) == k {
      forall i | 0 <= i < |s| ensures !p(s[i]) {
        SortedHeadFirst(s, key, s[i]);
      }
      FilterNone(s, p);
    }
  }

  lemma FilterBehindHead<T(!new)>(s: seq<T>, rest: seq<T>, tail: seq<T>, p: T -> bool)
    requires s != [] && Filter(rest, p) == Filter(s[1..], p) + tail
    ensures Filter([s[0]] + rest, p) == Filter(s, p) + tail
  {
    var h: seq<T> := if p(s[0]) then [s[0]] else [];
    FilterCons(s[0], rest, p);
    FilterCons(s[0], s[1..], p);
    assert [s[0]] + s[1..] == s;
    AppendAssoc(h, Filter(s[1..], p), tail);
  }

  lemma AppendAssoc<T>(a: seq<T>, b: seq<T>, c: seq<T>)
    ensures a + (b + c) == (a + b) + c
  {
  }

  lemma FilterCons<T(!new)>(a: T, t: seq<T>, p: T -> bool)
    ensures Filter([a] + t, p) == (if p(a) then [a] else []) + Filter(t, p)
  {
    assert ([a] + t)[1..] == t;
  }

  lemma InsertAtFront<T>(x: T, s: seq<T>, key: T -> real)
    requires s != [] && SortedDesc(s, key) && key(s[0]) < key(x)
    ensures InsertDesc(x, s, key) == [x] + s
  {
  }

  /** Filtering with a predicate no element meets leaves nothing. */
  lemma {:induction false} FilterNone<T(!new)>(s: seq<T>, p: T -> bool)
    requires forall i :: 0 <= i < |s| ==> !p(s[i])
    ensures Filter(s, p) == []
  {
    if s != [] {
      FilterNone(s[1..], p);
    }
  }

  /** Sorting one more element inserts it into the sorted prefix. */
  lemma SortDescSnoc<T(!new)>(s: seq<T>, i: int, key: T -> real)
    requires 0 <= i < |s|
    ensures SortDesc(s[..i + 1], key) == InsertDesc(s[i], SortDesc(s[..i], key), key)
  {
    assert s[..i + 1][..i] == s[..i];
  }

  /** `k` is the first index of `s` whose key is largest. */
  ghost predicate IsFirstMax<T>(s: seq<T>, k: int, key: T -> real) {
    && 0 <= k < |s|
    && (forall i :: 0 <= i < |s| ==> key(s[i]) <= key(s[k]))
    && (forall i :: 0 <= i < k ==> key(s[i]) < key(s[k]))
  }

  /** Stability, as the queries use it: the head of the sorted list is the earliest
      element with the largest key. */
  lemma {:induction false} SortDescHead<T(!new)>(s: seq<T>, key: T -> real) returns (k: int)
    requires s != []
    ensures IsFirstMax(s, k, key) && SortDesc(s, key)[0] == s[k]
  {
    if |s| == 1 {
      k := 0;
    } else {
      var k' := SortDescHead(s[..|s| - 1], key);
      k := HeadAfterInsert(s, k', key);
    }
  }

  /** One step of SortDescHead: inserting the last element into the sorted rest
      either keeps the head of the rest or puts the last element first. */
  lemma HeadAfterInsert<T(!new)>(s: seq<T>, k': int, key: T -> real) returns (k: int)
    requires |s| >= 2
    requires IsFirstMax(s[..|s| - 1], k', key) && SortDesc(s[..|s| - 1], key)[0] == s[k']
    ensures IsFirstMax(s, k, key) && SortDesc(s, key)[0] == s[k]
  {
    var init := s[..|s| - 1];
    var x := s[|s| - 1];
    assert SortDesc(s, key) == InsertDesc(x, SortDesc(init, key), key);
    if key(s[k']) >= key(x) {
      k := k';
      FirstMaxKept(s, k', key);
    } else {
      k := |s| - 1;
      FirstMaxNew(s, k', key);
    }
  }

  lemma FirstMaxKept<T>(s: seq<T>, k: int, key: T -> real)
    requires |s| >= 2 && IsFirstMax(s[..|s| - 1], k, key) && key(s[k]) >= key(s[|s| - 1])
    ensures IsFirstMax(s, k, key)
  {
    assert forall i :: 0 <= i < |s| - 1 ==> s[i] == s[..|s| - 1][i];
  }

  lemma FirstMaxNew<T>(s: seq<T>, k: int, key: T -> real)
    requires |s| >= 2 && IsFirstMax(s[..|s| - 1], k, key) && key(s[k]) < key(s[|s| - 1])
    ensures IsFirstMax(s, |s| - 1, key)
  {
    assert forall i :: 0 <= i < |s| - 1 ==> s[i] == s[..|s| - 1][i];
  }

  /** The elements a top-`k` slice of a sorted list leaves out rank no higher than
      any element it keeps. */
  lemma TopSlice<T>(s: seq<T>, key: T -> real, end: int, x: T)
    requires SortedDesc(s, key)
    requires x in s && x !in SliceTo(s, end)
    ensures forall y :: y in SliceTo(s, end) ==> key(y) >= key(x)
    ensures 0 <= end ==> |SliceTo(s, end)| == end
  {
    var r := SliceTo(s, end);
    var j :| 0 <= j < |s| && s[j] == x;

  }

  lemma SortDescMembers<T(!new)>(s: seq<T>, key: T -> real, x: T)
    ensures x in SortDesc(s, key) <==> x in s
  {
    var r := SortDesc(s, key);
    assert x in r <==> x in multiset(r);
    assert x in s <==> x in multiset(s);
  }

  /** `s.filter(p).sort((a, b) => key(b) - key(a)).slice(0, end)`: the elements
      satisfying `p`, best first, cut after `end`. */
  function TopBy<T(!new)>(s: seq<T>, p: T -> bool, key: T -> real, end: int): (r: seq<T>)
    ensures 0 <= end ==> |r| == if |Filter(s, p)| < end then |Filter(s, p)| else end
    ensures multiset(r) <= multiset(Filter(s, p))
    ensures forall x :: x in r ==> x in s && p(x)
    ensures SortedDesc(r, key)
    ensures forall x, y :: x in s && p(x) && x !in r && y in r ==> key(y) >= key(x)
  {
    var sorted := SortDesc(Filter(s, p), key);
    SliceMultiset(sorted, end, Filter(s, p));
    TopByRanks(s, p, key, end);
    SliceTo(sorted, end)
  }

  /** The slice keeps only candidates, and leaves out none that ranks higher
      than one it keeps. */
  lemma TopByRanks<T(!new)>(s: seq<T>, p: T -> bool, key: T -> real, end: int)
    ensures var r := SliceTo(SortDesc(Filter(s, p), key), end);
      && (forall x :: x in r ==> x in s && p(x))
      && (forall x, y :: x in s && p(x) && x !in r && y in r ==> key(y) >= key(x))
  {
    var sorted := SortDesc(Filter(s, p), key);
    var r := SliceTo(sorted, end);
    assert forall x :: x in sorted <==> x in s && p(x) by {
      forall x ensures x in sorted <==> x in s && p(x) {
        SortDescMembers(Filter(s, p), key, x);
      }
    }
    assert forall x, y :: x in s && p(x) && x !in r && y in r ==> key(y) >= key(x) by {
      forall x, y | x in s && p(x) && x !in r && y in r ensures key(y) >= key(x) {
        TopSlice(sorted, key, end, x);
      }
    }
  }

  /** A slice of a permutation of `whole` takes no more copies of any element
      than `whole` has. */
  lemma SliceMultiset<T>(s: seq<T>, end: int, whole: seq<T>)
    requires multiset(s) == multiset(whole)
    ensures multiset(SliceTo(s, end)) <= multiset(whole)
  {
    PrefixMultiset(s, |SliceTo(s, end)|);
  }

  /** A prefix holds no more copies of any element than the whole sequence. */
  lemma PrefixMultiset<T>(s: seq<T>, k: int)
    requires 0 <= k <= |s|
    ensures multiset(s[..k]) <= multiset(s)
  {
    assert multiset(s[..k]) + multiset(s[k..]) == multiset(s[..k] + s[k..]);
    assert s == s[..k] + s[k..];
    assert multiset(s) == multiset(s[..k]) + multiset(s[k..]);
  }

  /** An element TopBy leaves out ranks no higher than any element it keeps. */
  lemma TopByLeftOut<T(!new)>(s: seq<T>, p: T -> bool, key: T -> real, end: int, x: T, y: T)
    requires x in s && p(x) && x !in TopBy(s, p, key, end) && y in TopBy(s, p, key, end)
    ensures key(y) >= key(x)
  {
  }

  // ---------------------------------------------------------------------------
  // Strings (ASCII case mapping; JavaScript's Unicode tables are not modelled)
  // ---------------------------------------------------------------------------

  function LowerChar(c: char): char {
    if 'A' <= c <= 'Z' then (c as int + 32) as char else c
  }

  /** `s.toLowerCase()` restricted to ASCII letters. */
  function Lower(s: string): (r: string)
    ensures |r| == |s|
    ensures forall i :: 0 <= i < |s| ==> r[i] == LowerChar(s[i])
  {
    seq(|s|, i requires 0 <= i < |s| => LowerChar(s[i]))
  }

  predicate IsPrefix(p: string, s: string) {
    |p| <= |s| && s[..|p|] == p
  }

  /** `s.includes(sub)` */
  predicate Contains(s: string, sub: string) {
    exists i :: 0 <= i <= |s| - |sub| && IsPrefix(sub, s[i..])
  }

  lemma ContainsAt(s: string, sub: string, i: int)
    requires 0 <= i <= |s| - |sub| && s[i..i + |sub|] == sub
    ensures Contains(s, sub)
  {
    assert IsPrefix(sub, s[i..]);
  }

  /** The characters `String.prototype.trim` removes, restricted to ASCII. */
  predicate IsSpace(c: char) {
    // tab, line feed, vertical tab, form feed and carriage return are the
    // code points 9 to 13
    c == ' ' || '\t' <= c <= '\r'
  }

  /** How many white-space characters `s` starts with. */
  function LeadingSpace(s: string): (n: nat)
    ensures n <= |s|
  {
    if |s| == 0 || !IsSpace(s[0]) then 0 else 1 + LeadingSpace(s[1..])
  }

  /** The characters before `LeadingSpace(s)` are white space and the one at
      it is not. */
  lemma {:induction false} LeadingSpaceSpec(s: string)
    ensures var n := LeadingSpace(s);
      && (forall j :: 0 <= j < n ==> IsSpace(s[j]))
      && (n < |s| ==> !IsSpace(s[n]))
  {
    if |s| > 0 && IsSpace(s[0]) {
      LeadingSpaceSpec(s[1..]);
    }
  }

  function TrimStart(s: string): string {
    s[LeadingSpace(s)..]
  }

  /** `s.trim()`: white space is dropped from the front, then from the back. */
  function Trim(s: string): (r: string)
    ensures |r| <= |s|
    ensures |r| == 0 || (!IsSpace(r[0]) && !IsSpace(r[|r| - 1]))
    decreases |s|
  {
    if |s| > 0 && IsSpace(s[0]) then Trim(s[1..])
    else if |s| > 0 && IsSpace(s[|s| - 1]) then Trim(s[..|s| - 1])
    else s
  }

  /** What `trim` keeps: the text itself with only white space cut from its
      two ends. */
  lemma {:induction false} TrimCuts(s: string)
    ensures CutFrom(s, Trim(s))
    decreases |s|
  {
    if |s| > 0 && IsSpace(s[0]) {
      TrimCuts(s[1..]);
      CutFront(s, Trim(s[1..]));
    } else if |s| > 0 && IsSpace(s[|s| - 1]) {
      TrimCuts(s[..|s| - 1]);
      CutBack(s, Trim(s[..|s| - 1]));
    } else {
      assert s == s[0..|s|] && AllSpace(s[..0]) && AllSpace(s[|s|..]);
    }
  }

  /** `r` is what is left of `s` once some white space is cut from each end. */
  ghost predicate CutFrom(s: string, r: string) {
    exists i, j :: 0 <= i <= j <= |s| && r == s[i..j] && AllSpace(s[..i]) && AllSpace(s[j..])
  }

  lemma CutFront(s: string, r: string)
    requires |s| > 0 && IsSpace(s[0]) && CutFrom(s[1..], r)
    ensures CutFrom(s, r)
  {
    var t := s[1..];
    var i, j :| 0 <= i <= j <= |t| && r == t[i..j] && AllSpace(t[..i]) && AllSpace(t[j..]);
    assert r == s[i + 1..j + 1];
    assert AllSpace(s[..i + 1]) by {
      forall n | 0 < n < i + 1 ensures s[n] == t[..i][n - 1] { }
    }
    assert s[j + 1..] == t[j..];
  }

  lemma CutBack(s: string, r: string)
    requires |s| > 0 && IsSpace(s[|s| - 1]) && CutFrom(s[..|s| - 1], r)
    ensures CutFrom(s, r)
  {
    var t := s[..|s| - 1];
    var i, j :| 0 <= i <= j <= |t| && r == t[i..j] && AllSpace(t[..i]) && AllSpace(t[j..]);
    assert r == s[i..j];
    assert s[..i] == t[..i];
    assert AllSpace(s[j..]) by {
      forall n | 0 <= n < |s| - j ensures IsSpace(s[j..][n]) {
        if n < |t| - j { assert s[j..][n] == t[j..][n]; }
      }
    }
  }

  ghost predicate AllSpace(s: string) {
    forall i :: 0 <= i < |s| ==> IsSpace(s[i])
  }

  /** A string is blank after trimming exactly when every character is white space. */
  lemma {:induction false} BlankIffAllSpace(s: string)
    ensures Trim(s) == "" <==> AllSpace(s)
    decreases |s|
  {
    if |s| > 0 && IsSpace(s[0]) {
      BlankIffAllSpace(s[1..]);
      assert AllSpace(s[1..]) ==> AllSpace(s) by {
        forall i | 0 < i < |s| ensures s[i] == s[1..][i - 1] { }
      }
    } else if |s| > 0 && IsSpace(s[|s| - 1]) {
      var p := s[..|s| - 1];
      BlankIffAllSpace(p);
      assert |p| > 0 && p[0] == s[0];
    }
  }

  // ---------------------------------------------------------------------------
  // Numbers as text
  // ---------------------------------------------------------------------------

  predicate IsDigit(c: char) { '0' <= c <= '9' }

  function DigitValue(c: char): nat
    requires IsDigit(c)
  {
    c as int - '0' as int
  }

  /** The value of a run of decimal digits. */
  function DigitsValue(ds: string): nat
    requires forall i :: 0 <= i < |ds| ==> IsDigit(ds[i])
  {
    if ds == [] then 0 else DigitsValue(ds[..|ds| - 1]) * 10 + DigitValue(ds[|ds| - 1])
  }

  /** The longest prefix of `s` made of decimal digits. */
  function DigitPrefix(s: string): (r: string)
    ensures |r| <= |s| && r == s[..|r|]
    ensures forall i :: 0 <= i < |r| ==> IsDigit(r[i])
    ensures |r| < |s| ==> !IsDigit(s[|r|])
  {
    if s == [] || !IsDigit(s[0]) then []
    else
      var rest := DigitPrefix(s[1..]);
      assert [s[0]] + rest == s[..|rest| + 1];
      [s[0]] + rest
  }

  /** The value of the digits `body` starts with; `None` when it starts with none. */
  function ParseUnsigned(body: string): (r: Option<int>)
    ensures r.None? <==> body == [] || !IsDigit(body[0])
    ensures r.Some? ==> r.value >= 0
  {
    var ds := DigitPrefix(body);
    if ds == [] then None else Some(DigitsValue(ds))
  }

  function Negate(o: Option<int>): Option<int> {
    if o.Some? then Some(-o.value) else None
  }

  /** `parseInt(s)` in base ten: leading white space, an optional sign, then the
      longest run of digits; `None` stands for `NaN`. */
  function ParseInt(s: string): (r: Option<int>)
    ensures
      var t := TrimStart(s);
      var body := if t != [] && (t[0] == '+' || t[0] == '-') then t[1..] else t;
      var v: int := DigitsValue(DigitPrefix(body));
      && (r.None? <==> body == [] || !IsDigit(body[0]))
      && (r.Some? ==> r.value == if t != [] && t[0] == '-' then -v else v)
  {
    var t := TrimStart(s);
    if t != [] && t[0] == '-' then Negate(ParseUnsigned(t[1..]))
    else if t != [] && t[0] == '+' then ParseUnsigned(t[1..])
    else ParseUnsigned(t)
  }

  function DigitChar(d: nat): char
    requires d < 10
  {
    ('0' as int + d) as char
  }

  function NatToString(n: nat): (r: string)
    ensures |r| >= 1
    ensures forall i :: 0 <= i < |r| ==> IsDigit(r[i])
    ensures DigitsValue(r) == n
  {
    if n < 10 then
      [DigitChar(n)]
    else
      var r := NatToString(n / 10) + [DigitChar(n % 10)];
      assert r[..|r| - 1] == NatToString(n / 10);
      r
  }

  lemma DigitPrefixAll(ds: string)
    requires forall i :: 0 <= i < |ds| ==> IsDigit(ds[i])
    ensures DigitPrefix(ds) == ds
  {
  }

  lemma ParseUnsignedDigits(ds: string)
    requires |ds| >= 1 && forall i :: 0 <= i < |ds| ==> IsDigit(ds[i])
    ensures ParseUnsigned(ds) == Some(DigitsValue(ds) as int)
  {
    DigitPrefixAll(ds);
  }

  lemma ParseDigits(ds: string)
    requires |ds| >= 1 && forall i :: 0 <= i < |ds| ==> IsDigit(ds[i])
    ensures ParseInt(ds) == Some(DigitsValue(ds) as int)
  {
    assert LeadingSpace(ds) == 0 by { assert !IsSpace(ds[0]); }
    assert TrimStart(ds) == ds;
    assert ds[0] != '-' && ds[0] != '+';
    ParseUnsignedDigits(ds);
  }

  lemma ParseMinus(m: string, v: int)
    requires m != [] && m[0] == '-' && ParseUnsigned(m[1..]) == Some(v)
    ensures ParseInt(m) == Some(-v)
  {
    assert LeadingSpace(m) == 0 by { assert !IsSpace(m[0]); }
  }

  /** `String(n)` for an integer; `parseInt` reads it back. */
  function IntToString(n: int): (r: string)
    ensures |r| >= 1
    ensures ParseInt(r) == Some(n)
  {
    if n >= 0 then
      NatToStringParses(n);
      NatToString(n)
    else
      NegativeToStringParses(-n);
      ['-'] + NatToString(-n)
  }

  lemma NatToStringParses(n: nat)
    ensures ParseInt(NatToString(n)) == Some(n)
  {
    ParseDigits(NatToString(n));
  }

  lemma NegativeToStringParses(n: nat)
    ensures ParseInt(['-'] + NatToString(n)) == Some(-(n as int))
  {
    var d := NatToString(n);
    var m := ['-'] + d;
    assert m[1..] == d;
    ParseUnsignedDigits(d);
    ParseMinus(m, n);
  }

  /** Appending an element not yet present keeps a list duplicate-free. */
  lemma AppendFresh<T>(s: seq<T>, x: T)
    requires NoDuplicates(s) && x !in s
    ensures NoDuplicates(s + [x])
    ensures forall y :: y in s + [x] <==> y in s || y == x
  {
  }

  // ---------------------------------------------------------------------------
  // First match in an ordered table (Object.entries order)
  // ---------------------------------------------------------------------------

  /** The value of the first entry, in table order, whose key satisfies
      `matches` (FirstMatchSpec). */
  function FirstMatch<K, V>(table: seq<(K, V)>, matches: K -> bool): Option<V> {
    if |table| == 0 then None
    else if matches(table[0].0) then Some(table[0].1)
    else FirstMatch(table[1..], matches)
  }

  /** `FirstMatch` finds nothing exactly when no key matches, and otherwise the
      value of a matching entry with no matching entry before it. */
  lemma {:induction false} FirstMatchSpec<K, V>(table: seq<(K, V)>, matches: K -> bool)
    ensures var r := FirstMatch(table, matches);
      && (r.None? <==> forall i :: 0 <= i < |table| ==> !matches(table[i].0))
      && (r.Some? ==> exists i :: 0 <= i < |table| && matches(table[i].0) && r.value == table[i].1
                                 && forall j :: 0 <= j < i ==> !matches(table[j].0))
  {
    if |table| > 0 && !matches(table[0].0) {
      var rest := table[1..];
      FirstMatchSpec(rest, matches);
      assert forall i :: 1 <= i < |table| ==> table[i] == rest[i - 1];
      var r := FirstMatch(rest, matches);
      if r.Some? {
        var i :| 0 <= i < |rest| && matches(rest[i].0) && r.value == rest[i].1
                 && forall j :: 0 <= j < i ==> !matches(rest[j].0);
        assert matches(table[i + 1].0) && r.value == table[i + 1].1;
      }
    }
  }

  // ---------------------------------------------------------------------------
  // Listing a map (IndexedDB hands records back as an array)
  // ---------------------------------------------------------------------------

  lemma DistinctLength<T>(s: seq<T>)
    requires NoDuplicates(s)
    ensures |set x | x in s| == |s|
  {
    if s != [] {
      DistinctLength(s[1..]);
      assert (set x | x in s) == (set x | x in s[1..]) + {s[0]};
      assert s[0] !in (set x | x in s[1..]);
    }
  }

  lemma {:induction false} SubsetCard<T>(a: set<T>, b: set<T>)
    requires a <= b
    ensures |a| <= |b|
    decreases |a|
  {
    if a != {} {
      var x :| x in a;
      SubsetCard(a - {x}, b - {x});
    }
  }

  /** The keys of `m`, each once, in an order the model leaves open. */
  method Keys<V>(m: map<string, V>) returns (ks: seq<string>)
    ensures NoDuplicates(ks)
    ensures forall k :: k in ks <==> k in m
    ensures |ks| == |m|
  {
    ks := [];
    var rest := m.Keys;
    while rest != {}
      invariant NoDuplicates(ks)
      invariant forall k :: k in ks ==> k in m && k !in rest
      invariant forall k :: k in m ==> k in ks || k in rest
      invariant rest <= m.Keys
      decreases rest
    {
      var k :| k in rest;
      ks := ks + [k];
      rest := rest - {k};
    }
    DistinctLength(ks);
    assert (set x | x in ks) == m.Keys;
  }
}
