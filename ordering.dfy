/** `.sort((a, b) => a.numCases - b.numCases)` on the filtered results:
    ascending by case count. `Array.prototype.sort` is stable (ECMAScript
    2019 and later), so results with equal counts keep their order. The
    sort only ever sees filter output, where every result is tagged. */
module Ordering {
  import opened Places

  predicate SortedByCases(s: seq<SearchResult>)
    requires AllTagged(s)
  {
    forall i, j :: 0 <= i < j < |s| ==> Cases(s[i]) <= Cases(s[j])
  }

  /** Puts `x` in front of the first element whose count is not below its own. */
  function Insert(x: SearchResult, t: seq<SearchResult>): (r: seq<SearchResult>)
    requires x.region.Some? && AllTagged(t)
    ensures |r| == |t| + 1 && AllTagged(r)
    ensures multiset(r) == multiset(t) + multiset{x}
  {
    if t == [] || Cases(x) <= Cases(t[0]) then [x] + t
    else
      assert t == [t[0]] + t[1..];
      [t[0]] + Insert(x, t[1..])
  }

  /** Inserting into a sorted list keeps it sorted. */
  lemma {:induction false} InsertSorted(x: SearchResult, t: seq<SearchResult>)
    requires x.region.Some? && AllTagged(t) && SortedByCases(t)
    ensures SortedByCases(Insert(x, t))
    ensures Cases(Insert(x, t)[0]) == Cases(x) || (t != [] && Cases(Insert(x, t)[0]) == Cases(t[0]))
  {
    if t != [] && Cases(x) > Cases(t[0]) {
      var rest := Insert(x, t[1..]);
      InsertSorted(x, t[1..]);
      var r := [t[0]] + rest;
      forall i, j | 0 <= i < j < |r|
        ensures Cases(r[i]) <= Cases(r[j])
      {
        if i == 0 {
          assert Cases(r[0]) <= Cases(rest[0]);
          assert Cases(rest[0]) <= Cases(rest[j - 1]) || j == 1;
        }
      }
    }
  }

  /** The sorted list: a non-decreasing permutation of the input. */
  function SortByCases(s: seq<SearchResult>): (r: seq<SearchResult>)
    requires AllTagged(s)
    ensures AllTagged(r)
    ensures SortedByCases(r)
    ensures multiset(r) == multiset(s)
  {
    if s == [] then []
    else
      assert s == [s[0]] + s[1..];
      var rest := SortByCases(s[1..]);
      InsertSorted(s[0], rest);
      Insert(s[0], rest)
  }

  /** The results with `numCases == c`, in order. */
  function WithCases(s: seq<SearchResult>, c: int): seq<SearchResult>
    requires AllTagged(s)
  {
    if s == [] then []
    else (if Cases(s[0]) == c then [s[0]] else []) + WithCases(s[1..], c)
  }

  lemma {:induction false} InsertStable(x: SearchResult, t: seq<SearchResult>, c: int)
    requires x.region.Some? && AllTagged(t)
    ensures WithCases(Insert(x, t), c) == (if Cases(x) == c then [x] else []) + WithCases(t, c)
  {
    var r := Insert(x, t);
    var xs := if Cases(x) == c then [x] else [];
    if t == [] || Cases(x) <= Cases(t[0]) {
      assert r[0] == x && r[1..] == t;
    } else {
      var ts := if Cases(t[0]) == c then [t[0]] else [];
      InsertStable(x, t[1..], c);
      assert r[0] == t[0] && r[1..] == Insert(x, t[1..]);
      assert WithCases(r, c) == ts + WithCases(Insert(x, t[1..]), c);
      assert WithCases(t, c) == ts + WithCases(t[1..], c);
      assert xs == [] || ts == [];
      assert ts + (xs + WithCases(t[1..], c)) == xs + (ts + WithCases(t[1..], c));
    }
  }

  /** The sort is stable: for every case count, the results with that
      count come out in the order they went in. */
  lemma {:induction false} SortStable(s: seq<SearchResult>, c: int)
    requires AllTagged(s)
    ensures WithCases(SortByCases(s), c) == WithCases(s, c)
  {
    if s != [] {
      SortStable(s[1..], c);
      InsertStable(s[0], SortByCases(s[1..]), c);
    }
  }
}
