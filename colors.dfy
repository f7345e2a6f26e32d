/** `normalizeColors`: a scan for the smallest and largest case count,
    seeded with 266 and 0, then a shade per result that falls linearly from
    1 at the scan's `min` to 0 at its `max` (these are the smallest and
    largest counts only when the smallest is at most 266 and the largest at
    least 0). The shade is kept as a number; the `rgb(...)` string made
    from it is not modelled. */
module Colors {
  import opened Places

  const MinSeed: int := 266
  const MaxSeed: int := 0

  /** A result with the shade its colour is drawn from. */
  datatype Colored = Colored(result: SearchResult, shade: real)

  /** Where the scan leaves `min`: the least of 266 and every count. */
  function MinCases(s: seq<SearchResult>): (m: int)
    requires AllTagged(s)
    ensures m <= MinSeed
    ensures forall i :: 0 <= i < |s| ==> m <= Cases(s[i])
    ensures m == MinSeed || exists i :: 0 <= i < |s| && Cases(s[i]) == m
  {
    if s == [] then MinSeed
    else
      var m := MinCases(s[..|s| - 1]);
      var n := Cases(s[|s| - 1]);
      if n < m then n else m
  }

  /** Where the scan leaves `max`: the greatest of 0 and every count. */
  function MaxCases(s: seq<SearchResult>): (m: int)
    requires AllTagged(s)
    ensures m >= MaxSeed
    ensures forall i :: 0 <= i < |s| ==> Cases(s[i]) <= m
    ensures m == MaxSeed || exists i :: 0 <= i < |s| && Cases(s[i]) == m
  {
    if s == [] then MaxSeed
    else
      var m := MaxCases(s[..|s| - 1]);
      var n := Cases(s[|s| - 1]);
      if n > m then n else m
  }

  /** The `forEach` that updates `min` and `max`. */
  method ScanCaseBounds(searchResults: seq<SearchResult>) returns (min: int, max: int)
    requires AllTagged(searchResults)
    ensures min == MinCases(searchResults) && max == MaxCases(searchResults)
  {
    min, max := MinSeed, MaxSeed;
    for i := 0 to |searchResults|
      invariant min == MinCases(searchResults[..i])
      invariant max == MaxCases(searchResults[..i])
    {
      var numCases := Cases(searchResults[i]);
      if numCases < min {
        min := numCases;
      }
      if numCases > max {
        max := numCases;
      }
      assert searchResults[..i + 1][..i] == searchResults[..i];
    }
    assert searchResults[..|searchResults|] == searchResults;
  }

  /** `1 - (numCases - min) / (max - min)`, for `max > min`. */
  function Shade(numCases: int, min: int, max: int): (shade: real)
    requires min < max
    ensures min <= numCases <= max ==> 0.0 <= shade <= 1.0
    ensures numCases == max ==> shade == 0.0
    ensures numCases == min ==> shade == 1.0
  {
    1.0 - (numCases - min) as real / (max - min) as real
  }

  /** A larger case count never gets a lighter shade. */
  lemma ShadeAntitone(a: int, b: int, min: int, max: int)
    requires min < max && a <= b
    ensures Shade(b, min, max) <= Shade(a, min, max)
  {
    var d := (max - min) as real;
    assert (a - min) as real / d <= (b - min) as real / d;
  }

  /** `normalizeColors(searchResults)`, for inputs whose counts do not all
      equal the scan's bounds (where JavaScript computes 0 / 0). */
  method NormalizeColors(searchResults: seq<SearchResult>) returns (colored: seq<Colored>)
    requires AllTagged(searchResults)
    requires MinCases(searchResults) != MaxCases(searchResults)
    ensures |colored| == |searchResults|
    ensures forall i :: 0 <= i < |searchResults| ==> colored[i].result == searchResults[i]
    ensures forall i :: 0 <= i < |searchResults| ==>
              colored[i].shade == Shade(Cases(searchResults[i]), MinCases(searchResults), MaxCases(searchResults))
    ensures forall i :: 0 <= i < |colored| ==> 0.0 <= colored[i].shade <= 1.0
    ensures forall i :: 0 <= i < |searchResults| && Cases(searchResults[i]) == MaxCases(searchResults) ==>
              colored[i].shade == 0.0
    ensures forall i :: 0 <= i < |searchResults| && Cases(searchResults[i]) == MinCases(searchResults) ==>
              colored[i].shade == 1.0
    ensures forall i, j ::
              0 <= i < |searchResults| && 0 <= j < |searchResults| && Cases(searchResults[i]) <= Cases(searchResults[j])
              ==> colored[j].shade <= colored[i].shade
  {
    var min, max := ScanCaseBounds(searchResults);
    colored := seq(|searchResults|, i requires 0 <= i < |searchResults| =>
      Colored(searchResults[i], Shade(Cases(searchResults[i]), min, max)));
    forall i, j | 0 <= i < |searchResults| && 0 <= j < |searchResults| &&
                  Cases(searchResults[i]) <= Cases(searchResults[j])
      ensures colored[j].shade <= colored[i].shade
    {
      ShadeAntitone(Cases(searchResults[i]), Cases(searchResults[j]), min, max);
    }
  }
}
