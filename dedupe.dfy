/** The `filter` callback of the search pipeline: a result survives when it
    has a neighbourhood and no EARLIER result of the unfiltered list has an
    address containing the first comma-separated segment of its own
    address. Earlier results count whether or not they survive. */
module Dedupe {
  import opened Places
  import opened JsStrings

  /** `res.address.split(',')[0]` */
  function Street(address: string): (street: string)
    ensures StartsWith(address, street) && ',' !in street
    ensures |street| == |address| || address[|street|] == ','
  {
    Split(address, ',')[0]
  }

  /** The callback's verdict for `self[k]`. */
  predicate Kept(self: seq<SearchResult>, k: nat)
    requires k < |self|
  {
    HasNeighborhood(self[k]) &&
    forall i :: 0 <= i < k ==> !Includes(self[i].address, Street(self[k].address))
  }

  /** The callback: `return false` on a missing neighbourhood or at the
      first earlier address that includes this one's first segment. */
  method KeepAt(self: seq<SearchResult>, index: nat) returns (keep: bool)
    requires index < |self|
    ensures keep == Kept(self, index)
  {
    var res := self[index];
    if !HasNeighborhood(res) {
      return false;
    }
    var street := Split(res.address, ',')[0];
    for i := 0 to index
      invariant forall j :: 0 <= j < i ==> !Includes(self[j].address, street)
    {
      if Includes(self[i].address, street) {
        return false;
      }
    }
    return true;
  }

  /** The survivors among `self[..n]`, in order. */
  function Survivors(self: seq<SearchResult>, n: nat): (kept: seq<SearchResult>)
    requires n <= |self|
    ensures |kept| <= n
    ensures forall m :: 0 <= m < |kept| ==> HasNeighborhood(kept[m])
  {
    if n == 0 then []
    else Survivors(self, n - 1) + (if Kept(self, n - 1) then [self[n - 1]] else [])
  }

  /** The result of `self.filter(...)`. */
  function Deduped(self: seq<SearchResult>): seq<SearchResult> {
    Survivors(self, |self|)
  }

  /** `self.filter(callback)`: the callback asked of every index in turn. */
  method DedupeResults(self: seq<SearchResult>) returns (kept: seq<SearchResult>)
    ensures kept == Deduped(self)
  {
    kept := [];
    for index := 0 to |self|
      invariant kept == Survivors(self, index)
    {
      var keep := KeepAt(self, index);
      if keep {
        kept := kept + [self[index]];
      }
    }
  }

  /** The positions in `self[..n]` that survive, ascending: exactly those
      for which the callback says keep. */
  function KeptIndices(self: seq<SearchResult>, n: nat): (ks: seq<nat>)
    requires n <= |self|
    ensures forall m :: 0 <= m < |ks| ==> ks[m] < n && Kept(self, ks[m])
    ensures forall m, m' :: 0 <= m < m' < |ks| ==> ks[m] < ks[m']
    ensures forall k :: 0 <= k < n && Kept(self, k) ==> k in ks
  {
    if n == 0 then []
    else KeptIndices(self, n - 1) + (if Kept(self, n - 1) then [n - 1] else [])
  }

  /** The filter's output is `self` read at the surviving positions. */
  lemma {:induction false} SurvivorsSelect(self: seq<SearchResult>, n: nat)
    requires n <= |self|
    ensures |Survivors(self, n)| == |KeptIndices(self, n)|
    ensures forall m :: 0 <= m < |KeptIndices(self, n)| ==>
              Survivors(self, n)[m] == self[KeptIndices(self, n)[m]]
  {
    if n > 0 {
      SurvivorsSelect(self, n - 1);
    }
  }

  /** The filter's output is an order-preserving subsequence of its input
      (through the ascending index map `KeptIndices`), and element k of the
      input is in that map iff the callback keeps it. */
  lemma DedupedIsSubsequence(self: seq<SearchResult>)
    ensures |Deduped(self)| == |KeptIndices(self, |self|)|
    ensures forall m :: 0 <= m < |Deduped(self)| ==>
              Deduped(self)[m] == self[KeptIndices(self, |self|)[m]]
    ensures forall k :: 0 <= k < |self| ==> (k in KeptIndices(self, |self|) <==> Kept(self, k))
  {
    SurvivorsSelect(self, |self|);
  }

  /** When the callback keeps every element, the filter changes nothing. */
  lemma {:induction false} SurvivorsAllKept(self: seq<SearchResult>, n: nat)
    requires n <= |self|
    requires forall k :: 0 <= k < |self| ==> Kept(self, k)
    ensures Survivors(self, n) == self[..n]
  {
    if n > 0 {
      SurvivorsAllKept(self, n - 1);
      assert self[..n] == self[..n - 1] + [self[n - 1]];
    }
  }

  /** Filtering a second time removes nothing more. */
  lemma DedupedIdempotent(self: seq<SearchResult>)
    ensures Deduped(Deduped(self)) == Deduped(self)
  {
    var out := Deduped(self);
    var ks := KeptIndices(self, |self|);
    DedupedIsSubsequence(self);
    forall m | 0 <= m < |out|
      ensures Kept(out, m)
    {
      assert Kept(self, ks[m]);
      forall i | 0 <= i < m
        ensures !Includes(out[i].address, Street(out[m].address))
      {
        assert out[i] == self[ks[i]] && ks[i] < ks[m];
      }
    }
    SurvivorsAllKept(out, |out|);
    assert out[..|out|] == out;
  }

  /** A result with an earlier copy of its address, dropped or not, does
      not survive. */
  lemma RepeatedAddressDropped(self: seq<SearchResult>, i: nat, k: nat)
    requires i < k < |self|
    requires self[i].address == self[k].address
    ensures !Kept(self, k)
  {
    IncludesPrefix(self[i].address, Street(self[k].address));
  }

  /** An address that is empty or starts with a comma has an empty first
      segment, which every string includes: such a result can survive only
      at index 0. */
  lemma EmptyStreetOnlyFirst(self: seq<SearchResult>, k: nat)
    requires 0 < k < |self|
    requires self[k].address == [] || self[k].address[0] == ','
    ensures !Kept(self, k)
  {
    FirstSegmentEmpty(self[k].address, ',');
    assert StartsWith(self[0].address, []);
  }

  /** A result that is itself dropped, for lack of a neighbourhood, still
      suppresses a later result whose first address segment it contains. */
  lemma DroppedStillSuppresses(loc: LatLng)
    ensures var dropped := SearchResult("p0", loc, "x", "a,b", None);
            var later := SearchResult("p1", loc, "y", "a", Some(Region("n", 3)));
            Deduped([dropped, later]) == []
  {
    var dropped := SearchResult("p0", loc, "x", "a,b", None);
    var later := SearchResult("p1", loc, "y", "a", Some(Region("n", 3)));
    var self := [dropped, later];
    assert FirstSegment("a"[1..], ',') == [];
    assert FirstSegment("a", ',') == "a";
    assert Street(later.address) == "a";
    assert "a,b"[..1] == "a";
    assert Includes(self[0].address, Street(later.address));
    assert !Kept(self, 1) && !Kept(self, 0);
    assert Deduped(self) == Survivors(self, 1);
  }
}
