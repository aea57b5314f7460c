/**
 * The nearby-attractions query: the catalog stably sorted by distance from
 * a location, then cut to its first five entries. The stable sort is
 * modelled on catalog positions: positions are ordered by (distance,
 * position), a strict total order, so the sorted arrangement is unique and
 * equal ties keep catalog order.
 */
module Nearby {
  import opened GpsTypes

  /** How many attractions the query returns at most. */
  const NearbyLimit: nat := 5

  function Min(a: int, b: int): int
  {
    if a <= b then a else b
  }

  /** Every entry of s is a position of keys. */
  predicate InRange(keys: seq<real>, s: seq<nat>)
  {
    forall p :: 0 <= p < |s| ==> s[p] < |keys|
  }

  /** Position i sorts strictly before position j: nearer, or equally near and earlier in the catalog. */
  predicate Before(keys: seq<real>, i: nat, j: nat)
    requires i < |keys| && j < |keys|
  {
    keys[i] < keys[j] || (keys[i] == keys[j] && i < j)
  }

  /** s lists positions in strictly increasing (distance, position) order. */
  predicate SortedBy(keys: seq<real>, s: seq<nat>)
    requires InRange(keys, s)
  {
    forall p, q :: 0 <= p < q < |s| ==> Before(keys, s[p], s[q])
  }

  /** Inserts position x into a sorted list of positions. */
  function Insert(keys: seq<real>, x: nat, s: seq<nat>): (r: seq<nat>)
    requires x < |keys| && InRange(keys, s) && SortedBy(keys, s) && x !in s
    ensures |r| == |s| + 1
    ensures forall e :: e in r <==> e == x || e in s
    ensures InRange(keys, r) && SortedBy(keys, r)
    decreases |s|
  {
    if s == [] then [x]
    else if Before(keys, x, s[0]) then
      assert forall q :: 0 < q < |s| ==> Before(keys, s[0], s[q]);
      [x] + s
    else
      assert Before(keys, s[0], x);
      assert forall e :: e in s[1..] ==> e in s;
      assert forall q :: 0 < q < |s| ==> Before(keys, s[0], s[q]);
      var rest := Insert(keys, x, s[1..]);
      assert forall e :: e in rest ==> Before(keys, s[0], e);
      assert forall q :: 0 <= q < |rest| ==> ([s[0]] + rest)[q + 1] == rest[q];
      [s[0]] + rest
  }

  /** Positions 0 .. n-1 in (distance, position) order. */
  function SortIndices(keys: seq<real>, n: nat): (r: seq<nat>)
    requires n <= |keys|
    ensures |r| == n
    ensures forall e: nat :: e in r <==> e < n
    ensures InRange(keys, r) && SortedBy(keys, r)
  {
    if n == 0 then [] else Insert(keys, n - 1, SortIndices(keys, n - 1))
  }

  /**
   * The positions the query returns: min(5, n) of them, in (distance,
   * position) order, and every position left out sorts after every one
   * returned.
   */
  function NearestIndices(keys: seq<real>): (r: seq<nat>)
    ensures |r| == Min(NearbyLimit, |keys|)
    ensures InRange(keys, r) && SortedBy(keys, r)
    ensures forall p, q :: 0 <= p < q < |r| ==> r[p] != r[q]
    ensures forall i :: 0 <= i < |keys| && i !in r ==> forall p :: 0 <= p < |r| ==> Before(keys, r[p], i)
  {
    var sorted := SortIndices(keys, |keys|);
    var r := sorted[..Min(NearbyLimit, |keys|)];
    assert forall i :: 0 <= i < |keys| && i !in r ==> forall p :: 0 <= p < |r| ==> Before(keys, r[p], i) by {
      forall i, p | 0 <= i < |keys| && i !in r && 0 <= p < |r| ensures Before(keys, r[p], i) {
        assert i in sorted;
        var q :| 0 <= q < |sorted| && sorted[q] == i;
        assert q >= |r|;
      }
    }
    r
  }

  /** Distance from loc to each catalog attraction, in catalog order. */
  function DistanceKeys(catalog: seq<Attraction>, distance: (Location, Location) -> real, loc: Location): (keys: seq<real>)
  {
    seq(|catalog|, i requires 0 <= i < |catalog| => distance(loc, catalog[i].location))
  }

  /**
   * The five (or fewer) attractions nearest to loc, as the catalog
   * attractions at the positions NearestIndices picks.
   */
  function NearestAttractions(catalog: seq<Attraction>, distance: (Location, Location) -> real, loc: Location): (r: seq<Attraction>)
    ensures |r| == Min(NearbyLimit, |catalog|)
    ensures forall p :: 0 <= p < |r| ==> r[p] in catalog
    ensures var idx := NearestIndices(DistanceKeys(catalog, distance, loc));
      |idx| == |r| && forall p :: 0 <= p < |r| ==> idx[p] < |catalog| && r[p] == catalog[idx[p]]
  {
    var idx := NearestIndices(DistanceKeys(catalog, distance, loc));
    seq(|idx|, p requires 0 <= p < |idx| => catalog[idx[p]])
  }

  /** The attractions come out in non-decreasing distance from loc. */
  lemma NearestAttractionsSorted(catalog: seq<Attraction>, distance: (Location, Location) -> real, loc: Location)
    ensures var r := NearestAttractions(catalog, distance, loc);
      forall p, q :: 0 <= p < q < |r| ==> distance(loc, r[p].location) <= distance(loc, r[q].location)
  {
    var keys := DistanceKeys(catalog, distance, loc);
    var idx := NearestIndices(keys);
    var r := NearestAttractions(catalog, distance, loc);
    forall p, q | 0 <= p < q < |r| ensures distance(loc, r[p].location) <= distance(loc, r[q].location) {
      assert Before(keys, idx[p], idx[q]);
    }
  }

  /** Equally near attractions come out in catalog order (the sort is stable). */
  lemma NearestAttractionsStable(catalog: seq<Attraction>, distance: (Location, Location) -> real, loc: Location)
    ensures var idx := NearestIndices(DistanceKeys(catalog, distance, loc));
      var r := NearestAttractions(catalog, distance, loc);
      forall p, q :: 0 <= p < q < |r| && distance(loc, r[p].location) == distance(loc, r[q].location) ==> idx[p] < idx[q]
  {
    var keys := DistanceKeys(catalog, distance, loc);
    var idx := NearestIndices(keys);
    var r := NearestAttractions(catalog, distance, loc);
    forall p, q | 0 <= p < q < |r| && distance(loc, r[p].location) == distance(loc, r[q].location) ensures idx[p] < idx[q] {
      assert Before(keys, idx[p], idx[q]);
    }
  }

  /** No catalog attraction left out of the answer is nearer to loc than one in it. */
  lemma NearestAttractionsClosest(catalog: seq<Attraction>, distance: (Location, Location) -> real, loc: Location)
    ensures var r := NearestAttractions(catalog, distance, loc);
      forall a, p :: a in catalog && a !in r && 0 <= p < |r| ==> distance(loc, r[p].location) <= distance(loc, a.location)
  {
    var keys := DistanceKeys(catalog, distance, loc);
    var idx := NearestIndices(keys);
    var r := NearestAttractions(catalog, distance, loc);
    forall a, p | a in catalog && a !in r && 0 <= p < |r|
      ensures distance(loc, r[p].location) <= distance(loc, a.location)
    {
      var i :| 0 <= i < |catalog| && catalog[i] == a;
      assert i !in idx by {
        forall q | 0 <= q < |idx| ensures idx[q] != i {
          assert r[q] == catalog[idx[q]];
        }
      }
      assert Before(keys, idx[p], i);
    }
  }
}
