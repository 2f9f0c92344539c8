// Nearest-candidate selection of the geographic matcher.
//
// The great-circle (Haversine) distance is kept abstract: every operation takes
// the distance as a parameter `dist`, so the results below hold for whatever
// the distance computes and depend only on how distances compare.

module GeoMatcher {

  /** A (latitude, longitude) pair in decimal degrees; the range is not checked. */
  datatype GeoLocation = GeoLocation(lat: real, lon: real)

  /** The distance between two locations, as `haversine_distance` computes it. */
  type Distance = (GeoLocation, GeoLocation) -> real

  /** The one error of the search: it was given no candidates. */
  datatype Error = EmptyCandidates

  datatype Result<T> = Ok(value: T) | Err(error: Error)

  /** Index `k` is the first nearest of the first `n` candidates: no candidate
      among them is nearer to `current`, and every one before it is farther. */
  predicate IsFirstNearest(current: GeoLocation, candidates: seq<GeoLocation>, dist: Distance, n: nat, k: nat)
  {
    k < n <= |candidates| &&
    (forall j :: 0 <= j < n ==> dist(current, candidates[k]) <= dist(current, candidates[j])) &&
    (forall j :: 0 <= j < k ==> dist(current, candidates[k]) < dist(current, candidates[j]))
  }

  /** The index the scan holds after looking at the first `n` candidates: it
      starts at the first one and moves to a later one only when that one is
      strictly nearer. */
  function BestIndex(current: GeoLocation, candidates: seq<GeoLocation>, dist: Distance, n: nat): (k: nat)
    requires 0 < n <= |candidates|
    ensures IsFirstNearest(current, candidates, dist, n, k)
    decreases n
  {
    if n == 1 then 0
    else
      var k := BestIndex(current, candidates, dist, n - 1);
      if dist(current, candidates[n - 1]) < dist(current, candidates[k]) then n - 1 else k
  }

  /** The result of `find_closest_location`: an error on an empty list, else the
      first candidate among the nearest ones. */
  function FindClosest(current: GeoLocation, candidates: seq<GeoLocation>, dist: Distance): (r: Result<GeoLocation>)
    ensures r.Err? <==> |candidates| == 0
    ensures r.Err? ==> r.error == EmptyCandidates
    ensures r.Ok? ==> r.value in candidates
    ensures r.Ok? ==> forall j :: 0 <= j < |candidates| ==> dist(current, r.value) <= dist(current, candidates[j])
    ensures r.Ok? ==> exists k: nat :: IsFirstNearest(current, candidates, dist, |candidates|, k) && r.value == candidates[k]
    ensures |candidates| == 1 ==> r == Ok(candidates[0])
  {
    if |candidates| == 0 then Err(EmptyCandidates)
    else Ok(candidates[BestIndex(current, candidates, dist, |candidates|)])
  }

  /** The linear scan of `find_closest_location`. The method has no `modifies`
      clause, so the candidate list is only read. */
  method FindClosestLocation(current: GeoLocation, candidates: array<GeoLocation>, dist: Distance)
    returns (r: Result<GeoLocation>)
    ensures r == FindClosest(current, candidates[..], dist)
  {
    if candidates.Length == 0 {
      return Err(EmptyCandidates);
    }
    ghost var all := candidates[..];
    var closest := candidates[0];
    var minDistance := dist(current, closest);
    ghost var best := 0;
    var i := 1;
    while i < candidates.Length
      invariant 1 <= i <= candidates.Length
      invariant best == BestIndex(current, all, dist, i)
      invariant closest == all[best]
      invariant minDistance == dist(current, closest)
    {
      var location := candidates[i];
      var distance := dist(current, location);
      if distance < minDistance {
        minDistance := distance;
        closest := location;
        best := i;
      }
      i := i + 1;
    }
    return Ok(closest);
  }

  /** The first nearest index is unique: the scan's index is the only index
      that has the property. */
  lemma BestIndexIsTheFirstNearest(current: GeoLocation, candidates: seq<GeoLocation>, dist: Distance, n: nat, k: nat)
    requires 0 < n <= |candidates|
    ensures IsFirstNearest(current, candidates, dist, n, k) <==> k == BestIndex(current, candidates, dist, n)
  {
  }

  /** The scan's index after `n` candidates depends only on those `n`. */
  lemma BestIndexOfPrefix(current: GeoLocation, a: seq<GeoLocation>, b: seq<GeoLocation>, dist: Distance, n: nat)
    requires 0 < n <= |a| && n <= |b|
    requires a[..n] == b[..n]
    ensures BestIndex(current, a, dist, n) == BestIndex(current, b, dist, n)
  {
  }

  /** Tie-break: a candidate added at the end that is not strictly nearer than
      the current result, an equally near one included, never replaces it. */
  lemma NoNearerCandidateKeepsResult(current: GeoLocation, candidates: seq<GeoLocation>, dist: Distance, location: GeoLocation)
    requires |candidates| > 0
    requires dist(current, FindClosest(current, candidates, dist).value) <= dist(current, location)
    ensures FindClosest(current, candidates + [location], dist) == FindClosest(current, candidates, dist)
  {
    var n := |candidates|;
    var extended := candidates + [location];
    assert extended[..n] == candidates[..n];
    BestIndexOfPrefix(current, extended, candidates, dist, n);
    assert extended[n] == location;
  }

  /** Appending a strictly nearer candidate makes it the result. */
  lemma NearerCandidateReplacesResult(current: GeoLocation, candidates: seq<GeoLocation>, dist: Distance, location: GeoLocation)
    requires |candidates| > 0
    requires dist(current, location) < dist(current, FindClosest(current, candidates, dist).value)
    ensures FindClosest(current, candidates + [location], dist) == Ok(location)
  {
  }

  /** A candidate strictly nearer than every other one is the result. */
  lemma StrictlyNearestIsFound(current: GeoLocation, candidates: seq<GeoLocation>, dist: Distance, i: nat)
    requires i < |candidates|
    requires forall j :: 0 <= j < |candidates| && j != i ==> dist(current, candidates[i]) < dist(current, candidates[j])
    ensures FindClosest(current, candidates, dist) == Ok(candidates[i])
  {
  }

  /** Exact match: when the reference location is itself a candidate, is at
      distance 0 from itself, and every other candidate is at a positive
      distance, the reference location is the result. */
  lemma ExactMatchIsFound(current: GeoLocation, candidates: seq<GeoLocation>, dist: Distance)
    requires current in candidates
    requires dist(current, current) == 0.0
    requires forall j :: 0 <= j < |candidates| && candidates[j] != current ==> dist(current, candidates[j]) > 0.0
    ensures FindClosest(current, candidates, dist) == Ok(current)
  {
  }

  /** Order matters only for ties: two lists holding the same locations, in
      any order and with any repetitions, give results at the same distance. */
  lemma NearestDistanceIndependentOfOrder(current: GeoLocation, a: seq<GeoLocation>, b: seq<GeoLocation>, dist: Distance)
    requires |a| > 0
    requires forall x :: x in a <==> x in b
    ensures FindClosest(current, b, dist).Ok?
    ensures dist(current, FindClosest(current, a, dist).value) == dist(current, FindClosest(current, b, dist).value)
  {
    assert a[0] in b;
    var ra := FindClosest(current, a, dist).value;
    var rb := FindClosest(current, b, dist).value;
    var ia :| 0 <= ia < |a| && a[ia] == rb;
    var ib :| 0 <= ib < |b| && b[ib] == ra;
    assert dist(current, ra) <= dist(current, a[ia]);
    assert dist(current, rb) <= dist(current, b[ib]);
  }
}
