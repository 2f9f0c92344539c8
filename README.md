# Geographic matcher: nearest-candidate selection

This project models `find_closest_location` in `Assignment1/src/geo_matcher.py`.
Given a reference location and a list of candidate (latitude, longitude) pairs,
it returns the candidate nearest to the reference. An empty list is an error.
Otherwise the scan starts from the first candidate. It moves to a later
candidate only when that one is strictly nearer, so among equally near
candidates the first one in list order wins.

Everything is in `geo_matcher.dfy`, module `GeoMatcher`:

- `GeoLocation` is the (latitude, longitude) pair. Its coordinates are `real`,
  so they are always finite.
- `Distance` is the type of the distance function. Every operation takes the
  distance (`haversine_distance` in the source) as a parameter `dist`. `dist`
  is modelled as a total, deterministic real-valued function. The results hold
  for every such function.
- `Result` with the single error `EmptyCandidates` stands for the `ValueError`
  raised on an empty list.
- `IsFirstNearest` is the declarative definition of the answer: an index that
  is at most as far as every candidate and strictly nearer than every earlier one.
- `BestIndex` is the scan as a recursive function over the number of
  candidates seen. `FindClosest` is the whole operation as a function.
- `FindClosestLocation` is the source's loop as a method over an `array` (a
  Python list is a mutable object passed by reference). It is proved equal to
  `FindClosest`. It has no `modifies` clause, so Dafny's frame rule guarantees
  that the candidate list is only read.

## Model

| member | source | states |
|---|---|---|
| `GeoMatcher.BestIndex` | Assignment1/src/geo_matcher.py:90-97 | after the first n candidates, the index the scan holds is a first nearest one: no candidate among the n is nearer, and every candidate before it is strictly farther |
| `GeoMatcher.FindClosest` | Assignment1/src/geo_matcher.py:87-99 | the result is an error exactly when the list is empty, and that error is EmptyCandidates; otherwise the result is a member of the list, at most as far as every candidate, and the location at a first nearest index; a one-element list gives its element |
| `GeoMatcher.FindClosestLocation` | Assignment1/src/geo_matcher.py:63-99 | the loop, which keeps the current closest location and its distance and replaces them only on a strictly smaller distance, returns exactly `FindClosest` of the list's contents, without changing the list |
| `GeoMatcher.BestIndexIsTheFirstNearest` | Assignment1/src/geo_matcher.py:93-97 | an index is a first nearest one if and only if it is the scan's index, so the tie-break rule fixes the answer uniquely |
| `GeoMatcher.BestIndexOfPrefix` | Assignment1/src/geo_matcher.py:93-97 | the scan's index after n candidates depends only on those first n candidates |
| `GeoMatcher.NoNearerCandidateKeepsResult` | Assignment1/src/geo_matcher.py:95-97 | appending a candidate that is not strictly nearer than the current result, an equally near one included, leaves the result unchanged |
| `GeoMatcher.NearerCandidateReplacesResult` | Assignment1/src/geo_matcher.py:95-97 | appending a candidate strictly nearer than the current result makes it the new result |
| `GeoMatcher.StrictlyNearestIsFound` | Assignment1/src/geo_matcher.py:93-97 | a candidate strictly nearer than every other candidate is the result (the nearest-selection test at Assignment1/test/test_geo_matcher.py:49-58 is an instance) |
| `GeoMatcher.ExactMatchIsFound` | Assignment1/test/test_geo_matcher.py:42-46 | when the reference location is itself a candidate, is at distance 0 from itself, and every other candidate is at a positive distance, the result is the reference location |
| `GeoMatcher.NearestDistanceIndependentOfOrder` | Assignment1/src/geo_matcher.py:87-99 | two lists with the same locations, in any order and with any repetitions, give results at the same distance: order only decides between ties |

## Left out

- The body of `haversine_distance` (Assignment1/src/geo_matcher.py:21-60) is not modelled. It is floating-point trigonometry. It becomes the parameter `dist`, a total, deterministic real-valued function.
- The identity of the distance is exact: for finite equal points, `dlat` and `dlon` are 0.0, so `a` is 0.0 and the result is exactly 0.0 (Assignment1/src/geo_matcher.py:51-60). The hypothesis `dist(current, current) == 0.0` of `ExactMatchIsFound` therefore holds for the source's distance. Symmetry holds only within a float tolerance, because exact symmetry needs the platform's `sin` to be exactly odd. No lemma relies on symmetry.
- FindClosest and FindClosestLocation: non-finite coordinates and any exception raised by `haversine_distance` are not modelled. Python's `math.sin` raises `ValueError` for an infinite argument (Assignment1/src/geo_matcher.py:55). Rounding might also push `a` above 1, so that `math.sqrt(1 - a)` raises (Assignment1/src/geo_matcher.py:58). In the source such an exception propagates out of `find_closest_location` at line 91 or 94. The model's `Err` stands only for the empty list.
- Floating point: distances are `real`. NaN is not modelled. In the source a NaN distance never compares smaller, which can change which candidate is kept.
- Python truthiness: `not candidate_locations` is also true for `None`. The model's array cannot be null, so only the empty list leads to the error.
- The profiling scripts (Assignment1/tools/memory_profile.py, Assignment1/tools/cpu_profile.py) and the socket demo (Assignment1/socket_demo/sender.py) are left out. They are I/O and timing glue with no selection logic.
