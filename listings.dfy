/** Functions over a list of places that state what the engine's operations
    compute: projections, first-match search, the orders the engine sorts
    by, and the stable sort that ranking relies on. They read the places'
    fields in the current heap. */
module Listings {
  import opened Optional
  import opened JavaStrings
  import opened Places
  import opened PopulationComparator

  function Zipcodes(ps: seq<Place>): (zs: seq<string>)
    reads ps
    ensures |zs| == |ps| && forall i :: 0 <= i < |ps| ==> zs[i] == ps[i].zipcode
  {
    if ps == [] then [] else [ps[0].zipcode] + Zipcodes(ps[1..])
  }

  function Towns(ps: seq<Place>): (ts: seq<string>)
    reads set p | p in ps
    ensures |ts| == |ps| && forall i :: 0 <= i < |ps| ==> ts[i] == ps[i].town
  {
    if ps == [] then [] else [ps[0].town] + Towns(ps[1..])
  }

  /** The least index whose key equals `key` ignoring case, or -1 when no key
      does. */
  function FirstIgnoringCase(keys: seq<string>, key: string): (i: int)
    ensures -1 <= i < |keys|
    ensures 0 <= i ==> EqualsIgnoreCase(keys[i], key)
    ensures forall k :: 0 <= k < |keys| && (i == -1 || k < i) ==> !EqualsIgnoreCase(keys[k], key)
  {
    if keys == [] then -1
    else if EqualsIgnoreCase(keys[0], key) then 0
    else
      var j := FirstIgnoringCase(keys[1..], key);
      if j == -1 then -1 else j + 1
  }

  /** What `lookupByZipcode` returns: `null` for a `null` or empty argument,
      else the first place whose zipcode equals it ignoring case, else
      `null`. */
  function Lookup(ps: seq<Place>, zipcode: Option<string>): (r: Place?)
    reads ps
    ensures r == null <==>
      zipcode == None || zipcode.value == "" ||
      forall k :: 0 <= k < |ps| ==> !EqualsIgnoreCase(ps[k].zipcode, zipcode.value)
    ensures r != null ==>
      exists i :: 0 <= i < |ps| && ps[i] == r && EqualsIgnoreCase(ps[i].zipcode, zipcode.value) &&
        forall k :: 0 <= k < i ==> !EqualsIgnoreCase(ps[k].zipcode, zipcode.value)
  {
    if zipcode == None || zipcode.value == "" then null
    else
      var i := FirstIgnoringCase(Zipcodes(ps), zipcode.value);
      if i == -1 then null else ps[i]
  }

  /** No two places share a zipcode (compared exactly, as `addPlace` does). */
  predicate DistinctZipcodes(ps: seq<Place>)
    reads ps
  {
    forall i, j :: 0 <= i < j < |ps| ==> ps[i].zipcode != ps[j].zipcode
  }

  /** Towns are non-decreasing under `compareTo`: the order `sortByTownName`
      produces. */
  predicate AscendingByTown(ps: seq<Place>)
    reads ps
  {
    forall i, j :: 0 <= i < j < |ps| ==> CompareTo(ps[i].town, ps[j].town) <= 0
  }

  /** The towns from index `lo` on are in order under `compareTo`. */
  predicate AscendingByTownFrom(ps: seq<Place>, lo: int)
    reads ps
  {
    forall a, b :: 0 <= lo <= a < b < |ps| ==> CompareTo(ps[a].town, ps[b].town) <= 0
  }

  /** No town before index `lo` is greater than a town from `lo` on. */
  predicate PartitionedByTownAt(ps: seq<Place>, lo: int)
    reads ps
  {
    forall a, b :: 0 <= a < lo <= b < |ps| ==> CompareTo(ps[a].town, ps[b].town) <= 0
  }

  /** The town at index `j` is a greatest town of `ps[..j + 1]`. */
  predicate GreatestTownAt(ps: seq<Place>, j: int)
    reads ps
    requires 0 <= j < |ps|
  {
    forall a :: 0 <= a < j ==> CompareTo(ps[a].town, ps[j].town) <= 0
  }

  /** `ps` is a permutation of `orig` that keeps, for every town, the order
      of the places with that town: what a stable sort by town produces. */
  ghost predicate StableRearrangement(ps: seq<Place>, orig: seq<Place>)
    reads ps, orig
  {
    multiset(ps) == multiset(orig) &&
    forall town :: WithTown(ps, town) == WithTown(orig, town)
  }

  /** One step of a bubble-sort pass when the neighbours are out of order:
      swapping them carries the greatest town one place to the right, keeps
      the sorted suffix from `lo` and its partition, and stays a stable
      rearrangement of the original list. */
  lemma BubbleSwapStep(ps: seq<Place>, j: int, lo: int, orig: seq<Place>)
    requires 0 <= j && j + 1 < lo <= |ps|
    requires AscendingByTownFrom(ps, lo) && PartitionedByTownAt(ps, lo) && GreatestTownAt(ps, j)
    requires StableRearrangement(ps, orig)
    requires CompareTo(ps[j].town, ps[j + 1].town) > 0
    ensures var swapped := ps[j := ps[j + 1]][j + 1 := ps[j]];
      AscendingByTownFrom(swapped, lo) && PartitionedByTownAt(swapped, lo) &&
      GreatestTownAt(swapped, j + 1) && StableRearrangement(swapped, orig)
  {
    var swapped := ps[j := ps[j + 1]][j + 1 := ps[j]];
    CompareToAntisymmetric(ps[j].town, ps[j + 1].town);
    forall town
      ensures WithTown(swapped, town) == WithTown(orig, town)
    {
      SwapKeepsSameTownOrder(ps, j, town);
    }
  }

  /** One step of a bubble-sort pass when the neighbours are in order: the
      right one is now the greatest so far. */
  lemma BubbleKeepStep(ps: seq<Place>, j: int)
    requires 0 <= j && j + 1 < |ps|
    requires GreatestTownAt(ps, j)
    requires CompareTo(ps[j].town, ps[j + 1].town) <= 0
    ensures GreatestTownAt(ps, j + 1)
  {
    forall a | 0 <= a < j + 1
      ensures CompareTo(ps[a].town, ps[j + 1].town) <= 0
    {
      if a < j {
        CompareToTransitive(ps[a].town, ps[j].town, ps[j + 1].town);
      }
    }
  }

  /** The end of a pass: the greatest town of the unsorted prefix has
      reached its last index, which joins the sorted suffix. */
  lemma BubblePassEnd(ps: seq<Place>, lo: int)
    requires 1 <= lo <= |ps|
    requires AscendingByTownFrom(ps, lo) && PartitionedByTownAt(ps, lo) && GreatestTownAt(ps, lo - 1)
    ensures AscendingByTownFrom(ps, lo - 1) && PartitionedByTownAt(ps, lo - 1)
  {
  }

  /** A suffix from index 1 that is sorted and bounds the first town below
      makes the whole list sorted. */
  lemma SortedWhenPartitionedAtOne(ps: seq<Place>)
    requires |ps| <= 1 || (AscendingByTownFrom(ps, 1) && PartitionedByTownAt(ps, 1))
    ensures AscendingByTown(ps)
  {
  }

  /** Towns at indices `low..high` are non-decreasing under
      `compareToIgnoreCase`: the order binary search needs. */
  predicate AscendingIgnoringCase(ps: seq<Place>, low: int, high: int)
    reads ps
  {
    forall i, j :: low <= i < j <= high && 0 <= i && j < |ps| ==>
      CompareToIgnoreCase(ps[i].town, ps[j].town) <= 0
  }

  /** The places whose town is exactly `town`, in list order. */
  function WithTown(ps: seq<Place>, town: string): seq<Place>
    reads ps
  {
    if ps == [] then []
    else (if ps[0].town == town then [ps[0]] else []) + WithTown(ps[1..], town)
  }

  lemma {:induction false} WithTownAppend(a: seq<Place>, b: seq<Place>, town: string)
    ensures WithTown(a + b, town) == WithTown(a, town) + WithTown(b, town)
  {
    if a == [] {
      assert a + b == b;
    } else {
      assert (a + b)[0] == a[0] && (a + b)[1..] == a[1..] + b;
      WithTownAppend(a[1..], b, town);
    }
  }

  /** Swapping two neighbours with different towns keeps, for every town,
      the order of the places with that town: the step that makes bubble
      sort stable. */
  lemma SwapKeepsSameTownOrder(ps: seq<Place>, j: int, town: string)
    requires 0 <= j < |ps| - 1
    requires ps[j].town != ps[j + 1].town
    ensures WithTown(ps[j := ps[j + 1]][j + 1 := ps[j]], town) == WithTown(ps, town)
  {
    var swapped := ps[j := ps[j + 1]][j + 1 := ps[j]];
    assert ps == ps[..j] + [ps[j], ps[j + 1]] + ps[j + 2..];
    assert swapped == ps[..j] + [ps[j + 1], ps[j]] + ps[j + 2..];
    WithTownAppend(ps[..j] + [ps[j], ps[j + 1]], ps[j + 2..], town);
    WithTownAppend(ps[..j], [ps[j], ps[j + 1]], town);
    WithTownAppend(ps[..j] + [ps[j + 1], ps[j]], ps[j + 2..], town);
    WithTownAppend(ps[..j], [ps[j + 1], ps[j]], town);
    WithTownAppend([ps[j]], [ps[j + 1]], town);
    WithTownAppend([ps[j + 1]], [ps[j]], town);
  }

  /** The populated places (`instanceof PopulatedPlace`), in list order. */
  function Populated(ps: seq<Place>): (r: seq<Place>)
    ensures forall p :: p in r ==> p in ps && p.IsPopulated()
    ensures forall p :: p in ps && p.IsPopulated() ==> p in r
    ensures |r| <= |ps|
  {
    if ps == [] then []
    else (if ps[0].IsPopulated() then [ps[0]] else []) + Populated(ps[1..])
  }

  predicate AllPopulated(ps: seq<Place>)
  {
    forall p :: p in ps ==> p.IsPopulated()
  }

  /** Inserts `p` before the first place whose population is not smaller. */
  function InsertByPopulation(p: Place, s: seq<Place>): (r: seq<Place>)
    requires p.IsPopulated() && AllPopulated(s)
    reads p, set q | q in s
    ensures multiset(r) == multiset(s) + multiset{p}
    ensures forall q :: q in r ==> q == p || q in s
  {
    if s == [] || Compare(p, s[0]) <= 0 then [p] + s
    else
      assert s == [s[0]] + s[1..];
      [s[0]] + InsertByPopulation(p, s[1..])
  }

  /** `List.sort(new PopulationComparator())`: a stable sort by the
      comparator, written as an insertion sort. */
  function SortByPopulation(ps: seq<Place>): (r: seq<Place>)
    requires AllPopulated(ps)
    reads set p | p in ps
    ensures multiset(r) == multiset(ps)
    ensures forall q :: q in r ==> q in ps
  {
    if ps == [] then []
    else
      var rest := SortByPopulation(ps[1..]);
      assert ps == [ps[0]] + ps[1..];
      InsertByPopulation(ps[0], rest)
  }

  predicate AscendingByPopulation(ps: seq<Place>)
    reads ps
  {
    forall i, j :: 0 <= i < j < |ps| ==> ps[i].population <= ps[j].population
  }

  /** The places whose population is exactly `population`, in list order. */
  function WithPopulation(ps: seq<Place>, population: int32): seq<Place>
    reads ps
  {
    if ps == [] then []
    else (if ps[0].population == population then [ps[0]] else []) + WithPopulation(ps[1..], population)
  }

  lemma {:induction false} InsertKeepsAscending(p: Place, s: seq<Place>)
    requires p.IsPopulated() && AllPopulated(s) && AscendingByPopulation(s)
    ensures AscendingByPopulation(InsertByPopulation(p, s))
  {
    if s != [] && Compare(p, s[0]) > 0 {
      InsertKeepsAscending(p, s[1..]);
      var rest := InsertByPopulation(p, s[1..]);
      forall q | q in rest
        ensures s[0].population <= q.population
      {
        assert q in multiset(rest);
        if q != p {
          assert q in s[1..];
        }
      }
    }
  }

  lemma {:induction false} InsertKeepsSamePopulationOrder(p: Place, s: seq<Place>, population: int32)
    requires p.IsPopulated() && AllPopulated(s)
    ensures WithPopulation(InsertByPopulation(p, s), population)
         == (if p.population == population then [p] else []) + WithPopulation(s, population)
  {
    if s == [] || Compare(p, s[0]) <= 0 {
      assert ([p] + s)[1..] == s;
    } else {
      InsertKeepsSamePopulationOrder(p, s[1..], population);
      assert ([s[0]] + InsertByPopulation(p, s[1..]))[1..] == InsertByPopulation(p, s[1..]);
    }
  }

  /** Sorting by population orders ascending: the smallest population
      comes first. */
  lemma {:induction false} SortByPopulationAscending(ps: seq<Place>)
    requires AllPopulated(ps)
    ensures AscendingByPopulation(SortByPopulation(ps))
  {
    if ps != [] {
      SortByPopulationAscending(ps[1..]);
      InsertKeepsAscending(ps[0], SortByPopulation(ps[1..]));
    }
  }

  /** Sorting by population is stable: places of equal population keep
      their list order. */
  lemma {:induction false} SortByPopulationStable(ps: seq<Place>, population: int32)
    requires AllPopulated(ps)
    ensures WithPopulation(SortByPopulation(ps), population) == WithPopulation(ps, population)
  {
    if ps != [] {
      SortByPopulationStable(ps[1..], population);
      InsertKeepsSamePopulationOrder(ps[0], SortByPopulation(ps[1..]), population);
    }
  }

  /** What `rankByPopulation` returns: one plus the index of the first place
      whose town equals `town` ignoring case in the populated places sorted
      by the comparator, or -1. */
  function Rank(ps: seq<Place>, town: string): (r: int)
    reads ps
    ensures r == -1 || 1 <= r <= |Populated(ps)|
  {
    var sorted := SortByPopulation(Populated(ps));
    assert forall q :: q in sorted ==> q in ps;
    SortByPopulationMembers(Populated(ps));
    var i := FirstIgnoringCase(Towns(sorted), town);
    if i == -1 then -1 else i + 1
  }

  /** `Populated` distributes over concatenation, so it can be built one
      place at a time. */
  lemma {:induction false} PopulatedAppend(a: seq<Place>, b: seq<Place>)
    ensures Populated(a + b) == Populated(a) + Populated(b)
  {
    if a == [] {
      assert a + b == b;
    } else {
      assert (a + b)[0] == a[0] && (a + b)[1..] == a[1..] + b;
      PopulatedAppend(a[1..], b);
    }
  }

  /** Extending a prefix by one place extends its populated places by that
      place exactly when it is populated. */
  lemma PopulatedExtend(ps: seq<Place>, k: int)
    requires 0 <= k < |ps|
    ensures Populated(ps[..k + 1]) == Populated(ps[..k]) + (if ps[k].IsPopulated() then [ps[k]] else [])
  {
    assert ps[..k + 1] == ps[..k] + [ps[k]];
    PopulatedAppend(ps[..k], [ps[k]]);
    assert [ps[k]][1..] == [];
  }

  /** A place whose town equals `town` ignoring case compares with any other
      place exactly as `town` does: the step binary search relies on. */
  lemma MatchComparesLikeTown(other: string, same: string, town: string)
    requires EqualsIgnoreCase(same, town)
    ensures CompareToIgnoreCase(other, town) == CompareToIgnoreCase(other, same)
    ensures CompareToIgnoreCase(same, town) == 0
  {
    EqualsIgnoreCaseIsFoldedEquality(same, town);
    CompareToIgnoreCaseZeroIffEqualsIgnoreCase(same, town);
  }

  /** On a range ascending ignoring case, once the town at `mid` compares
      greater than `town`, no place from `mid` to `high` has that town: the
      search may drop the upper half. */
  lemma NoMatchFromGreaterTown(ps: seq<Place>, low: int, high: int, mid: int, town: string)
    requires 0 <= low <= mid <= high < |ps|
    requires AscendingIgnoringCase(ps, low, high)
    requires CompareToIgnoreCase(ps[mid].town, town) > 0
    ensures forall k :: mid <= k <= high ==> !EqualsIgnoreCase(ps[k].town, town)
  {
    forall k | mid <= k <= high
      ensures !EqualsIgnoreCase(ps[k].town, town)
    {
      if EqualsIgnoreCase(ps[k].town, town) {
        MatchComparesLikeTown(ps[mid].town, ps[k].town, town);
      }
    }
  }

  /** On a range ascending ignoring case, once the town at `mid` compares
      less than `town`, no place from `low` to `mid` has that town: the
      search may drop the lower half. */
  lemma NoMatchUpToLesserTown(ps: seq<Place>, low: int, high: int, mid: int, town: string)
    requires 0 <= low <= mid <= high < |ps|
    requires AscendingIgnoringCase(ps, low, high)
    requires CompareToIgnoreCase(ps[mid].town, town) < 0
    ensures forall k :: low <= k <= mid ==> !EqualsIgnoreCase(ps[k].town, town)
  {
    forall k | low <= k <= mid
      ensures !EqualsIgnoreCase(ps[k].town, town)
    {
      if EqualsIgnoreCase(ps[k].town, town) {
        MatchComparesLikeTown(ps[mid].town, ps[k].town, town);
        CompareToIgnoreCaseAntisymmetric(ps[mid].town, ps[k].town);
      }
    }
  }

  /** `sortByTownName` orders with `compareTo` while binary search compares
      with `compareToIgnoreCase`. The two agree when no town holds an
      upper-case letter: then a list sorted by town is sorted for binary
      search over its whole range. */
  lemma SortedLowerCaseTownsAreSearchable(ps: seq<Place>)
    requires AscendingByTown(ps)
    requires forall p :: p in ps ==> Fold(p.town) == p.town
    ensures AscendingIgnoringCase(ps, 0, |ps| - 1)
  {
    forall i, j | 0 <= i < j < |ps|
      ensures CompareToIgnoreCase(ps[i].town, ps[j].town) <= 0
    {
      FoldedStringsCompareAlike(ps[i].town, ps[j].town);
    }
  }

  /** A place added at the end of a list is found again by its zipcode
      written in any case; the place found has a zipcode equal to the key
      ignoring case, and it is the added place unless an earlier place's
      zipcode equals the key ignoring case. */
  lemma AddedPlaceIsFound(ps: seq<Place>, p: Place, key: string)
    requires key != "" && EqualsIgnoreCase(key, p.zipcode)
    ensures Lookup(ps + [p], Some(key)) != null
    ensures EqualsIgnoreCase(Lookup(ps + [p], Some(key)).zipcode, key)
    ensures (forall q :: q in ps ==> !EqualsIgnoreCase(q.zipcode, key)) ==>
      Lookup(ps + [p], Some(key)) == p
  {
    var all := ps + [p];
    EqualsIgnoreCaseIsEquivalence(key, p.zipcode, p.zipcode);
    assert all[|ps|] == p;
    var r := Lookup(all, Some(key));
    if forall q :: q in ps ==> !EqualsIgnoreCase(q.zipcode, key) {
      var i :| 0 <= i < |all| && all[i] == r && EqualsIgnoreCase(all[i].zipcode, key);
    }
  }

  /** Sorting keeps the places and their number. */
  lemma SortByPopulationMembers(ps: seq<Place>)
    requires AllPopulated(ps)
    ensures |SortByPopulation(ps)| == |ps|
    ensures forall p :: p in ps ==> p in SortByPopulation(ps)
  {
    var sorted := SortByPopulation(ps);
    assert |multiset(sorted)| == |multiset(ps)|;
    forall p | p in ps
      ensures p in sorted
    {
      assert p in multiset(ps);
    }
  }

  /** When no town of a list matches, no place of the list matches. */
  lemma NoPlaceMatchesWhenNotFound(sorted: seq<Place>, town: string)
    requires FirstIgnoringCase(Towns(sorted), town) == -1
    ensures forall p :: p in sorted ==> !EqualsIgnoreCase(p.town, town)
  {
    var towns := Towns(sorted);
    forall p | p in sorted
      ensures !EqualsIgnoreCase(p.town, town)
    {
      var k :| 0 <= k < |sorted| && sorted[k] == p;
      assert towns[k] == p.town;
    }
  }

  /** In a list ascending by population, the first place whose town
      matches has the least population among the matching places. */
  lemma FirstMatchHasLeastPopulation(sorted: seq<Place>, town: string)
    requires AscendingByPopulation(sorted)
    requires FirstIgnoringCase(Towns(sorted), town) != -1
    ensures var i := FirstIgnoringCase(Towns(sorted), town);
      forall p :: p in sorted && EqualsIgnoreCase(p.town, town) ==> sorted[i].population <= p.population
  {
    var towns := Towns(sorted);
    var i := FirstIgnoringCase(towns, town);
    forall p | p in sorted && EqualsIgnoreCase(p.town, town)
      ensures sorted[i].population <= p.population
    {
      var k :| 0 <= k < |sorted| && sorted[k] == p;
      assert towns[k] == p.town;
      if k != i {
        assert i < k;
        assert sorted[i].population <= sorted[k].population;
      }
    }
  }

  /** Rank is -1 exactly when no populated place has the town ignoring
      case. */
  lemma RankAbsentIffNoMatch(ps: seq<Place>, town: string)
    ensures Rank(ps, town) == -1 <==>
      forall p :: p in ps && p.IsPopulated() ==> !EqualsIgnoreCase(p.town, town)
  {
    var pop := Populated(ps);
    var sorted := SortByPopulation(pop);
    var i := FirstIgnoringCase(Towns(sorted), town);
    assert Rank(ps, town) == if i == -1 then -1 else i + 1;
    if i == -1 {
      SortByPopulationMembers(pop);
      NoPlaceMatchesWhenNotFound(sorted, town);
    } else {
      assert sorted[i] in pop;
    }
  }

  /** Any other rank lies in 1..(number of populated places) and names a
      populated place of the town whose population is the least among the
      town's populated places: rank 1 goes to the SMALLEST population. */
  lemma RankNamesLeastPopulatedMatch(ps: seq<Place>, town: string)
    ensures Rank(ps, town) != -1 ==>
      1 <= Rank(ps, town) <= |Populated(ps)| &&
      var q := SortByPopulation(Populated(ps))[Rank(ps, town) - 1];
      q in ps && q.IsPopulated() && EqualsIgnoreCase(q.town, town) &&
      forall p :: p in ps && p.IsPopulated() && EqualsIgnoreCase(p.town, town) ==> q.population <= p.population
  {
    var pop := Populated(ps);
    var sorted := SortByPopulation(pop);
    var i := FirstIgnoringCase(Towns(sorted), town);
    assert Rank(ps, town) == if i == -1 then -1 else i + 1;
    if i != -1 {
      SortByPopulationMembers(pop);
      SortByPopulationAscending(pop);
      FirstMatchHasLeastPopulation(sorted, town);
      assert sorted[i] in pop;
    }
  }
}
