/** `MyPlaceDatabase`: the list of places and the operations on it. */
module PlaceDatabase {
  import opened Optional
  import opened JavaStrings
  import opened Places
  import opened Listings

  /** What `distance` returns: `Unavailable` is the sentinel -1; otherwise
      the two places' coordinates, from which the Euclidean distance is
      computed in floating point. */
  datatype Distance =
    | Unavailable
    | Between(latitude1: Coordinate, longitude1: Coordinate, latitude2: Coordinate, longitude2: Coordinate)

  /** A lookup result that `distance` can use: a located place. */
  predicate LocatedResult(p: Place?)
  {
    p != null && p.IsLocated()
  }

  /** The loops of `sortByTownName`: bubble sort by town under `compareTo`,
      swapping neighbours only when the first is strictly greater. The result
      is a permutation, ascending by town, and stable: for every town the
      places with that town keep their order. */
  method BubbleSortByTown(orig: seq<Place>) returns (ps: seq<Place>)
    ensures AscendingByTown(ps)
    ensures StableRearrangement(ps, orig)
  {
    ps := orig;
    var n := |ps|;
    var i := 0;
    while i < n - 1
      invariant 0 <= i <= (if n == 0 then 0 else n - 1)
      invariant |ps| == n
      invariant StableRearrangement(ps, orig)
      invariant AscendingByTownFrom(ps, n - i) && PartitionedByTownAt(ps, n - i)
    {
      var j := 0;
      while j < n - i - 1
        invariant 0 <= j <= n - i - 1
        invariant |ps| == n
        invariant StableRearrangement(ps, orig)
        invariant AscendingByTownFrom(ps, n - i) && PartitionedByTownAt(ps, n - i)
        invariant GreatestTownAt(ps, j)
      {
        if CompareTo(ps[j].GetTown(), ps[j + 1].GetTown()) > 0 {
          BubbleSwapStep(ps, j, n - i, orig);
          var temp := ps[j];
          ps := ps[j := ps[j + 1]];
          ps := ps[j + 1 := temp];
        } else {
          BubbleKeepStep(ps, j);
        }
        j := j + 1;
      }
      BubblePassEnd(ps, n - i);
      i := i + 1;
    }
    SortedWhenPartitionedAtOne(ps);
  }

  /** The scan shared by `sequentialSearchByTownName` and the last loop of
      `rankByPopulation`: the least index whose town equals `townName`
      ignoring case, or -1. */
  method IndexOfTown(ps: seq<Place>, townName: string) returns (index: int)
    ensures index == FirstIgnoringCase(Towns(ps), townName)
  {
    var i := 0;
    while i < |ps|
      invariant 0 <= i <= |ps|
      invariant forall k :: 0 <= k < i ==> !EqualsIgnoreCase(ps[k].town, townName)
    {
      if EqualsIgnoreCase(ps[i].GetTown(), townName) {
        return i;
      }
      i := i + 1;
    }
    return -1;
  }

  /** The first loop of `rankByPopulation`: the populated places of `ps`, in
      their order. */
  method CollectPopulated(ps: seq<Place>) returns (populatedPlaces: seq<Place>)
    ensures populatedPlaces == Populated(ps)
    ensures AllPopulated(populatedPlaces)
  {
    populatedPlaces := [];
    var k := 0;
    while k < |ps|
      invariant 0 <= k <= |ps|
      invariant populatedPlaces == Populated(ps[..k])
    {
      PopulatedExtend(ps, k);
      if ps[k].IsPopulated() {
        populatedPlaces := populatedPlaces + [ps[k]];
      }
      k := k + 1;
    }
    assert ps[..|ps|] == ps;
  }

  class MyPlaceDatabase {
    var places: seq<Place>
    /** Set by sorting, cleared by a successful insertion; never read. */
    var isSorted: bool

    constructor ()
      ensures places == [] && !isSorted
    {
      places := [];
      isSorted := false;
    }

    /** `addPlace`: a `null` place or one whose zipcode is already stored
        (compared exactly) leaves the database as it was; any other place is
        appended and the sorted flag is cleared. */
    method AddPlace(newPlace: Place?)
      modifies this
      ensures newPlace == null || newPlace.zipcode in Zipcodes(old(places)) ==>
        places == old(places) && isSorted == old(isSorted)
      ensures newPlace != null && newPlace.zipcode !in Zipcodes(old(places)) ==>
        places == old(places) + [newPlace] && !isSorted
      ensures DistinctZipcodes(old(places)) ==> DistinctZipcodes(places)
    {
      if newPlace == null {
        return;
      }
      var i := 0;
      while i < |places|
        invariant 0 <= i <= |places|
        invariant places == old(places) && isSorted == old(isSorted)
        invariant forall k :: 0 <= k < i ==> places[k].zipcode != newPlace.zipcode
      {
        if places[i].GetZipcode() == newPlace.GetZipcode() {
          return;
        }
        i := i + 1;
      }
      places := places + [newPlace];
      isSorted := false;
    }

    /** `lookupByZipcode`: `null` for a `null` or empty zipcode, else the
        first place whose zipcode equals it ignoring case, else `null`. */
    method LookupByZipcode(zipcode: Option<string>) returns (place: Place?)
      ensures place == Lookup(places, zipcode)
    {
      if zipcode == None || zipcode.value == "" {
        return null;
      }
      var i := 0;
      while i < |places|
        invariant 0 <= i <= |places|
        invariant forall k :: 0 <= k < i ==> !EqualsIgnoreCase(places[k].zipcode, zipcode.value)
      {
        if EqualsIgnoreCase(places[i].GetZipcode(), zipcode.value) {
          return places[i];
        }
        i := i + 1;
      }
      return null;
    }

    /** `distance`, up to its floating-point arithmetic: -1 when either
        zipcode fails lookup or names a place that is not located. */
    method Distance(zip1: Option<string>, zip2: Option<string>) returns (d: Distance)
      ensures d == Unavailable <==>
        !LocatedResult(Lookup(places, zip1)) || !LocatedResult(Lookup(places, zip2))
      ensures d != Unavailable ==>
        var p1, p2 := Lookup(places, zip1), Lookup(places, zip2);
        d == Between(p1.latitude, p1.longitude, p2.latitude, p2.longitude)
    {
      var place1 := LookupByZipcode(zip1);
      var place2 := LookupByZipcode(zip2);
      if place1 == null || place2 == null || !place1.IsLocated() || !place2.IsLocated() {
        return Unavailable;
      }
      d := Between(place1.GetLatitude(), place1.GetLongitude(), place2.GetLatitude(), place2.GetLongitude());
    }

    /** `sortByTownName`: the list is replaced by its bubble sort by town
        and marked sorted. */
    method SortByTownName()
      modifies this
      ensures isSorted
      ensures AscendingByTown(places)
      ensures StableRearrangement(places, old(places))
    {
      places := BubbleSortByTown(places);
      isSorted := true;
    }

    /** `binarySearchByTownName`: -1 for an empty range; any other result is
        an index in `low..high` whose town equals `townName` ignoring case.
        On a range sorted ignoring case that holds such a town, the search
        does not miss it. */
    method BinarySearchByTownName(townName: string, low: int, high: int) returns (index: int)
      requires low <= high ==> 0 <= low && high < |places|
      ensures low > high ==> index == -1
      ensures index == -1 || (low <= index <= high && EqualsIgnoreCase(places[index].town, townName))
      ensures AscendingIgnoringCase(places, low, high) &&
              (exists k :: low <= k <= high && EqualsIgnoreCase(places[k].town, townName)) ==>
              index != -1
      decreases high - low
    {
      if low > high {
        return -1;
      }
      var mid := (low + high) / 2;
      var midPlace := places[mid];
      var cmp := CompareToIgnoreCase(midPlace.GetTown(), townName);
      CompareToIgnoreCaseZeroIffEqualsIgnoreCase(midPlace.town, townName);
      if cmp == 0 {
        return mid;
      }
      if cmp > 0 {
        index := BinarySearchByTownName(townName, low, mid - 1);
        if AscendingIgnoringCase(places, low, high) {
          NoMatchFromGreaterTown(places, low, high, mid, townName);
        }
        return index;
      }
      index := BinarySearchByTownName(townName, mid + 1, high);
      if AscendingIgnoringCase(places, low, high) {
        NoMatchUpToLesserTown(places, low, high, mid, townName);
      }
    }

    /** `sequentialSearchByTownName`: the least index whose town equals
        `townName` ignoring case, or -1. */
    method SequentialSearchByTownName(townName: string) returns (index: int)
      ensures index == FirstIgnoringCase(Towns(places), townName)
    {
      index := IndexOfTown(places, townName);
    }

    /** `rankByPopulation`: collects the populated places, sorts them with
        the population comparator (ascending, stable) and returns one plus
        the index of the first whose town equals `townName` ignoring case,
        or -1. */
    method RankByPopulation(townName: string) returns (rank: int)
      ensures rank == Rank(places, townName)
    {
      var populatedPlaces := CollectPopulated(places);
      populatedPlaces := SortByPopulation(populatedPlaces);
      var i := IndexOfTown(populatedPlaces, townName);
      rank := if i == -1 then -1 else i + 1;
    }

    /** `getSize`. */
    method GetSize() returns (size: int)
      ensures size == |places|
    {
      return |places|;
    }

    /** `getPlace`: the index must be in range (Java throws otherwise). */
    method GetPlace(index: int) returns (place: Place)
      requires 0 <= index < |places|
      ensures place == places[index]
    {
      return places[index];
    }
  }
}
