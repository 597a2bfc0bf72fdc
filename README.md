# Place directory engine, modelled in Dafny

This project models the place directory of a small Java application. `MyPlaceDatabase` keeps an
ordered list of places and a "sorted" flag. Its operations are:

- adding a place, rejecting a duplicate zipcode;
- looking a place up by zipcode, ignoring case;
- the "not available" answer of the distance between two zipcodes;
- sorting the list by town with a bubble sort;
- a recursive binary search and a linear search by town;
- ranking a town by population.

The places it stores are `Place`, `LocatedPlace` (with latitude and longitude) and `PopulatedPlace`
(with population and census counts) objects, and ranking orders them with `PopulationComparator`.

Modules, one per file:

- `Optional` (`optional.dfy`): `Option`. `None` stands for a Java `null`.
- `JavaStrings` (`java_strings.dfy`): the `String` operations the engine uses.
  - `compareTo` is modelled exactly over Dafny characters: the first differing characters'
    difference, else the length difference.
  - `compareToIgnoreCase` and `equalsIgnoreCase` are modelled over ASCII case folding.
  - The lemmas show that both orders are antisymmetric and transitive, and that
    `equalsIgnoreCase` is an equivalence.
- `Places` (`places.dfy`): the record hierarchy as one class `Place`.
  - A constant `kind` records which Java class an object was created as.
  - `IsLocated()` and `IsPopulated()` stand for the engine's `instanceof` tests.
  - It has the named constructors, the getters and the field-wise setters.
  - `ToString` models `Place.toString`.
- `PopulationComparator` (`population_comparator.dfy`): `compare` as a function, proved to be a
  total preorder.
- `Listings` (`listings.dfy`): functions over a list of places that define what the engine computes,
  together with their lemmas:
  - first match ignoring case, and lookup;
  - the two town orders;
  - stability, stated as "every town keeps the order of its places";
  - the stable sort by population, and rank.
- `PlaceDatabase` (`place_database.dfy`): the class `MyPlaceDatabase`.
  - It has the fields `places: seq<Place>` and `isSorted`.
  - Its methods have the loops of the Java code. Each method is proved against the functions of
    `Listings`.

Where the comments and the code disagree, the model follows the code:

- **Population order.** `PopulationComparator` is documented as descending
  (src/PopulationComparator.java:3, src/MyPlaceDatabase.java:285), but `Integer.compare` orders
  ascending. So rank 1 is the place with the smallest population (`Listings.RankNamesLeastPopulatedMatch`).
- **Sort order versus search order.** `sortByTownName` orders with case-sensitive `compareTo`, and
  `binarySearchByTownName` compares with `compareToIgnoreCase`. So binary search is complete only on
  a range that is sorted ignoring case.
  - `JavaStrings.CaseSensitiveOrderIsNotCaseInsensitiveOrder` gives two towns that the two orders
    rank differently.
  - `Listings.SortedLowerCaseTownsAreSearchable` gives a condition under which the sorted list can
    be searched.
- **Duplicates versus lookup.** `addPlace` rejects duplicates by exact zipcode, and lookup matches
  ignoring case. So a newly added place can be hidden behind an earlier place whose zipcode differs
  only in case (`Listings.AddedPlaceIsFound`).

## Model

| member | source | states |
|---|---|---|
| JavaStrings.CompareToAntisymmetric | src/MyPlaceDatabase.java:234 | `compareTo(a, b) == -compareTo(b, a)` for all strings |
| JavaStrings.CompareTo | src/MyPlaceDatabase.java:234 | `compareTo` of two towns, which is 0 exactly when the strings are equal |
| JavaStrings.CompareToTransitive | src/MyPlaceDatabase.java:234 | `compareTo(a, b) <= 0` and `compareTo(b, c) <= 0` give `compareTo(a, c) <= 0` |
| JavaStrings.CompareToIgnoreCase | src/MyPlaceDatabase.java:259 | `compareToIgnoreCase`, which returns `compareTo` of the case-folded strings |
| JavaStrings.EqualsIgnoreCase | src/MyPlaceDatabase.java:61 | `equalsIgnoreCase`, which holds for equal strings and only for strings of equal length |
| JavaStrings.EqualsIgnoreCaseIsFoldedEquality | src/MyPlaceDatabase.java:61 | `equalsIgnoreCase` holds exactly when the case-folded strings are equal |
| JavaStrings.CompareToIgnoreCaseZeroIffEqualsIgnoreCase | src/MyPlaceDatabase.java:259-261 | `compareToIgnoreCase` is 0 exactly when `equalsIgnoreCase` holds, so the search's `cmp == 0` test finds a match ignoring case |
| JavaStrings.CompareToIgnoreCaseAntisymmetric | src/MyPlaceDatabase.java:259 | `compareToIgnoreCase(a, b) == -compareToIgnoreCase(b, a)` |
| JavaStrings.CompareToIgnoreCaseTransitive | src/MyPlaceDatabase.java:259 | `compareToIgnoreCase` is transitive |
| JavaStrings.EqualsIgnoreCaseIsEquivalence | src/MyPlaceDatabase.java:276 | `equalsIgnoreCase` is reflexive, symmetric and transitive |
| JavaStrings.FoldedStringsCompareAlike | src/MyPlaceDatabase.java:259 | on strings with no upper-case letters, `compareToIgnoreCase` equals `compareTo` |
| JavaStrings.CaseSensitiveOrderIsNotCaseInsensitiveOrder | src/MyPlaceDatabase.java:234 | "Zurich" sorts before "abbey" under `compareTo`, but after it under `compareToIgnoreCase` |
| Places.Place.constructor | src/Place.java:9-13 | a plain place that stores the zipcode, town and state as given |
| Places.Place.WithoutState | src/Place.java:16-19 | a plain place that stores the zipcode and town, with the state left null |
| Places.Place.Copy | src/Place.java:23-27 | a new plain place, distinct from the original, with the original's three base fields |
| Places.Place.Located | src/LocatedPlace.java:5-9 | a located place that stores the three base fields and both coordinates as given |
| Places.Place.CopyLocated | src/LocatedPlace.java:12-16 | a new located place, distinct from the original, with all five fields copied |
| Places.Place.Populated | src/PopulatedPlace.java:7-12 | a populated place that stores the located fields and the population, with males and females 0 |
| Places.Place.PopulatedWithCensus | src/PopulatedPlace.java:22-27 | a populated place that stores all eight fields as given |
| Places.Place.CopyPopulated | src/PopulatedPlace.java:15-20 | a new populated place, distinct from the original, with all eight fields copied (census counts included) |
| Places.Place.IsLocated | src/MyPlaceDatabase.java:108 | `instanceof LocatedPlace`: true for populated places, false for plain places |
| Places.Place.IsPopulated | src/MyPlaceDatabase.java:294 | `instanceof PopulatedPlace`: a populated place is also located, and a plain or only-located place is not populated |
| Places.Place.GetZipcode | src/Place.java:36-38 | returns the stored zipcode |
| Places.Place.GetTown | src/Place.java:53-55 | returns the stored town |
| Places.Place.GetState | src/Place.java:70-72 | returns the stored state (`None` for null) |
| Places.Place.GetLatitude | src/LocatedPlace.java:23-25 | on a located place, returns the stored latitude |
| Places.Place.GetLongitude | src/LocatedPlace.java:41-43 | on a located place, returns the stored longitude |
| Places.Place.GetPopulation | src/PopulatedPlace.java:36-38 | on a populated place, returns the stored population |
| Places.Place.GetMales | src/PopulatedPlace.java:49-51 | on a populated place, returns the stored count of males unchanged |
| Places.Place.GetFemales | src/PopulatedPlace.java:53-55 | on a populated place, returns the stored count of females unchanged |
| Places.Place.SetZipcode | src/Place.java:45-47 | only the zipcode changes, and the getter returns the new value |
| Places.Place.SetTown | src/Place.java:62-64 | only the town changes, and the getter returns the new value |
| Places.Place.SetState | src/Place.java:78-80 | only the state changes, and the getter returns the new value |
| Places.Place.SetLatitude | src/LocatedPlace.java:32-34 | on a located place, only the latitude changes, and the getter returns it |
| Places.Place.SetLongitude | src/LocatedPlace.java:50-52 | on a located place, only the longitude changes, and the getter returns it |
| Places.Place.SetPopulation | src/PopulatedPlace.java:45-47 | on a populated place, only the population changes, and the getter returns it |
| Places.ZipcodeReadBackFromRendering | src/Place.java:88 | a zipcode without ':' is exactly the text before the first ':' of `"<zipcode>: ..."` |
| Places.RenderingLayout | src/Place.java:87-89 | `toString` starts with the zipcode followed by ": ", so the zipcode can be read back; a null state renders as a trailing "null" |
| PopulationComparator.Compare | src/PopulationComparator.java:7-9 | the result is negative, zero or positive exactly when the first population is smaller, equal or greater, so it orders ascending |
| PopulationComparator.CompareIsTotalPreorder | src/PopulationComparator.java:8 | `compare` is reflexive (0), antisymmetric, transitive and total |
| Listings.FirstIgnoringCase | src/MyPlaceDatabase.java:274-281 | the result is -1 or an in-range index whose key matches ignoring case; no key before it matches, and none at all when it is -1 |
| Listings.Lookup | src/MyPlaceDatabase.java:50-66 | null exactly for a null or empty zipcode or when no place's zipcode matches ignoring case; otherwise the place at the first matching index |
| Listings.Populated | src/MyPlaceDatabase.java:292-297 | holds exactly the populated places of the list and is no longer than it |
| Listings.PopulatedExtend | src/MyPlaceDatabase.java:293-296 | one more scanned place adds itself to the populated list exactly when it is populated |
| Listings.InsertByPopulation | src/MyPlaceDatabase.java:300 | inserting gives the multiset of the list plus the new place |
| Listings.SortByPopulation | src/MyPlaceDatabase.java:300 | `List.sort` with the comparator returns a permutation of its input |
| Listings.InsertKeepsAscending | src/MyPlaceDatabase.java:300 | inserting into a list in ascending population order keeps it in that order |
| Listings.InsertKeepsSamePopulationOrder | src/MyPlaceDatabase.java:300 | insertion puts the new place before every place of equal population and keeps their order |
| Listings.SortByPopulationAscending | src/MyPlaceDatabase.java:300 | the sorted list is in ascending population order |
| Listings.SortByPopulationStable | src/MyPlaceDatabase.java:300 | for every population, the sort keeps the list order of the places that have it (stability) |
| Listings.SortByPopulationMembers | src/MyPlaceDatabase.java:300 | the sort keeps the length and every place |
| Listings.NoPlaceMatchesWhenNotFound | src/MyPlaceDatabase.java:303-308 | when the scan finds no town, no place of the list matches ignoring case |
| Listings.FirstMatchHasLeastPopulation | src/MyPlaceDatabase.java:300-308 | in a list ascending by population, the first matching place has the least population among the matching places |
| Listings.Rank | src/MyPlaceDatabase.java:291-309 | what `rankByPopulation` returns: -1, or a rank in 1..(number of populated places) |
| Listings.RankAbsentIffNoMatch | src/MyPlaceDatabase.java:291-309 | rank is -1 exactly when no populated place matches the town ignoring case |
| Listings.RankNamesLeastPopulatedMatch | src/MyPlaceDatabase.java:291-309 | any other rank lies in 1..(number of populated places), and it names a matching populated place with the least population among the matching ones |
| Listings.SwapKeepsSameTownOrder | src/MyPlaceDatabase.java:234-237 | swapping neighbours with different towns keeps, for every town, the order of its places |
| Listings.BubbleSwapStep | src/MyPlaceDatabase.java:234-237 | a swap of out-of-order neighbours moves the greatest town one step right. It keeps the sorted suffix, the partition and stable rearrangement of the original |
| Listings.BubbleKeepStep | src/MyPlaceDatabase.java:234 | when neighbours are in order, the right one is the greatest town so far |
| Listings.MatchComparesLikeTown | src/MyPlaceDatabase.java:259-261 | a town equal to the key ignoring case compares with every town exactly as the key does |
| Listings.NoMatchFromGreaterTown | src/MyPlaceDatabase.java:262 | in a range sorted ignoring case, when the middle town is greater than the key, nothing from the middle up matches |
| Listings.NoMatchUpToLesserTown | src/MyPlaceDatabase.java:263 | in a range sorted ignoring case, when the middle town is less than the key, nothing up to the middle matches |
| Listings.SortedLowerCaseTownsAreSearchable | src/MyPlaceDatabase.java:234-259 | a list sorted by `compareTo` whose towns have no upper-case letters is sorted ignoring case over its whole range |
| Listings.AddedPlaceIsFound | src/MyPlaceDatabase.java:43-66 | after appending a place, lookup by any non-empty key equal to its zipcode ignoring case returns a place whose zipcode matches the key ignoring case; that place is the appended one unless an earlier zipcode matches the key ignoring case |
| PlaceDatabase.MyPlaceDatabase.constructor | src/MyPlaceDatabase.java:14-16 | an empty list, not marked sorted |
| PlaceDatabase.MyPlaceDatabase.AddPlace | src/MyPlaceDatabase.java:26-45 | null or an exactly equal zipcode leaves list and flag unchanged; otherwise the place is appended and the flag cleared; distinct zipcodes are preserved |
| PlaceDatabase.MyPlaceDatabase.LookupByZipcode | src/MyPlaceDatabase.java:50-66 | the loop returns `Lookup(places, zipcode)`: null for a null or empty zipcode, else the first match ignoring case, else null |
| PlaceDatabase.MyPlaceDatabase.Distance | src/MyPlaceDatabase.java:101-111 | -1 (`Unavailable`) exactly when either lookup fails or gives a place that is not located; otherwise the two looked-up places' coordinates |
| PlaceDatabase.BubbleSortByTown | src/MyPlaceDatabase.java:231-240 | the nested bubble-sort loops yield a list in ascending `compareTo` order by town, which is a permutation of the input and keeps each town's places in their order |
| PlaceDatabase.MyPlaceDatabase.SortByTownName | src/MyPlaceDatabase.java:230-242 | afterwards the list is sorted by town and is a stable permutation of the old list, and the flag is set |
| PlaceDatabase.MyPlaceDatabase.BinarySearchByTownName | src/MyPlaceDatabase.java:254-264 | -1 on an empty range. Any other result is an index in `low..high` whose town matches ignoring case. On a range sorted ignoring case that holds a match, the result is not -1. It terminates because `high - low` shrinks |
| PlaceDatabase.IndexOfTown | src/MyPlaceDatabase.java:275-280 | the scan returns the least index whose town matches ignoring case, or -1 |
| PlaceDatabase.MyPlaceDatabase.SequentialSearchByTownName | src/MyPlaceDatabase.java:274-281 | the least index whose town matches ignoring case, or -1 |
| PlaceDatabase.CollectPopulated | src/MyPlaceDatabase.java:292-297 | the loop collects exactly `Populated(places)`, in list order |
| PlaceDatabase.MyPlaceDatabase.RankByPopulation | src/MyPlaceDatabase.java:291-309 | the result is `Rank(places, townName)`. `Listings.RankAbsentIffNoMatch` and `Listings.RankNamesLeastPopulatedMatch` state what it means |
| PlaceDatabase.MyPlaceDatabase.GetSize | src/MyPlaceDatabase.java:312-314 | the number of stored places |
| PlaceDatabase.MyPlaceDatabase.GetPlace | src/MyPlaceDatabase.java:317-319 | the place at an in-range index |

## Left out

- Console output is not modelled: the messages `addPlace` and `lookupByZipcode` print, the menu
  in `PDConsoleIO` and its parsing of user input. `doLookupByTownName` only chains engine calls that
  are modelled here.
- `listAllPlaces` is not modelled: its only effect is console output.
- `readZipCodes`, `saveToFile` and `loadFromFile` are not modelled: they are file I/O and Java object
  serialization.
- `PlaceDB` is the Java interface the engine implements and holds no behaviour.
- PlaceDatabase.MyPlaceDatabase.Distance: returns the two coordinate pairs instead of the distance.
  The `Math.sqrt`/`Math.pow` floating-point arithmetic is not modelled. Coordinates are opaque
  `real` values that are only stored and copied.
- The `toString` overrides of `LocatedPlace` and `PopulatedPlace` are not modelled, because they use
  `%.2f` floating-point formatting.
- Places.Place.ToString: has no contract of its own. `Places.RenderingLayout` states its layout.
  Zipcode and town are modelled as non-null strings, so Java's "null" rendering of them, and the
  exceptions a null zipcode or town would cause in the engine, are not covered.
- Case folding is ASCII only (`JavaStrings.FoldChar`). Java folds every Unicode character.
- JavaStrings.CompareTo: compares Dafny characters (Unicode scalar values), while Java compares
  UTF-16 code units. Strings with characters above U+FFFF therefore have different lengths in
  the two, and can order differently; the same holds for `CompareToIgnoreCase` and `EqualsIgnoreCase`.
- PlaceDatabase.MyPlaceDatabase.BinarySearchByTownName, SequentialSearchByTownName and RankByPopulation
  take the town as a non-null string. A null town is not modelled: Java's sequential search and
  ranking return -1 for it, since `equalsIgnoreCase(null)` is false, and its binary search on a
  non-empty range throws `NullPointerException` from `compareToIgnoreCase`.
- PlaceDatabase.MyPlaceDatabase.SortByTownName: the nested loops run in `PlaceDatabase.BubbleSortByTown`
  on a sequence value, and the list field is replaced once at the end. Java's `set` calls on the
  `ArrayList` are individual in-place writes, but no caller can observe the intermediate states.
- Listings.SortByPopulation: Java's `List.sort` (a TimSort merge sort) is modelled as a stable
  insertion sort. The ascending-order, stability and permutation lemmas together determine the
  sorted list uniquely, so any stable sort gives the same list.
- PlaceDatabase.MyPlaceDatabase.BinarySearchByTownName: requires `0 <= low` and `high < |places|`
  whenever the range is non-empty. Java can also answer some out-of-range calls, or throw
  `IndexOutOfBoundsException`, depending on the path the search takes. The 32-bit overflow of
  `low + high` on lists longer than 2^30 places is not modelled.
- PlaceDatabase.MyPlaceDatabase.GetPlace: the `IndexOutOfBoundsException` for an index out of range
  is excluded by the precondition.
- Populations and census counts are 32-bit (`Places.int32`). No arithmetic is done on them, so
  there is no overflow to model.
- Places are shared references. Outside code can still change a stored place through its setters.
  The engine's contracts describe the places' fields at the time of the call.
