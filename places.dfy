/** The record hierarchy `Place` -> `LocatedPlace` -> `PopulatedPlace`.

    Java dispatches on the run-time class of an object; here one class
    `Place` carries every field of the hierarchy and a constant `kind` that
    records which of the three Java classes the object was created as. The
    fields a variant does not have in Java (coordinates of a plain place,
    census counts of a located place) exist but are never read: the getters
    and setters of a subclass require the matching kind, as Java's static
    types do. */
module Places {
  import opened Optional

  /** Java's 32-bit `int`. */
  newtype int32 = x: int | -0x8000_0000 <= x < 0x8000_0000

  /** A `double` degree value. The modelled code only stores and copies
      coordinates, so no floating-point arithmetic is needed. */
  type Coordinate = real

  /** The run-time class of a place object. */
  datatype Kind = PlainPlace | LocatedPlace | PopulatedPlace

  class Place {
    const kind: Kind
    var zipcode: string
    var town: string
    /** `None` is a `state` left `null`. */
    var state: Option<string>
    var latitude: Coordinate
    var longitude: Coordinate
    var population: int32
    var males: int32
    var females: int32

    /** `instanceof LocatedPlace`: true for located and populated places. */
    predicate IsLocated(): (r: bool)
      ensures kind == PopulatedPlace ==> r
      ensures kind == PlainPlace ==> !r
    {
      kind != PlainPlace
    }

    /** `instanceof PopulatedPlace`; every populated place is also a located
        place, as `PopulatedPlace` extends `LocatedPlace`. */
    predicate IsPopulated(): (r: bool)
      ensures r ==> IsLocated()
      ensures r ==> kind != PlainPlace && kind != LocatedPlace
    {
      kind == PopulatedPlace
    }

    /** `Place(zipcode, town, state)`. */
    constructor (zipcode: string, town: string, state: Option<string>)
      ensures kind == PlainPlace
      ensures this.zipcode == zipcode && this.town == town && this.state == state
    {
      kind := PlainPlace;
      this.zipcode, this.town, this.state := zipcode, town, state;
      latitude, longitude := 0.0, 0.0;
      population, males, females := 0, 0, 0;
    }

    /** `Place(zipcode, town)`: the state stays `null`. */
    constructor WithoutState(zipcode: string, town: string)
      ensures kind == PlainPlace
      ensures this.zipcode == zipcode && this.town == town && state == None
    {
      kind := PlainPlace;
      this.zipcode, this.town, state := zipcode, town, None;
      latitude, longitude := 0.0, 0.0;
      population, males, females := 0, 0, 0;
    }

    /** `Place(Place place)`: a new plain place with the other's base
        fields, whatever the other's run-time class. */
    constructor Copy(other: Place)
      ensures kind == PlainPlace && this != other
      ensures zipcode == other.zipcode && town == other.town && state == other.state
    {
      kind := PlainPlace;
      zipcode, town, state := other.zipcode, other.town, other.state;
      latitude, longitude := 0.0, 0.0;
      population, males, females := 0, 0, 0;
    }

    /** `LocatedPlace(zipcode, town, state, latitude, longitude)`. */
    constructor Located(zipcode: string, town: string, state: Option<string>,
                        latitude: Coordinate, longitude: Coordinate)
      ensures kind == LocatedPlace
      ensures this.zipcode == zipcode && this.town == town && this.state == state
      ensures this.latitude == latitude && this.longitude == longitude
    {
      kind := LocatedPlace;
      this.zipcode, this.town, this.state := zipcode, town, state;
      this.latitude, this.longitude := latitude, longitude;
      population, males, females := 0, 0, 0;
    }

    /** `LocatedPlace(LocatedPlace locatedPlace)`: a new located place; a
        populated original loses its census fields. */
    constructor CopyLocated(other: Place)
      requires other.IsLocated()
      ensures kind == LocatedPlace && this != other
      ensures zipcode == other.zipcode && town == other.town && state == other.state
      ensures latitude == other.latitude && longitude == other.longitude
    {
      kind := LocatedPlace;
      zipcode, town, state := other.zipcode, other.town, other.state;
      latitude, longitude := other.latitude, other.longitude;
      population, males, females := 0, 0, 0;
    }

    /** The six-argument `PopulatedPlace` constructor: `males` and `females`
        keep Java's default 0. */
    constructor Populated(zipcode: string, town: string, state: Option<string>,
                          latitude: Coordinate, longitude: Coordinate, population: int32)
      ensures kind == PopulatedPlace
      ensures this.zipcode == zipcode && this.town == town && this.state == state
      ensures this.latitude == latitude && this.longitude == longitude
      ensures this.population == population && males == 0 && females == 0
    {
      kind := PopulatedPlace;
      this.zipcode, this.town, this.state := zipcode, town, state;
      this.latitude, this.longitude := latitude, longitude;
      this.population, males, females := population, 0, 0;
    }

    /** The eight-argument `PopulatedPlace` constructor. */
    constructor PopulatedWithCensus(zipcode: string, town: string, state: Option<string>,
                                    latitude: Coordinate, longitude: Coordinate,
                                    population: int32, males: int32, females: int32)
      ensures kind == PopulatedPlace
      ensures this.zipcode == zipcode && this.town == town && this.state == state
      ensures this.latitude == latitude && this.longitude == longitude
      ensures this.population == population && this.males == males && this.females == females
    {
      kind := PopulatedPlace;
      this.zipcode, this.town, this.state := zipcode, town, state;
      this.latitude, this.longitude := latitude, longitude;
      this.population, this.males, this.females := population, males, females;
    }

    /** `PopulatedPlace(PopulatedPlace other)`: all eight fields. */
    constructor CopyPopulated(other: Place)
      requires other.IsPopulated()
      ensures kind == PopulatedPlace && this != other
      ensures zipcode == other.zipcode && town == other.town && state == other.state
      ensures latitude == other.latitude && longitude == other.longitude
      ensures population == other.population && males == other.males && females == other.females
    {
      kind := PopulatedPlace;
      zipcode, town, state := other.zipcode, other.town, other.state;
      latitude, longitude := other.latitude, other.longitude;
      population, males, females := other.population, other.males, other.females;
    }

    function GetZipcode(): (z: string)
      reads this
      ensures z == zipcode
    {
      zipcode
    }

    function GetTown(): (t: string)
      reads this
      ensures t == town
    {
      town
    }

    function GetState(): (st: Option<string>)
      reads this
      ensures st == state
    {
      state
    }

    function GetLatitude(): (lat: Coordinate)
      requires IsLocated()
      reads this
      ensures lat == latitude
    {
      latitude
    }

    function GetLongitude(): (lon: Coordinate)
      requires IsLocated()
      reads this
      ensures lon == longitude
    {
      longitude
    }

    function GetPopulation(): (n: int32)
      requires IsPopulated()
      reads this
      ensures n == population
    {
      population
    }

    function GetMales(): (m: int32)
      requires IsPopulated()
      reads this
      ensures m == males
    {
      males
    }

    function GetFemales(): (f: int32)
      requires IsPopulated()
      reads this
      ensures f == females
    {
      females
    }

    method SetZipcode(zipcode: string)
      modifies this`zipcode
      ensures GetZipcode() == zipcode
    {
      this.zipcode := zipcode;
    }

    method SetTown(town: string)
      modifies this`town
      ensures GetTown() == town
    {
      this.town := town;
    }

    method SetState(state: Option<string>)
      modifies this`state
      ensures GetState() == state
    {
      this.state := state;
    }

    method SetLatitude(latitude: Coordinate)
      requires IsLocated()
      modifies this`latitude
      ensures GetLatitude() == latitude
    {
      this.latitude := latitude;
    }

    method SetLongitude(longitude: Coordinate)
      requires IsLocated()
      modifies this`longitude
      ensures GetLongitude() == longitude
    {
      this.longitude := longitude;
    }

    method SetPopulation(population: int32)
      requires IsPopulated()
      modifies this`population
      ensures GetPopulation() == population
    {
      this.population := population;
    }

    /** `Place.toString`: `"<zipcode>: <town>, <state>"`, with `%s` printing
        a `null` state as "null". For the two subclasses this is the
        `super.toString()` prefix of their own rendering. */
    function ToString(): string
      reads this
    {
      zipcode + ": " + town + ", " + StateText(state)
    }
  }

  /** What `%s` prints for a nullable string. */
  function StateText(state: Option<string>): string
  {
    match state
    case None => "null"
    case Some(s) => s
  }

  /** The text before the first ':' of a string (all of it if there is none). */
  function BeforeColon(s: string): (r: string)
    ensures |r| <= |s|
  {
    if s == [] || s[0] == ':' then [] else [s[0]] + BeforeColon(s[1..])
  }

  /** The rendering begins with the zipcode and the separator ": ", so a
      zipcode free of ':' can be read back from it. */
  lemma {:induction false} ZipcodeReadBackFromRendering(zipcode: string, rest: string)
    requires ':' !in zipcode
    ensures BeforeColon(zipcode + ": " + rest) == zipcode
  {
    if zipcode != [] {
      assert (zipcode + ": " + rest)[1..] == zipcode[1..] + ": " + rest;
      ZipcodeReadBackFromRendering(zipcode[1..], rest);
    }
  }

  /** `toString` of any place starts with its zipcode, its town and the
      state's text in that order; the zipcode is what precedes the first
      ':' whenever it has none of its own. */
  lemma RenderingLayout(p: Place)
    ensures ':' !in p.zipcode ==> BeforeColon(p.ToString()) == p.zipcode
    ensures p.state == None ==> p.ToString()[|p.ToString()| - 4..] == "null"
  {
    if ':' !in p.zipcode {
      assert p.ToString() == p.zipcode + ": " + (p.town + ", " + StateText(p.state));
      ZipcodeReadBackFromRendering(p.zipcode, p.town + ", " + StateText(p.state));
    }
  }
}
