/**
 * The city repository: lookups over the store's two tables, the two
 * mutations, `Save`, and the filter-and-order pipeline that feeds the pager.
 * Each read operation is a query over the store's tables and is modelled as a
 * function of those tables (a repository answers it for `context.cities` and
 * `context.pointsOfInterest`).
 */
module Services {
  import opened Wrappers
  import opened Entities
  import opened Text
  import opened Linq
  import opened Ordering

  // ----- Lookups -----

  /** `i` is the first position of a city with id `cityId`. */
  predicate FirstWithId(cities: seq<City>, cityId: int, i: int) {
    0 <= i < |cities| && cities[i].id == cityId
    && forall j :: 0 <= j < i ==> cities[j].id != cityId
  }

  /** `CityExists`: some city has the id. */
  function CityExists(cities: seq<City>, cityId: int): (b: bool)
    ensures b <==> exists i :: 0 <= i < |cities| && cities[i].id == cityId
  {
    Any(cities, (c: City) => c.id == cityId)
  }

  /** `GetCities`: every city, ordered by name. */
  function GetCities(cities: seq<City>): (r: seq<City>)
    ensures forall i, j :: 0 <= i < j < |r| ==> StrLe(r[i].name, r[j].name)
    ensures multiset(r) == multiset(cities)
  {
    OrderBy(ByName, cities)
  }

  /** `GetPointsOfInterestForCity`: the points of interest of one city, each as often as the store holds it. */
  function GetPointsOfInterestForCity(pointsOfInterest: seq<PointOfInterest>, cityId: int): (r: seq<PointOfInterest>)
    ensures forall p :: p in r <==> p in pointsOfInterest && p.cityId == cityId
    ensures forall p :: multiset(r)[p] == if p.cityId == cityId then multiset(pointsOfInterest)[p] else 0
  {
    var ofCity := (p: PointOfInterest) => p.cityId == cityId;
    WhereMultiset(pointsOfInterest, ofCity);
    Where(pointsOfInterest, ofCity)
  }

  /** The city as a query returns it: with `Include`, its points of interest are loaded from the store. */
  function Loaded(city: City, pointsOfInterest: seq<PointOfInterest>, includePointsOfInterest: bool): (r: City)
    ensures r.id == city.id && r.name == city.name && r.description == city.description
    ensures !includePointsOfInterest ==> r == city
    ensures includePointsOfInterest ==>
      forall p :: p in r.pointsOfInterest <==> p in pointsOfInterest && p.cityId == city.id
  {
    if includePointsOfInterest then
      city.(pointsOfInterest := GetPointsOfInterestForCity(pointsOfInterest, city.id))
    else
      city
  }

  /** `GetCity`: the first city with the id, or null when there is none. */
  function GetCity(cities: seq<City>, pointsOfInterest: seq<PointOfInterest>, cityId: int, includePointsOfInterest: bool)
    : (r: Option<City>)
    ensures r.None? <==> !CityExists(cities, cityId)
    ensures r.Some? ==> exists i :: FirstWithId(cities, cityId, i) && r.value == Loaded(cities[i], pointsOfInterest, includePointsOfInterest)
  {
    var withId := (c: City) => c.id == cityId;
    WhereHead(cities, withId);
    match FirstOrDefault(Where(cities, withId))
    case None => None
    case Some(city) => Some(Loaded(city, pointsOfInterest, includePointsOfInterest))
  }

  /** `i` is the first position of a point of interest of city `cityId` with id `pointOfInterestId`. */
  predicate FirstPointOfInterest(pointsOfInterest: seq<PointOfInterest>, cityId: int, pointOfInterestId: int, i: int) {
    0 <= i < |pointsOfInterest|
    && pointsOfInterest[i].cityId == cityId && pointsOfInterest[i].id == pointOfInterestId
    && forall j :: 0 <= j < i ==> !(pointsOfInterest[j].cityId == cityId && pointsOfInterest[j].id == pointOfInterestId)
  }

  /** `GetPointOfInterestForCity`: the first point of interest with both ids, or null. */
  function GetPointOfInterestForCity(pointsOfInterest: seq<PointOfInterest>, cityId: int, pointOfInterestId: int)
    : (r: Option<PointOfInterest>)
    ensures r.None? <==> forall i :: 0 <= i < |pointsOfInterest| ==>
      !(pointsOfInterest[i].cityId == cityId && pointsOfInterest[i].id == pointOfInterestId)
    ensures r.Some? ==> exists i ::
      FirstPointOfInterest(pointsOfInterest, cityId, pointOfInterestId, i) && r.value == pointsOfInterest[i]
  {
    var matching := (p: PointOfInterest) => p.cityId == cityId && p.id == pointOfInterestId;
    WhereHead(pointsOfInterest, matching);
    FirstOrDefault(Where(pointsOfInterest, matching))
  }

  // ----- What the mutations do to the tables -----

  /** The cities after the first city with id `cityId` has `p` appended to its collection. */
  function AppendPointOfInterest(cities: seq<City>, cityId: int, p: PointOfInterest): (r: seq<City>)
    ensures |r| == |cities|
    ensures forall i :: 0 <= i < |cities| && FirstWithId(cities, cityId, i) ==>
      r[i] == cities[i].(pointsOfInterest := cities[i].pointsOfInterest + [p])
    ensures forall i :: 0 <= i < |cities| && !FirstWithId(cities, cityId, i) ==> r[i] == cities[i]
  {
    if cities == [] then []
    else if cities[0].id == cityId then
      [cities[0].(pointsOfInterest := cities[0].pointsOfInterest + [p])] + cities[1..]
    else
      assert forall i :: 0 < i < |cities| ==> (FirstWithId(cities, cityId, i) <==> FirstWithId(cities[1..], cityId, i - 1));
      [cities[0]] + AppendPointOfInterest(cities[1..], cityId, p)
  }

  /** The points of interest after the entity with the key of `p` is removed. */
  function RemovePointOfInterest(pointsOfInterest: seq<PointOfInterest>, p: PointOfInterest): (r: seq<PointOfInterest>)
    ensures forall q :: q in r <==> q in pointsOfInterest && q.id != p.id
    ensures forall q :: multiset(r)[q] == if q.id != p.id then multiset(pointsOfInterest)[q] else 0
  {
    var other := (q: PointOfInterest) => q.id != p.id;
    WhereMultiset(pointsOfInterest, other);
    Where(pointsOfInterest, other)
  }

  // ----- The filters of GetCitiesWithPaging -----

  /** The genre filter: blank applies none; otherwise the lower-cased name equals the trimmed, lower-cased genre. */
  predicate MatchesGenre(genre: Option<string>, c: City)
    ensures IsNullOrWhiteSpace(genre) ==> MatchesGenre(genre, c)
  {
    IsNullOrWhiteSpace(genre) || ToLower(c.name) == ToLower(Trim(genre.value))
  }

  /** The search filter: blank applies none; otherwise the trimmed, lower-cased query occurs in the lower-cased name or description. */
  predicate MatchesSearch(searchQuery: Option<string>, c: City)
    ensures IsNullOrWhiteSpace(searchQuery) ==> MatchesSearch(searchQuery, c)
  {
    IsNullOrWhiteSpace(searchQuery)
    || Contains(ToLower(c.name), ToLower(Trim(searchQuery.value)))
    || Contains(ToLower(c.description), ToLower(Trim(searchQuery.value)))
  }

  /** A city passes both filters. */
  predicate Selects(parameters: CityResourceParameters, c: City)
    ensures IsNullOrWhiteSpace(parameters.genre) && IsNullOrWhiteSpace(parameters.searchQuery) ==> Selects(parameters, c)
  {
    MatchesGenre(parameters.genre, c) && MatchesSearch(parameters.searchQuery, c)
  }

  // ----- The repository -----

  class CityInfoRepository {
    const context: CityInfoContext

    constructor (context: CityInfoContext)
      ensures this.context == context
    {
      this.context := context;
    }

    /** The constructor's null check: a null context is rejected with an argument error. */
    static method Create(context: CityInfoContext?) returns (r: Result<CityInfoRepository, ArgumentError>)
      ensures r.Failure? <==> context == null
      ensures r.Failure? ==> r.error == ArgumentNull("context")
      ensures r.Success? ==> fresh(r.value) && r.value.context == context
    {
      if context == null {
        return Failure(ArgumentNull("context"));
      }
      var repository := new CityInfoRepository(context);
      return Success(repository);
    }

    /** Appends `pointOfInterest` to the collection of the city `GetCity(cityId, false)` returns. */
    method AddPointOfInterestForCity(cityId: int, pointOfInterest: PointOfInterest)
      requires CityExists(context.cities, cityId)
      modifies context
      ensures context.cities == AppendPointOfInterest(old(context.cities), cityId, pointOfInterest)
      ensures context.pointsOfInterest == old(context.pointsOfInterest)
    {
      // The source looks the city up and changes the tracked entity's collection in place.
      var city := GetCity(context.cities, context.pointsOfInterest, cityId, false);
      assert city.Some?;
      context.cities := AppendPointOfInterest(context.cities, cityId, pointOfInterest);
    }

    /** Removes the point of interest from the store's table. */
    method DeletePointOfInterest(pointOfInterest: PointOfInterest)
      modifies context
      ensures context.pointsOfInterest == RemovePointOfInterest(old(context.pointsOfInterest), pointOfInterest)
      ensures context.cities == old(context.cities)
    {
      context.pointsOfInterest := RemovePointOfInterest(context.pointsOfInterest, pointOfInterest);
    }

    /** `Save`: `affectedRows` is what the store's `SaveChanges` reports; zero rows is success. */
    method Save(affectedRows: int) returns (saved: bool)
      ensures saved <==> affectedRows >= 0
      ensures affectedRows == 0 ==> saved
    {
      saved := affectedRows >= 0;
    }

    /**
     * The collection `GetCitiesWithPaging` hands to the pager: the cities
     * both filters select, each as often as the store holds it, ordered by
     * name and then description.
     */
    method GetCitiesWithPaging(parameters: CityResourceParameters) returns (collectionBeforePaging: seq<City>)
      ensures forall c :: c in collectionBeforePaging <==> c in context.cities && Selects(parameters, c)
      ensures forall c ::
        multiset(collectionBeforePaging)[c] == if Selects(parameters, c) then multiset(context.cities)[c] else 0
      ensures Sorted(ByNameThenDescription, collectionBeforePaging)
      ensures IsNullOrWhiteSpace(parameters.genre) && IsNullOrWhiteSpace(parameters.searchQuery) ==>
        collectionBeforePaging == OrderBy(ByNameThenDescription, context.cities)
    {
      collectionBeforePaging := OrderBy(ByNameThenDescription, context.cities);

      if !IsNullOrWhiteSpace(parameters.genre) {
        var genreForWhereClause := ToLower(Trim(parameters.genre.value));
        var byGenre := (c: City) => ToLower(c.name) == genreForWhereClause;
        WhereMultiset(collectionBeforePaging, byGenre);
        WhereSorted(ByNameThenDescription, collectionBeforePaging, byGenre);
        collectionBeforePaging := Where(collectionBeforePaging, byGenre);
      }
      assert forall c ::
        multiset(collectionBeforePaging)[c] == if MatchesGenre(parameters.genre, c) then multiset(context.cities)[c] else 0;

      if !IsNullOrWhiteSpace(parameters.searchQuery) {
        var searchQuery := ToLower(Trim(parameters.searchQuery.value));
        var bySearch := (c: City) => Contains(ToLower(c.name), searchQuery) || Contains(ToLower(c.description), searchQuery);
        WhereMultiset(collectionBeforePaging, bySearch);
        WhereSorted(ByNameThenDescription, collectionBeforePaging, bySearch);
        collectionBeforePaging := Where(collectionBeforePaging, bySearch);
      }
      assert forall c ::
        multiset(collectionBeforePaging)[c] == if Selects(parameters, c) then multiset(context.cities)[c] else 0;
      assert forall c :: c in collectionBeforePaging <==> c in multiset(collectionBeforePaging);
    }
  }
}
