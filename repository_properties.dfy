/**
 * What the repository's operations promise about each other: a lookup after
 * a mutation, the store order of a city's points of interest, and the
 * case- and padding-insensitivity of the paging filters.
 */
module RepositoryProperties {
  import opened Wrappers
  import opened Entities
  import opened Text
  import opened Linq
  import opened Services

  lemma FirstWithIdUnique(cities: seq<City>, cityId: int, i: int, j: int)
    requires FirstWithId(cities, cityId, i) && FirstWithId(cities, cityId, j)
    ensures i == j
  {
  }

  /** After adding, looking the city up finds its old collection with the new point of interest at the end. */
  lemma AddedPointOfInterestIsInCity(cities: seq<City>, pointsOfInterest: seq<PointOfInterest>, cityId: int, p: PointOfInterest)
    requires CityExists(cities, cityId)
    ensures var city := GetCity(cities, pointsOfInterest, cityId, false).value;
      GetCity(AppendPointOfInterest(cities, cityId, p), pointsOfInterest, cityId, false)
        == Some(city.(pointsOfInterest := city.pointsOfInterest + [p]))
  {
    var after := AppendPointOfInterest(cities, cityId, p);
    var city := GetCity(cities, pointsOfInterest, cityId, false).value;
    var i :| FirstWithId(cities, cityId, i) && city == cities[i];
    assert after[i] == city.(pointsOfInterest := city.pointsOfInterest + [p]);
    assert FirstWithId(after, cityId, i) by {
      forall j | 0 <= j < i ensures after[j].id != cityId {
        assert !FirstWithId(cities, cityId, j);
      }
    }
    var now := GetCity(after, pointsOfInterest, cityId, false);
    var k :| FirstWithId(after, cityId, k) && now.value == after[k];
    FirstWithIdUnique(after, cityId, i, k);
  }

  /** Adding changes no city's id, so the same cities exist afterwards. */
  lemma AddKeepsCityIds(cities: seq<City>, cityId: int, p: PointOfInterest, id: int)
    ensures CityExists(AppendPointOfInterest(cities, cityId, p), id) == CityExists(cities, id)
  {
    var after := AppendPointOfInterest(cities, cityId, p);
    assert forall i :: 0 <= i < |cities| ==> after[i].id == cities[i].id;
  }

  /** Adding to one city leaves the lookup of every other city as it was. */
  lemma AddLeavesOtherCities(cities: seq<City>, pointsOfInterest: seq<PointOfInterest>, cityId: int, p: PointOfInterest,
                             otherId: int, includePointsOfInterest: bool)
    requires otherId != cityId
    ensures GetCity(AppendPointOfInterest(cities, cityId, p), pointsOfInterest, otherId, includePointsOfInterest)
      == GetCity(cities, pointsOfInterest, otherId, includePointsOfInterest)
  {
    var after := AppendPointOfInterest(cities, cityId, p);
    AddKeepsCityIds(cities, cityId, p, otherId);
    var before := GetCity(cities, pointsOfInterest, otherId, includePointsOfInterest);
    var now := GetCity(after, pointsOfInterest, otherId, includePointsOfInterest);
    assert forall i :: 0 <= i < |cities| ==> after[i].id == cities[i].id;
    if before.Some? {
      var i :| FirstWithId(cities, otherId, i) && before.value == Loaded(cities[i], pointsOfInterest, includePointsOfInterest);
      var k :| FirstWithId(after, otherId, k) && now.value == Loaded(after[k], pointsOfInterest, includePointsOfInterest);
      assert FirstWithId(cities, otherId, k);
      FirstWithIdUnique(cities, otherId, i, k);
      assert !FirstWithId(cities, cityId, i);
    }
  }

  /** After deleting a point of interest, no lookup by its id finds it. */
  lemma DeletedPointOfInterestIsGone(pointsOfInterest: seq<PointOfInterest>, p: PointOfInterest, cityId: int)
    ensures GetPointOfInterestForCity(RemovePointOfInterest(pointsOfInterest, p), cityId, p.id) == None
  {
    var after := RemovePointOfInterest(pointsOfInterest, p);
    forall i | 0 <= i < |after| ensures after[i].id != p.id {
      assert after[i] in after;
    }
  }

  /** Deleting a point of interest leaves the lookup of every other one as it was. */
  lemma DeleteLeavesOtherPointsOfInterest(pointsOfInterest: seq<PointOfInterest>, p: PointOfInterest,
                                         cityId: int, pointOfInterestId: int)
    requires pointOfInterestId != p.id
    ensures GetPointOfInterestForCity(RemovePointOfInterest(pointsOfInterest, p), cityId, pointOfInterestId)
      == GetPointOfInterestForCity(pointsOfInterest, cityId, pointOfInterestId)
  {
    var other := (q: PointOfInterest) => q.id != p.id;
    var matching := (q: PointOfInterest) => q.cityId == cityId && q.id == pointOfInterestId;
    WhereWhere(pointsOfInterest, other, matching, matching);
  }

  /** A city's points of interest come in store order: splitting the table splits the answer. */
  lemma PointsOfInterestInStoreOrder(a: seq<PointOfInterest>, b: seq<PointOfInterest>, cityId: int)
    ensures GetPointsOfInterestForCity(a + b, cityId)
      == GetPointsOfInterestForCity(a, cityId) + GetPointsOfInterestForCity(b, cityId)
  {
    WhereConcat(a, b, (p: PointOfInterest) => p.cityId == cityId);
  }

  lemma ToLowerKeepsBlank(s: string)
    ensures AllWhiteSpace(ToLower(s)) <==> AllWhiteSpace(s)
  {
    var t := ToLower(s);
    assert forall i :: 0 <= i < |s| ==> (IsWhiteSpace(t[i]) <==> IsWhiteSpace(s[i]));
  }

  /** Two filter strings that agree once lower-cased give the same trimmed, lower-cased filter value. */
  lemma SameFilterValue(a: string, b: string)
    requires ToLower(a) == ToLower(b)
    ensures IsNullOrWhiteSpace(Some(a)) == IsNullOrWhiteSpace(Some(b))
    ensures ToLower(Trim(a)) == ToLower(Trim(b))
  {
    ToLowerKeepsBlank(a);
    ToLowerKeepsBlank(b);
    ToLowerTrim(a);
    ToLowerTrim(b);
  }

  /** The genre filter ignores the case of the genre. */
  lemma GenreFilterIgnoresCase(a: string, b: string, c: City)
    requires ToLower(a) == ToLower(b)
    ensures MatchesGenre(Some(a), c) == MatchesGenre(Some(b), c)
  {
    SameFilterValue(a, b);
  }

  /** The search filter ignores the case of the query. */
  lemma SearchFilterIgnoresCase(a: string, b: string, c: City)
    requires ToLower(a) == ToLower(b)
    ensures MatchesSearch(Some(a), c) == MatchesSearch(Some(b), c)
  {
    SameFilterValue(a, b);
  }

  /** White space around a filter string does not change what the genre filter selects. */
  lemma GenreFilterIgnoresPadding(g: string, before: string, after: string, c: City)
    requires AllWhiteSpace(before) && AllWhiteSpace(after)
    ensures MatchesGenre(Some(before + g + after), c) == MatchesGenre(Some(g), c)
  {
    TrimPadding(g, before, after);
  }

  /** White space around a search query does not change what the search filter selects. */
  lemma SearchFilterIgnoresPadding(q: string, before: string, after: string, c: City)
    requires AllWhiteSpace(before) && AllWhiteSpace(after)
    ensures MatchesSearch(Some(before + q + after), c) == MatchesSearch(Some(q), c)
  {
    TrimPadding(q, before, after);
  }

  /** The genre filter selects a city whose genre is its own name in any case, with any padding. */
  lemma GenreMatchesOwnName(c: City, before: string, after: string)
    requires AllWhiteSpace(before) && AllWhiteSpace(after)
    requires c.name != [] && !IsWhiteSpace(c.name[0]) && !IsWhiteSpace(c.name[|c.name| - 1])
    ensures MatchesGenre(Some(before + ToLower(c.name) + after), c)
  {
    var name := ToLower(c.name);
    TrimPadding(name, before, after);
    assert name[0..|name|] == name;
    TrimUnique(name, name, 0);
    ToLowerIdempotent(c.name);
  }

  /** A query without white space at its ends is its own trimmed form. */
  lemma TrimmedQuery(q: string)
    requires q != [] && !IsWhiteSpace(q[0]) && !IsWhiteSpace(q[|q| - 1])
    ensures !IsNullOrWhiteSpace(Some(q)) && Trim(q) == q
  {
    assert q[0..|q|] == q;
    TrimUnique(q, q, 0);
  }

  /** The search "par" selects every city named "Paris". */
  lemma SearchMatchesName(c: City)
    requires c.name == "Paris"
    ensures MatchesSearch(Some("par"), c)
  {
    TrimmedQuery("par");
    assert ToLower("par") == "par";
    assert ToLower("Paris") == "paris";
    assert OccursAt("paris", "par", 0);
  }

  /** The search " PAR " selects every city whose lower-cased description holds "par". */
  lemma SearchMatchesDescription(c: City)
    requires Contains(ToLower(c.description), "par")
    ensures MatchesSearch(Some(" PAR "), c)
  {
    var query := " PAR ";
    assert query[1] == 'P' && query[2] == 'A' && query[3] == 'R';
    assert query[1..4] == "PAR";
    assert PaddedAt(query, "PAR", 1);
    TrimUnique(query, "PAR", 1);
    assert !IsNullOrWhiteSpace(Some(" PAR ")) by {
      assert !IsWhiteSpace(" PAR "[1]);
    }
    assert ToLower("PAR") == "par";
  }

  /** The search "par" leaves out every city whose lower-cased name and description both lack it. */
  lemma SearchExcludesNeither(c: City)
    requires !Contains(ToLower(c.name), "par") && !Contains(ToLower(c.description), "par")
    ensures !MatchesSearch(Some("par"), c)
  {
    TrimmedQuery("par");
    assert ToLower("par") == "par";
  }
}
