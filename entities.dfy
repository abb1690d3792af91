/**
 * The entities the repository serves, as values. `Id` and `CityId` are the
 * database keys; a city owns the collection of its points of interest.
 */
module Entities {
  import opened Wrappers

  datatype PointOfInterest = PointOfInterest(id: int, cityId: int, name: string, description: string)

  datatype City = City(id: int, name: string, description: string, pointsOfInterest: seq<PointOfInterest>)

  /**
   * The query string of a paged request. `Genre` and `SearchQuery` may be
   * null; the paging fields go only to the pager, which is not modelled.
   */
  datatype CityResourceParameters = CityResourceParameters(genre: Option<string>, searchQuery: Option<string>)

  /** The argument-validation error the constructor throws. */
  datatype ArgumentError = ArgumentNull(paramName: string)

  /**
   * The store context: the two tables, as the repository sees them through
   * `Cities` and `PointsOfInterest`. It is shared with whoever created it,
   * so it is an object whose tables the repository changes in place.
   */
  class CityInfoContext {
    var cities: seq<City>
    var pointsOfInterest: seq<PointOfInterest>

    constructor (cities: seq<City>, pointsOfInterest: seq<PointOfInterest>)
      ensures this.cities == cities && this.pointsOfInterest == pointsOfInterest
    {
      this.cities := cities;
      this.pointsOfInterest := pointsOfInterest;
    }
  }
}
