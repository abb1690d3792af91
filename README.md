# City info repository, modelled in Dafny

This project models `CityInfoRepository`, the data-access layer of a
"cities and points of interest" web API. The repository sits on an Entity
Framework context that exposes two tables, `Cities` and `PointsOfInterest`.
It offers five lookups, two mutations, `Save`, and `GetCitiesWithPaging`.
`GetCitiesWithPaging` orders the cities by name and then description. It
then filters them by an optional genre and an optional search query and
passes the result to the pager.

The context is an object with two sequence fields (`Entities.CityInfoContext`).
Cities and points of interest are values with integer keys. Each LINQ
query is read as the matching sequence operation (`Linq.Where`, `Linq.Any`,
`Linq.FirstOrDefault`, `Ordering.OrderBy`). The read operations are
single-expression queries, so they are functions of the two tables
(module `Services`). A repository answers them for `context.cities` and
`context.pointsOfInterest`. The code that changes state or builds a query
step by step lives in methods of the class `Services.CityInfoRepository`:
the mutations, `Save`, the constructor's null check, and
`GetCitiesWithPaging`.

Files:
- wrappers.dfy: `Option` (null) and `Result` (a thrown exception).
- entities.dfy: `City`, `PointOfInterest`, `CityResourceParameters`, the context class.
- text.dfy: white space, `IsNullOrWhiteSpace`, `Trim`, `ToLowerInvariant`, `Contains`.
- linq.dfy: `Where`, `Any`, `FirstOrDefault` and their laws.
- ordering.dfy: ordinal string order, the two city orders, the sort.
- services.dfy: the repository.
- `repository_properties.dfy`: lemmas relating the operations to each other.

The filters of `GetCitiesWithPaging` have declarative definitions:
`Services.MatchesGenre`, `Services.MatchesSearch` and `Services.Selects`.
A blank parameter (null or white space only) selects every city. The genre
filter compares the lower-cased name with the trimmed, lower-cased genre.
The search filter looks for the trimmed, lower-cased query inside the
lower-cased name or the lower-cased description. The method builds its
query with two `Where` clauses, as the source does. Its contract says that
the result holds exactly the cities both predicates select, with their
store multiplicity, sorted by name and then description.

## Model

| member | source | states |
|---|---|---|
| `Services.CityExists` | ResourceManagement/Services/CityInfoRepository.cs:26-29 | true exactly when some city in the table has the id |
| `Linq.Any` | ResourceManagement/Services/CityInfoRepository.cs:28 | `Any` holds exactly when some element satisfies the predicate |
| `Services.GetCities` | ResourceManagement/Services/CityInfoRepository.cs:31-34 | every city exactly as often as the table holds it (a permutation), in non-decreasing order of name |
| `Ordering.OrderBy` | ResourceManagement/Services/CityInfoRepository.cs:33 | the sort returns a sorted permutation of its input |
| `Ordering.Insert` | ResourceManagement/Services/CityInfoRepository.cs:33 | inserting into a sorted sequence keeps it sorted and adds exactly the one element |
| `Ordering.StrLeReflexive` | ResourceManagement/Services/CityInfoRepository.cs:33 | the ordinal string order is reflexive |
| `Ordering.StrLeTotal` | ResourceManagement/Services/CityInfoRepository.cs:33 | any two strings are ordered one way or the other |
| `Ordering.StrLeAntisymmetric` | ResourceManagement/Services/CityInfoRepository.cs:33 | two strings ordered both ways are equal |
| `Ordering.StrLeTransitive` | ResourceManagement/Services/CityInfoRepository.cs:33 | the ordinal string order is transitive |
| `Ordering.LeTotal` | ResourceManagement/Services/CityInfoRepository.cs:72-73 | ordering by name, or by name then description, relates any two cities |
| `Ordering.LeTransitive` | ResourceManagement/Services/CityInfoRepository.cs:72-73 | both city orders are transitive |
| `Linq.FirstOrDefault` | ResourceManagement/Services/CityInfoRepository.cs:41-44 | null exactly when the sequence is empty; otherwise its first element |
| `Services.Loaded` | ResourceManagement/Services/CityInfoRepository.cs:40 | id, name and description are kept; without the eager load the city is unchanged; with it, the collection holds exactly the table's points of interest whose city id is the city's |
| `Text.IsWhiteSpace` | ResourceManagement/Services/CityInfoRepository.cs:75 | a white-space character is no ASCII letter and no digit |
| `Text.IsNullOrWhiteSpace` | ResourceManagement/Services/CityInfoRepository.cs:75 | true exactly when the string is null or trims to the empty string |
| `Services.MatchesGenre` | ResourceManagement/Services/CityInfoRepository.cs:75-79 | a blank genre selects every city |
| `Services.MatchesSearch` | ResourceManagement/Services/CityInfoRepository.cs:81-86 | a blank query selects every city |
| `Services.Selects` | ResourceManagement/Services/CityInfoRepository.cs:75-86 | two blank parameters select every city |
| `Ordering.StrLe` | ResourceManagement/Services/CityInfoRepository.cs:33 | the empty string comes first, and a string comes no later than any string it is a prefix of |
| `Ordering.Le` | ResourceManagement/Services/CityInfoRepository.cs:72-73 | both orders put names in ordinal order; for equal names, ordering by name then description is the ordinal order of the descriptions |
| `Services.GetCity` | ResourceManagement/Services/CityInfoRepository.cs:36-45 | null exactly when `CityExists` is false; otherwise the first city with the id, with its points of interest loaded from the table when `includePointsOfInterest` is set |
| `Linq.WhereHead` | ResourceManagement/Services/CityInfoRepository.cs:41 | `Where(...).FirstOrDefault()` is null exactly when nothing matches, else the first match |
| `Services.GetPointOfInterestForCity` | ResourceManagement/Services/CityInfoRepository.cs:47-51 | null exactly when no point of interest has both ids; otherwise the first one that does |
| `Services.GetPointsOfInterestForCity` | ResourceManagement/Services/CityInfoRepository.cs:53-57 | exactly the points of interest with that city id, each as often as the table holds it |
| `RepositoryProperties.PointsOfInterestInStoreOrder` | ResourceManagement/Services/CityInfoRepository.cs:53-57 | the answer keeps table order: the answer for a concatenated table is the concatenation of the answers |
| `Linq.Where` | ResourceManagement/Services/CityInfoRepository.cs:56 | `Where` keeps exactly the elements that satisfy the predicate |
| `Linq.WhereConcat` | ResourceManagement/Services/CityInfoRepository.cs:56 | `Where` distributes over concatenation, so it keeps the input order |
| `Linq.WhereMultiset` | ResourceManagement/Services/CityInfoRepository.cs:56 | `Where` keeps each satisfying element exactly as often as it occurs |
| `Services.AppendPointOfInterest` | ResourceManagement/Services/CityInfoRepository.cs:20-24 | the first city with the id gets the point of interest appended to its collection; every other city and every other field is unchanged |
| `Services.CityInfoRepository.AddPointOfInterestForCity` | ResourceManagement/Services/CityInfoRepository.cs:20-24 | requires that the city exists; the cities table becomes `AppendPointOfInterest` of the old one; the points-of-interest table is unchanged |
| `RepositoryProperties.AddedPointOfInterestIsInCity` | ResourceManagement/Services/CityInfoRepository.cs:20-24 | afterwards `GetCity(cityId, false)`, the lookup line 22 makes, returns the same city with the old collection plus the new point of interest at the end |
| `RepositoryProperties.AddKeepsCityIds` | ResourceManagement/Services/CityInfoRepository.cs:20-24 | adding changes no answer of `CityExists` |
| `RepositoryProperties.AddLeavesOtherCities` | ResourceManagement/Services/CityInfoRepository.cs:20-24 | adding changes no `GetCity` answer for any other id |
| `Services.RemovePointOfInterest` | ResourceManagement/Services/CityInfoRepository.cs:59-62 | the table without the entity with that key; every other row stays, as often as before |
| `Services.CityInfoRepository.DeletePointOfInterest` | ResourceManagement/Services/CityInfoRepository.cs:59-62 | the points-of-interest table becomes `RemovePointOfInterest` of the old one; the cities table is unchanged |
| `RepositoryProperties.DeletedPointOfInterestIsGone` | ResourceManagement/Services/CityInfoRepository.cs:59-62 | afterwards `GetPointOfInterestForCity` finds nothing with the deleted id, for any city |
| `RepositoryProperties.DeleteLeavesOtherPointsOfInterest` | ResourceManagement/Services/CityInfoRepository.cs:59-62 | deleting changes no lookup of a point of interest with another id |
| `Linq.WhereWhere` | ResourceManagement/Services/CityInfoRepository.cs:75-86 | two `Where` clauses in a row keep exactly what satisfies both (the filters combine with AND) |
| `Services.CityInfoRepository.Save` | ResourceManagement/Services/CityInfoRepository.cs:64-67 | success exactly when the affected-row count is at least zero, so a save of zero rows succeeds |
| `Services.CityInfoRepository.Create` | ResourceManagement/Services/CityInfoRepository.cs:15-18 | a null context is rejected with an argument-null error naming `context`; otherwise a new repository over that context |
| `Services.CityInfoRepository.constructor` | ResourceManagement/Services/CityInfoRepository.cs:15-18 | the repository keeps the context it is given |
| `Services.CityInfoRepository.GetCitiesWithPaging` | ResourceManagement/Services/CityInfoRepository.cs:69-88 | the collection handed to the pager holds a city exactly when both filters select it, as often as the table holds it, sorted by name then description; with both parameters blank it is every city in that order |
| `Ordering.WhereSorted` | ResourceManagement/Services/CityInfoRepository.cs:78 | filtering a sorted collection keeps it sorted |
| `Text.Trim` | ResourceManagement/Services/CityInfoRepository.cs:77 | the result sits in the input between white space, has no white space at either end, and is empty exactly when the input is all white space |
| `Text.TrimUnique` | ResourceManagement/Services/CityInfoRepository.cs:77 | those properties determine `Trim` |
| `Text.TrimPadding` | ResourceManagement/Services/CityInfoRepository.cs:83 | white space added around a string is trimmed away |
| `Text.ToLowerChar` | ResourceManagement/Services/CityInfoRepository.cs:77 | upper-case ASCII letters map to lower case, all else is kept, white space stays white space |
| `Text.ToLower` | ResourceManagement/Services/CityInfoRepository.cs:78 | same length, character by character lower-cased, no upper-case letter left |
| `Text.ToLowerIdempotent` | ResourceManagement/Services/CityInfoRepository.cs:78 | lower-casing twice is lower-casing once |
| `Text.ToLowerTrim` | ResourceManagement/Services/CityInfoRepository.cs:83 | trimming and lower-casing commute |
| `Text.Contains` | ResourceManagement/Services/CityInfoRepository.cs:84-85 | `Contains` holds exactly when the query occurs at some offset |
| `RepositoryProperties.GenreFilterIgnoresCase` | ResourceManagement/Services/CityInfoRepository.cs:75-79 | two genres equal up to case select the same cities |
| `RepositoryProperties.GenreFilterIgnoresPadding` | ResourceManagement/Services/CityInfoRepository.cs:75-79 | white space around the genre does not change what it selects |
| `RepositoryProperties.GenreMatchesOwnName` | ResourceManagement/Services/CityInfoRepository.cs:75-79 | a city whose name is non-empty and has no white space at either end is selected by its own name as genre, lower-cased and padded |
| `RepositoryProperties.SearchFilterIgnoresCase` | ResourceManagement/Services/CityInfoRepository.cs:81-86 | two queries equal up to case select the same cities |
| `RepositoryProperties.SearchFilterIgnoresPadding` | ResourceManagement/Services/CityInfoRepository.cs:81-86 | white space around the query does not change what it selects |
| `RepositoryProperties.SearchMatchesName` | ResourceManagement/Services/CityInfoRepository.cs:81-86 | the query "par" selects every city named "Paris" |
| `RepositoryProperties.SearchMatchesDescription` | ResourceManagement/Services/CityInfoRepository.cs:81-86 | the query " PAR " selects every city whose lower-cased description contains "par", by trimming and lower-casing the query |
| `RepositoryProperties.SearchExcludesNeither` | ResourceManagement/Services/CityInfoRepository.cs:81-86 | the query "par" selects no city whose lower-cased name and lower-cased description both lack "par" |

`Save` returns true for any count of zero or more (line 66), so a save
that changes nothing succeeds.

## Left out

- `PagedList<T>.Create` (line 88) is not part of this model. `GetCitiesWithPaging` returns the collection it would hand to the pager. The page number, the page size and the page metadata are not modelled.
- Entity Framework change tracking is not modelled. A point of interest added to a city's collection does not appear in the points-of-interest table. Entity Framework would set its `CityId` and insert it on `SaveChanges`, and the model does not do that.
- Services.CityInfoRepository.Save: `SaveChanges` is an outside call, so its affected-row count is a parameter. Persistence, and the exceptions a failed save throws, are not modelled.
- Services.GetCity: the eager load (`Include`, line 40) is modelled as replacing the city's collection with the table's points of interest for that city. Entity Framework also merges in tracked entries that are not saved yet, and the model does not. So an eager-loaded lookup after `AddPointOfInterestForCity` does not show the added point of interest, although Entity Framework's fix-up would.
- Services.CityInfoRepository.AddPointOfInterestForCity: requires that the city exists. The source dereferences the null that `GetCity` returns for a missing city (line 23), so the caller must check first.
- Services.CityInfoRepository.DeletePointOfInterest: the removal is applied to the table at once, as `SaveChanges` would apply it. The source's `Remove` (line 61) only marks the entity as deleted, and queries before `SaveChanges` still see it. The model's `Save` commits nothing. The method removes the rows whose key equals the entity's `Id`, because Entity Framework identifies entities by key. The model does not cover the exceptions Entity Framework throws for an untracked copy of a tracked entity, or for a row that is already gone.
- Entities are values, so the city `GetCity` returns is a copy. The source returns the tracked object itself, and the model does not capture that aliasing.
- Text.ToLower: lower-cases only the ASCII letters. `ToLowerInvariant` also maps other Unicode letters. White space is .NET's full `char.IsWhiteSpace` set.
- Ordering.StrLe: compares strings ordinally. The database sorts with its own collation, which the model does not know.
- Services.GetCities: does not say how cities with equal names are ordered among themselves. A database `ORDER BY` does not promise a stable order either.
- Description is a non-null string. Line 85 reads `Description` only when the search query is not blank and the city's lower-cased name does not contain the query, because `||` stops at a true left side. Only then would a null description throw, and that case is not modelled. A null `Name`, a null `cityResourceParameters` object, and the translation of these queries to SQL are not modelled either.
- Dependency injection, the controllers and the `CityInfoContext` configuration are not part of this model.
