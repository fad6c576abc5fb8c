# Persons and countries CRUD core, in Dafny

This project models the application logic of a small ASP.NET Core CRUD
application. The app manages Person records. Each Person can reference a
Country record through a foreign key. The model covers five pieces:

- **CountriesService** (`countries_service.dfy`, module `Countries`): an
  in-memory list of countries. `AddCountry` rejects a null request
  (ArgumentNullException), a null name (ArgumentException) and a name that is
  already in the list, compared exactly and case-sensitively
  (ArgumentException). Otherwise it appends the country under a fresh key.
  `GetAllCountries` lists the countries in insertion order.
  `GetCountryByCountryID` returns the first match, or null. It is a class over
  a `seq<Country>`. Its invariant, `Valid()`, keeps names present and pairwise
  distinct, and keys non-empty and pairwise distinct.
- **PersonsService** (`persons_service.dfy`, module `Persons`): add, list,
  lookup, search dispatch, update and delete. They run over a persons
  repository. The repository is modelled as an abstract store
  (`persons_repository.dfy`, module `Repository`): a `map<Guid, Person>` keyed
  by PersonID, plus a `seq<Guid>` that records insertion order. Update on a
  missing key is an error. Lookup and delete on a missing key return null and
  false. Update overwrites exactly seven fields.
- **GetSortedPersons** (`sorting.dfy`, module `Sorting`): dispatches on the
  (field, order) pair to a stable sort by the selected key. It is modelled as
  an insertion sort. The result is proved to be ordered, to be a permutation
  of the input, and to keep tied elements in input order. The string order is
  StringComparer.OrdinalIgnoreCase (`ordering.dfy`, module `Ordering`). It
  compares character by character after upper-casing, puts a proper prefix
  first, and puts null before every string. Dates and ages order null first.
  Booleans order false before true.
- **PersonAddRequest** (`dto.dfy`, module `Dto`): the field copy `ToPerson`,
  the gender enum stored as its name text, and the `[Required]`/`[EmailAddress]`
  validation that `ValidationHelper.ModelValidation` applies.
- **Person** (`entities.dfy`, module `Entities`): the entity record with its
  nine columns, the Country navigation and the declared `[StringLength]`
  bounds.
- **PersonsListActionFilter** (`persons_list_action_filter.dfy`, module
  `ActionFilters`): rewrites a non-empty `searchBy` argument that is not one of
  the six searchable fields to `"PersonName"`, in place in the argument
  dictionary.

`common.dfy` (module `Common`) holds nullable values (`Option`), the two
exception types (`Error`), `Result`, and `Guid`. `Guid` is abstracted to a
natural number, with 0 as `Guid.Empty`. `NewGuid` returns a key that is not
`Guid.Empty` and not already in use.

External collaborators become parameters:

- `ageOf` gives a person's age from a date of birth at the current time.
- `isEmailAddress` is the `[EmailAddress]` format test.
- `validate` is the update request's model validation.
- `Database` holds the SQL-side `Contains` test and the date formatting that a
  search uses.

## Model

| member | source | states |
|---|---|---|
| `Common.NewGuid` | Services/CountriesService.cs:34 | the new key is not Guid.Empty and differs from every key in use |
| `Countries.CountriesService.constructor` | Services/CountriesService.cs:11-14 | a new service holds no countries and satisfies the invariant |
| `Countries.CountriesService.AddCountry` | Services/CountriesService.cs:15-38 | null request gives ArgumentNull("countryAddRequest"); null name gives Argument("CountryName"); an existing name (exact match) gives Argument("Country name already exists."); each failure leaves the list unchanged; success happens exactly when the name is new, appends exactly one country at the end under a key that is fresh and non-empty, returns that country's response, and keeps names distinct |
| `Countries.CountWithNamePositive` | Services/CountriesService.cs:27 | the Where(...).Count() > 0 test holds exactly when some stored country carries the name |
| `Countries.AppendKeepsNamesDistinct` | Services/CountriesService.cs:27-35 | appending a country whose name has count 0 keeps all names pairwise distinct |
| `Countries.CountriesService.GetAllCountries` | Services/CountriesService.cs:40-43 | one response per stored country, in insertion order; nothing changes |
| `Countries.CountriesService.GetCountryByCountryID` | Services/CountriesService.cs:45-61 | null exactly when the key is null or matches no country; otherwise the response of the first country with that key |
| `Countries.NewServiceListsNothing` | CRUDTests/CountriesServiceTest.cs:97-105 | a fresh service lists no countries |
| `Countries.AddedCountryIsListed` | CRUDTests/CountriesServiceTest.cs:76-89 | an added country has a non-empty key and appears in the list |
| `Countries.AddedCountryIsFound` | CRUDTests/CountriesServiceTest.cs:155-167 | looking up the key returned by an add gives a response equal to the add's |
| `Countries.DuplicateNameIsRejected` | CRUDTests/CountriesServiceTest.cs:57-72 | a second add with the same name fails with the duplicate error, and only the first country is kept |
| `Dto.GenderTextFaithful` | ServiceContracts/DTO/PersonAddRequest.cs:30 | distinct gender choices give distinct texts (absent gives ""), and every text fits the 10-character Gender column |
| `Dto.ToPersonFields` | ServiceContracts/DTO/PersonAddRequest.cs:23-35 | ToPerson copies name, email, date of birth, address, country key and newsletter flag; stores the gender as its text ("" when absent); leaves PersonID at Guid.Empty and TIN and the Country navigation unset |
| `Dto.ToPersonInjective` | ServiceContracts/DTO/PersonAddRequest.cs:23-35 | two requests map to the same entity exactly when they are equal, so the mapping loses nothing |
| `Dto.ToPersonWithinBounds` | Entities/Person.cs:15-24 | the mapped entity fits the declared column bounds (50, 50, 10, 200) exactly when the request's name, email and address fit theirs |
| `Dto.ModelValidation` | ServiceContracts/DTO/PersonAddRequest.cs:9-14 | no error exactly when the name and email are present and not blank and the email passes the format test; every error is an ArgumentException; a null name gives "Person name can't be empty." |
| `Repository.ProjectKeysDistinct` | Entities/Person.cs:13-14 | PersonID is the key: the listed persons have pairwise distinct PersonIDs |
| `Repository.Filter` | Services/PersonsService.cs:89 | the repository's filtered list holds exactly the persons that satisfy the predicate and is no longer than its input |
| `Repository.Without` | Services/PersonsService.cs:170 | removing a key from the insertion order keeps every other key, in order, and keeps keys distinct |
| `Repository.PersonsRepository.GetAllPersons` | Services/PersonsService.cs:59 | lists every stored person once, in the order their keys were added |
| `Repository.PersonsRepository.GetPersonByPersonID` | Services/PersonsService.cs:71 | the person stored under the key, or null exactly when none is |
| `Repository.PersonsRepository.GetFilteredPersons` | Services/PersonsService.cs:89-101 | exactly the stored persons that satisfy the predicate, in insertion order |
| `Repository.PersonsRepository.AddPerson` | Services/PersonsService.cs:49 | stores the person under its key and appends the key to the insertion order |
| `Repository.PersonsRepository.UpdatePerson` | Services/PersonsService.cs:158 | replaces the stored person with the same key; insertion order is unchanged |
| `Repository.PersonsRepository.DeletePersonByPersonID` | Services/PersonsService.cs:170 | removes the key from the store and from the insertion order |
| `Persons.PersonsService.constructor` | Services/PersonsService.cs:31-36 | the service runs over the given repository |
| `Persons.PersonsService.AddPerson` | Services/PersonsService.cs:40-54 | null request gives ArgumentNull("PersonAddRequest"); an invalid request gives ModelValidation's ArgumentException; both leave the store unchanged; success happens exactly when the request is present and valid, stores ToPerson(request) under a fresh non-empty key after every existing person, and returns that person's response |
| `Persons.PersonsService.GetAllPersons` | Services/PersonsService.cs:56-65 | the responses of all stored persons, in insertion order |
| `Persons.Responses` | Services/PersonsService.cs:61 | one response per person, in the same order |
| `Persons.PersonsService.GetPersonByPersonID` | Services/PersonsService.cs:67-76 | null, not an error, exactly when the key is null or not stored; otherwise the stored person's response |
| `Persons.SearchFieldNames` | Services/PersonsService.cs:88-99 | each of the six searchable fields is selected by its own name and by no other string |
| `Persons.FilteredPersons` | Services/PersonsService.cs:86-102 | an unrecognised or null searchBy gives every person; otherwise a person is kept exactly when the database's Contains test holds for the selected field's column (for CountryID, the name of the country its CountryID foreign key joins to, not the stored navigation) |
| `Persons.CountrySearchFollowsForeignKey` | Services/PersonsService.cs:96-97 | a CountryID search reads only the foreign key: persons with the same key are tested on the same name, a just-added person is tested on its key's country name, an updated person on its new key's country name, and a navigation that agrees with the key gives the same name |
| `Persons.PersonsService.GetFilteredPersons` | Services/PersonsService.cs:78-107 | the responses of exactly the persons FilteredPersons selects from the store, in insertion order |
| `Persons.UpdateOverwritesSevenFields` | Services/PersonsService.cs:150-156 | an update writes name, email, date of birth, gender text, country key, address and newsletter flag as adding the same data would, and keeps PersonID, TIN and the loaded Country |
| `Persons.UpdateIsFullOverwrite` | Services/PersonsService.cs:150-158 | the updated entity depends on the old one only through the kept fields, so a later update wins outright |
| `Persons.PersonsService.UpdatePerson` | Services/PersonsService.cs:137-161 | null request gives ArgumentNull("Person"); invalid gives Argument(message); an unknown key gives Argument("Given person Id doesn't exist."); each failure leaves the store unchanged; otherwise only that person changes, to ApplyUpdate of the old one, with insertion order kept, and its response is returned |
| `Persons.PersonsService.DeletePerson` | Services/PersonsService.cs:163-173 | null key gives ArgumentNull("personID"); otherwise the result is whether the key was stored; an unknown key changes nothing; a stored key is removed from the store and the insertion order |
| `Persons.AddPersonWithoutName` | CRUDTests/PersonsServiceTest.cs:44-56 | adding a request with a null name fails with an ArgumentException, and nothing is stored |
| `Persons.AddedPersonIsListedAndFound` | CRUDTests/PersonsServiceTest.cs:59-73 | a valid added person has a non-empty key, is the one person listed, and is found by its key with a response equal to the add's |
| `Ordering.Folded` | Services/PersonsService.cs:116 | the upper-case folding maps each character position by position |
| `Ordering.FoldedLeqTotal` | Services/PersonsService.cs:116 | under OrdinalIgnoreCase any two strings are comparable |
| `Ordering.FoldedLeqTransitive` | Services/PersonsService.cs:116 | the OrdinalIgnoreCase order is transitive |
| `Ordering.FoldedTieIffSameFolding` | Services/PersonsService.cs:116 | two strings compare equal exactly when they agree after upper-casing |
| `Ordering.TextLeqTotal` | Services/PersonsService.cs:116-117 | nullable strings (null first) are totally ordered |
| `Ordering.TextLeqTransitive` | Services/PersonsService.cs:116-117 | the order on nullable strings is transitive |
| `Sorting.SortFieldNames` | Services/PersonsService.cs:116-131 | each of the eight sortable fields is selected by its own name and by no other string |
| `Sorting.KeyLeqTotal` | Services/PersonsService.cs:116-131 | every field's key order is total |
| `Sorting.KeyLeqTransitive` | Services/PersonsService.cs:116-131 | every field's key order is transitive |
| `Sorting.InsertSorted` | Services/PersonsService.cs:116-131 | inserting into a sorted list keeps it sorted |
| `Sorting.InsertPermutes` | Services/PersonsService.cs:116-131 | inserting adds exactly the one element |
| `Sorting.InsertTies` | Services/PersonsService.cs:116-131 | an inserted element goes after every element tied with it, and no other tie group changes |
| `Sorting.StableSortCorrect` | Services/PersonsService.cs:114-133 | the sort output is ordered by the key in the chosen direction, is a permutation of the input, and keeps each group of equal keys in input order, descending included |
| `Sorting.GetSortedPersons` | Services/PersonsService.cs:109-135 | a null, empty or unknown sortBy returns the input unchanged; a known one returns a stable, ordered permutation of the input by that field and direction |
| `ActionFilters.PersonsListActionFilter.OnActionExecuting` | CRUDExample/Filters/ActionFilters/PersonsListActionFilter.cs:58-91 | the argument dictionary becomes NormalizeSearchBy of what it was |
| `ActionFilters.UnknownSearchByReplaced` | CRUDExample/Filters/ActionFilters/PersonsListActionFilter.cs:69-86 | a non-empty searchBy outside the six options is replaced by "PersonName" |
| `ActionFilters.AcceptedOrEmptySearchByKept` | CRUDExample/Filters/ActionFilters/PersonsListActionFilter.cs:65-81 | an accepted, null or empty searchBy, or a missing one, leaves the arguments unchanged |
| `ActionFilters.OnlySearchByChanges` | CRUDExample/Filters/ActionFilters/PersonsListActionFilter.cs:84 | no argument is added or removed, and every argument other than searchBy keeps its value |
| `ActionFilters.NormalizeIdempotent` | CRUDExample/Filters/ActionFilters/PersonsListActionFilter.cs:73-84 | running the filter twice gives the same arguments as running it once |
| `ActionFilters.OptionsAreServiceSearchFields` | CRUDExample/Filters/ActionFilters/PersonsListActionFilter.cs:71-79 | the filter's six options are exactly the names the service's search dispatches on |
| `ActionFilters.NormalizedSearchByIsDispatched` | Services/PersonsService.cs:86-101 | after the filter, a non-empty searchBy always selects one of the six searches, so only a null or empty one reaches the catch-all |

## Left out

- CSV and Excel export (`GetPersonsCSV`, `GetPersonsExcel`): stream I/O through third-party writers, cell styling and date formatting.
- Logging, the diagnostic context and operation timing: they have no effect on results.
- async/await: every operation is a sequential method.
- How the database evaluates a search. The `Contains` test and the `"MMM d yyyy"` date text are parameters (`Database`), so case sensitivity and null handling are not decided. The code decides neither whether an empty search text matches every person nor whether a null column matches, so the model leaves both to the database. The name a CountryID search tests is the database's too (`Database.countryName`): the name of the country row the person's CountryID key joins to.
- `Persons.PersonsService.GetFilteredPersons`: the model does not state which persons match a given search text, because the database's collation and query translation decide that.
- The persons repository: its source is not part of this model. It is an abstract store that lists persons in insertion order; a database may return rows in another order.
- `ToPersonResponse`: its source is not part of this model. The age comes from the `ageOf` parameter, because it depends on the clock; it is an optional integer rather than a double. The country name comes from the Country navigation, which the repository (not part of this model) loads. The model keeps that navigation as stored data: `ToPerson` leaves it unset and an update does not refresh it, so a response's country name is only as current as what was stored.
- EF Core relationship fix-up: after an update changes CountryID, the model keeps the Country navigation that was loaded.
- `ValidationHelper.ModelValidation`: its source is not part of this model. For an add request, the model takes it to throw an ArgumentException that carries the first failing attribute's message. For an update request, validation is the `validate` parameter.
- The `[EmailAddress]` format check: a library routine, modelled as the parameter `isEmailAddress`.
- GenderOptions, Country, CountryAddRequest, CountryResponse, PersonUpdateRequest and PersonResponse: their sources are not part of this model. Their fields are as the services use them. The gender choices are taken to be Male, Female and Other.
- `Common.NewGuid`: a random GUID generator checks nothing. The model instead picks a key that is provably unused, so collisions are not modelled.
- Ordering.ToUpper: only `a` to `z` are upper-cased; other case mappings are not modelled. Characters are Unicode scalar values rather than UTF-16 code units, so the order of surrogate pairs is not modelled.
- Enum values of SortOrderOptions outside Ascending and Descending: the source sends them to the identity branch; the model has no such values.
- The declared `[StringLength]` bounds: the service does not enforce them; the database columns do. The model states them and proves which mapped entities fit.
- `Person.ToString`: date formatting only.
- The filter's `HttpContext.Items` stash, `OnActionExecuted` (logging only), the controller, hosting and DI setup, and the test host.
- The interfaces in ServiceContracts: they declare stale signatures that the services do not implement, including `UploadCountriesFromExcelFile`.
