/** PersonsService: validation, the repository calls, the dispatch of a
    search on a field name, and the shaping of responses. The sort
    dispatcher is in module Sorting. */
module Persons {
  import opened Common
  import opened Entities
  import opened Dto
  import opened Repository

  /** The six fields a search can target. */
  datatype SearchField =
    | SearchByPersonName | SearchByEmail | SearchByDateOfBirth
    | SearchByGender | SearchByCountryID | SearchByAddress

  /** The `searchBy` name of each field (`nameof(PersonResponse.X)`). */
  function SearchFieldName(f: SearchField): string
  {
    match f
    case SearchByPersonName => "PersonName"
    case SearchByEmail => "Email"
    case SearchByDateOfBirth => "DateOfBirth"
    case SearchByGender => "Gender"
    case SearchByCountryID => "CountryID"
    case SearchByAddress => "Address"
  }

  /** The field a `searchBy` value selects; null and every other name select none. */
  function SearchFieldOf(searchBy: Option<string>): Option<SearchField>
  {
    if searchBy.None? then None
    else if searchBy.value == "PersonName" then Some(SearchByPersonName)
    else if searchBy.value == "Email" then Some(SearchByEmail)
    else if searchBy.value == "DateOfBirth" then Some(SearchByDateOfBirth)
    else if searchBy.value == "Gender" then Some(SearchByGender)
    else if searchBy.value == "CountryID" then Some(SearchByCountryID)
    else if searchBy.value == "Address" then Some(SearchByAddress)
    else None
  }

  /** Each field is selected by its own name and by nothing else. */
  lemma SearchFieldNames(f: SearchField, s: string)
    ensures SearchFieldOf(Some(SearchFieldName(f))) == Some(f)
    ensures SearchFieldOf(Some(s)) == Some(f) ==> s == SearchFieldName(f)
  {
  }

  /** What the database decides when it evaluates a search: the translated
      `Contains` test on a nullable column, the "MMM d yyyy" text of a date,
      and the name of the country row a CountryID foreign key joins to. */
  datatype Database = Database(
    contains: (Option<string>, Option<string>) -> bool,
    formatDate: Date -> string,
    countryName: Guid -> Option<string>)

  /** The column a search on field `f` tests. A search by CountryID tests the
      name of the country the person's CountryID foreign key names, as the
      query's join does; a null key joins to no row, so the name is null. */
  function SearchedText(f: SearchField, p: Person, db: Database): Option<string>
  {
    match f
    case SearchByPersonName => p.PersonName
    case SearchByEmail => p.Email
    case SearchByDateOfBirth => if p.DateOfBirth.Some? then Some(db.formatDate(p.DateOfBirth.value)) else None
    case SearchByGender => p.Gender
    case SearchByCountryID => if p.CountryID.Some? then db.countryName(p.CountryID.value) else None
    case SearchByAddress => p.Address
  }

  /** The predicate handed to the repository for a search on field `f`. */
  function SearchPredicate(f: SearchField, searchString: Option<string>, db: Database): Person -> bool
  {
    p => db.contains(SearchedText(f, p, db), searchString)
  }

  /** The persons GetFilteredPersons selects from `all`. */
  function FilteredPersons(all: seq<Person>, searchBy: Option<string>, searchString: Option<string>, db: Database): (r: seq<Person>)
    ensures SearchFieldOf(searchBy).None? ==> r == all
    ensures |r| <= |all|
    ensures forall x :: x in r <==>
      x in all && (SearchFieldOf(searchBy).None?
                   || db.contains(SearchedText(SearchFieldOf(searchBy).value, x, db), searchString))
  {
    match SearchFieldOf(searchBy)
    case None => all
    case Some(f) => Filter(all, SearchPredicate(f, searchString, db))
  }

  /** The responses for `ps`, one per person, in the same order. */
  function Responses(ps: seq<Person>, ageOf: Date -> int): (r: seq<PersonResponse>)
    ensures |r| == |ps| && forall i :: 0 <= i < |ps| ==> r[i] == ToPersonResponse(ps[i], ageOf)
  {
    seq(|ps|, i requires 0 <= i < |ps| => ToPersonResponse(ps[i], ageOf))
  }

  /** The entity after UpdatePerson's seven assignments. */
  function ApplyUpdate(p: Person, r: PersonUpdateRequest): Person
  {
    p.(PersonName := r.PersonName, Email := r.Email, DateOfBirth := r.DateOfBirth,
       Gender := Some(GenderText(r.Gender)), CountryID := r.CountryID,
       Address := r.Address, ReceiveNewsLetters := r.ReceiveNewsLetters)
  }

  /** The update request's fields other than the key, as an add request. */
  function AsAddRequest(r: PersonUpdateRequest): PersonAddRequest
  {
    PersonAddRequest(r.PersonName, r.Email, r.DateOfBirth, r.Gender, r.CountryID, r.Address, r.ReceiveNewsLetters)
  }

  /** An update writes the seven editable fields exactly as adding the same
      data would, and keeps the key, TIN and the loaded country. */
  lemma UpdateOverwritesSevenFields(p: Person, r: PersonUpdateRequest)
    ensures ApplyUpdate(p, r) == ToPerson(AsAddRequest(r)).(PersonID := p.PersonID, TIN := p.TIN, Country := p.Country)
    ensures ApplyUpdate(p, r).PersonID == p.PersonID && ApplyUpdate(p, r).TIN == p.TIN
    ensures ApplyUpdate(p, r).Country == p.Country
  {
  }

  /** An update is a full overwrite, not a patch: the result depends on the old
      entity only through the fields it keeps, so a second update wins outright. */
  lemma UpdateIsFullOverwrite(p: Person, q: Person, r1: PersonUpdateRequest, r2: PersonUpdateRequest)
    ensures p.PersonID == q.PersonID && p.TIN == q.TIN && p.Country == q.Country
            ==> ApplyUpdate(p, r1) == ApplyUpdate(q, r1)
    ensures ApplyUpdate(ApplyUpdate(p, r1), r2) == ApplyUpdate(p, r2)
  {
  }

  /** A search by CountryID reads the foreign key, never the stored Country
      navigation: a just-added person (whose navigation is unset) is searched
      by its key's country name, an update that moves a person to another
      country is searched by the new country's name, and where the navigation
      agrees with the key and with the database both give the same name. */
  lemma CountrySearchFollowsForeignKey(p: Person, q: Person, r: PersonAddRequest, u: PersonUpdateRequest, db: Database)
    ensures p.CountryID == q.CountryID ==> SearchedText(SearchByCountryID, p, db) == SearchedText(SearchByCountryID, q, db)
    ensures SearchedText(SearchByCountryID, ToPerson(r), db)
            == if r.CountryID.Some? then db.countryName(r.CountryID.value) else None
    ensures SearchedText(SearchByCountryID, ApplyUpdate(p, u), db)
            == if u.CountryID.Some? then db.countryName(u.CountryID.value) else None
    ensures CountryMatchesForeignKey(p) && p.Country.Some?
            && db.countryName(p.Country.value.CountryID) == p.Country.value.CountryName
            ==> SearchedText(SearchByCountryID, p, db) == p.Country.value.CountryName
  {
  }

  class PersonsService {
    const repository: PersonsRepository

    ghost predicate Valid()
      reads repository
    {
      repository.Valid()
    }

    constructor (personsRepository: PersonsRepository)
      ensures repository == personsRepository
    {
      repository := personsRepository;
    }

    /** Adds a person: a null request and an invalid one are rejected before
        the store is touched; otherwise the request's entity is stored under a
        fresh key, after every person already stored. */
    method AddPerson(request: Option<PersonAddRequest>, isEmailAddress: string -> bool, ageOf: Date -> int)
      returns (r: Result<PersonResponse>)
      requires Valid()
      modifies repository
      ensures Valid()
      ensures request.None? ==> r == Failure(ArgumentNull("PersonAddRequest"))
      ensures request.Some? && ModelValidation(request.value, isEmailAddress).Some?
              ==> r == Failure(ModelValidation(request.value, isEmailAddress).value)
      ensures r.Success? <==> request.Some? && ModelValidation(request.value, isEmailAddress).None?
      ensures r.Failure? ==> repository.persons == old(repository.persons) && repository.order == old(repository.order)
      ensures r.Success? ==>
        var id := r.value.PersonID;
        var stored := ToPerson(request.value).(PersonID := id);
        && id != EmptyGuid && id !in old(repository.persons)
        && repository.persons == old(repository.persons)[id := stored]
        && repository.order == old(repository.order) + [id]
        && r.value == ToPersonResponse(stored, ageOf)
    {
      if request.None? {
        return Failure(ArgumentNull("PersonAddRequest"));
      }
      var invalid := ModelValidation(request.value, isEmailAddress);
      if invalid.Some? {
        return Failure(invalid.value);
      }
      var person := ToPerson(request.value);
      var id := NewGuid(repository.persons.Keys);
      person := person.(PersonID := id);
      var added := repository.AddPerson(person);
      r := Success(ToPersonResponse(person, ageOf));
    }

    /** Every stored person's response, in the order the persons were added. */
    method GetAllPersons(ageOf: Date -> int) returns (r: seq<PersonResponse>)
      requires Valid()
      ensures r == Responses(repository.All(), ageOf)
    {
      var persons := repository.GetAllPersons();
      r := Responses(persons, ageOf);
    }

    /** The stored person's response; null, not an error, for a null or unknown key. */
    method GetPersonByPersonID(personID: Option<Guid>, ageOf: Date -> int) returns (r: Option<PersonResponse>)
      requires Valid()
      ensures r.None? <==> personID.None? || personID.value !in repository.persons
      ensures r.Some? ==> r.value == ToPersonResponse(repository.persons[personID.value], ageOf)
    {
      if personID.None? {
        return None;
      }
      var person := repository.GetPersonByPersonID(personID.value);
      if person.None? {
        return None;
      }
      r := Some(ToPersonResponse(person.value, ageOf));
    }

    /** The responses of the persons the search on `searchBy` selects; every
        stored person when `searchBy` names none of the six fields. */
    method GetFilteredPersons(searchBy: Option<string>, searchString: Option<string>, db: Database, ageOf: Date -> int)
      returns (r: seq<PersonResponse>)
      requires Valid()
      ensures r == Responses(FilteredPersons(repository.All(), searchBy, searchString, db), ageOf)
    {
      var persons: seq<Person>;
      match SearchFieldOf(searchBy) {
        case Some(f) =>
          persons := repository.GetFilteredPersons(SearchPredicate(f, searchString, db));
        case None =>
          persons := repository.GetAllPersons();
      }
      r := Responses(persons, ageOf);
    }

    /** Overwrites the seven editable fields of the stored person with the
        request's key. A null request, an invalid one (by `validate`, which
        gives the first failing message) and an unknown key are errors that
        leave the store unchanged. */
    method UpdatePerson(request: Option<PersonUpdateRequest>, validate: PersonUpdateRequest -> Option<string>, ageOf: Date -> int)
      returns (r: Result<PersonResponse>)
      requires Valid()
      modifies repository
      ensures Valid()
      ensures request.None? ==> r == Failure(ArgumentNull("Person"))
      ensures request.Some? && validate(request.value).Some?
              ==> r == Failure(Argument(validate(request.value).value))
      ensures request.Some? && validate(request.value).None? && request.value.PersonID !in old(repository.persons)
              ==> r == Failure(Argument("Given person Id doesn't exist."))
      ensures r.Success? <==>
        request.Some? && validate(request.value).None? && request.value.PersonID in old(repository.persons)
      ensures r.Failure? ==> repository.persons == old(repository.persons) && repository.order == old(repository.order)
      ensures r.Success? ==>
        var id := request.value.PersonID;
        var updated := ApplyUpdate(old(repository.persons)[id], request.value);
        && repository.persons == old(repository.persons)[id := updated]
        && repository.order == old(repository.order)
        && r.value == ToPersonResponse(updated, ageOf)
    {
      if request.None? {
        return Failure(ArgumentNull("Person"));
      }
      var req := request.value;
      var invalid := validate(req);
      if invalid.Some? {
        return Failure(Argument(invalid.value));
      }
      var matchingPerson := repository.GetPersonByPersonID(req.PersonID);
      if matchingPerson.None? {
        return Failure(Argument("Given person Id doesn't exist."));
      }
      var person := matchingPerson.value;
      person := person.(PersonName := req.PersonName);
      person := person.(Email := req.Email);
      person := person.(DateOfBirth := req.DateOfBirth);
      person := person.(Gender := Some(GenderText(req.Gender)));
      person := person.(CountryID := req.CountryID);
      person := person.(Address := req.Address);
      person := person.(ReceiveNewsLetters := req.ReceiveNewsLetters);
      var saved := repository.UpdatePerson(person);
      r := Success(ToPersonResponse(person, ageOf));
    }

    /** Deletes by key: a null key is an error; an unknown key gives false and
        changes nothing; a stored key is removed and gives true. */
    method DeletePerson(personID: Option<Guid>) returns (r: Result<bool>)
      requires Valid()
      modifies repository
      ensures Valid()
      ensures personID.None? ==> r == Failure(ArgumentNull("personID"))
      ensures personID.Some? ==> r == Success(personID.value in old(repository.persons))
      ensures r != Success(true) ==> repository.persons == old(repository.persons) && repository.order == old(repository.order)
      ensures r == Success(true) ==>
        && repository.persons == old(repository.persons) - {personID.value}
        && repository.order == Without(old(repository.order), personID.value)
    {
      if personID.None? {
        return Failure(ArgumentNull("personID"));
      }
      var person := repository.GetPersonByPersonID(personID.value);
      if person.None? {
        return Success(false);
      }
      var deleted := repository.DeletePersonByPersonID(personID.value);
      r := Success(true);
    }
  }

  /** A null name is rejected with an ArgumentException and nothing is stored. */
  method AddPersonWithoutName(request: PersonAddRequest, isEmailAddress: string -> bool, ageOf: Date -> int)
    returns (r: Result<PersonResponse>, all: seq<PersonResponse>)
    requires request.PersonName.None?
    ensures r == Failure(Argument(PersonNameRequiredMessage)) && all == []
  {
    var repository := new PersonsRepository();
    var service := new PersonsService(repository);
    r := service.AddPerson(Some(request), isEmailAddress, ageOf);
    all := service.GetAllPersons(ageOf);
  }

  /** A valid request is stored under a non-empty key, and the person listed
      and the person looked up by that key both equal the response of the add. */
  method AddedPersonIsListedAndFound(request: PersonAddRequest, isEmailAddress: string -> bool, ageOf: Date -> int)
    returns (added: Result<PersonResponse>, all: seq<PersonResponse>, found: Option<PersonResponse>)
    requires ModelValidation(request, isEmailAddress).None?
    ensures added.Success? && added.value.PersonID != EmptyGuid
    ensures all == [added.value] && found == Some(added.value)
  {
    var repository := new PersonsRepository();
    var service := new PersonsService(repository);
    added := service.AddPerson(Some(request), isEmailAddress, ageOf);
    all := service.GetAllPersons(ageOf);
    found := service.GetPersonByPersonID(Some(added.value.PersonID), ageOf);
  }
}
