/** The request and response objects of the ServiceContracts.DTO namespace,
    the request-to-entity mapping, and the declarative validation of an add
    request. */
module Dto {
  import opened Common
  import opened Entities

  /** The gender choices a request can carry. */
  datatype GenderOptions = Male | Female | Other

  /** `Gender.ToString()` on a nullable enum: the member's name, or "" when absent. */
  function GenderText(g: Option<GenderOptions>): string
  {
    match g
    case None => ""
    case Some(Male) => "Male"
    case Some(Female) => "Female"
    case Some(Other) => "Other"
  }

  /** Distinct gender choices are stored as distinct texts, and every text fits the Gender column. */
  lemma GenderTextFaithful(a: Option<GenderOptions>, b: Option<GenderOptions>)
    ensures GenderText(a) == GenderText(b) <==> a == b
    ensures |GenderText(a)| <= GenderMaxLength
  {
  }

  /** The form data for creating a person. */
  datatype PersonAddRequest = PersonAddRequest(
    PersonName: Option<string>,
    Email: Option<string>,
    DateOfBirth: Option<Date>,
    Gender: Option<GenderOptions>,
    CountryID: Option<Guid>,
    Address: Option<string>,
    ReceiveNewsLetters: bool)

  /** PersonAddRequest.ToPerson(): a new entity built from the request's fields. */
  function ToPerson(r: PersonAddRequest): Person
  {
    Person(
      PersonID := EmptyGuid,
      PersonName := r.PersonName,
      Email := r.Email,
      DateOfBirth := r.DateOfBirth,
      Gender := Some(GenderText(r.Gender)),
      CountryID := r.CountryID,
      Address := r.Address,
      ReceiveNewsLetters := r.ReceiveNewsLetters,
      TIN := None,
      Country := None)
  }

  /** ToPerson copies six fields unchanged, stores the gender as its name text,
      and leaves the key at Guid.Empty and TIN and the navigation unset. */
  lemma ToPersonFields(r: PersonAddRequest)
    ensures ToPerson(r).PersonName == r.PersonName && ToPerson(r).Email == r.Email
    ensures ToPerson(r).DateOfBirth == r.DateOfBirth && ToPerson(r).Address == r.Address
    ensures ToPerson(r).CountryID == r.CountryID
    ensures ToPerson(r).ReceiveNewsLetters == r.ReceiveNewsLetters
    ensures ToPerson(r).Gender == Some(GenderText(r.Gender))
    ensures r.Gender.None? ==> ToPerson(r).Gender == Some("")
    ensures ToPerson(r).PersonID == EmptyGuid
    ensures ToPerson(r).TIN.None? && ToPerson(r).Country.None?
  {
  }

  /** ToPerson loses nothing: two requests map to the same entity only if they are equal. */
  lemma ToPersonInjective(r1: PersonAddRequest, r2: PersonAddRequest)
    ensures ToPerson(r1) == ToPerson(r2) <==> r1 == r2
  {
    if ToPerson(r1) == ToPerson(r2) {
      GenderTextFaithful(r1.Gender, r2.Gender);
    }
  }

  /** The entity built from a request fits the declared column bounds exactly
      when the request's name, email and address do; the gender text always fits. */
  lemma ToPersonWithinBounds(r: PersonAddRequest)
    ensures WithinDeclaredBounds(ToPerson(r)) <==>
      FitsLength(r.PersonName, PersonNameMaxLength) && FitsLength(r.Email, EmailMaxLength)
      && FitsLength(r.Address, AddressMaxLength)
  {
    GenderTextFaithful(r.Gender, r.Gender);
  }

  /** char.IsWhiteSpace: the Unicode space, line and paragraph separators and
      the control characters U+0009 to U+000D and U+0085. */
  predicate IsWhiteSpace(c: char)
  {
    || c == ' ' || ('\t' <= c <= '\r') || c == '\U{0085}' || c == '\U{00A0}'
    || c == '\U{1680}' || ('\U{2000}' <= c <= '\U{200A}') || c == '\U{2028}' || c == '\U{2029}'
    || c == '\U{202F}' || c == '\U{205F}' || c == '\U{3000}'
  }

  /** [Required] on a string: not null, and not empty or white space only. */
  predicate Required(s: Option<string>)
  {
    s.Some? && exists i :: 0 <= i < |s.value| && !IsWhiteSpace(s.value[i])
  }

  const PersonNameRequiredMessage := "Person name can't be empty."
  const EmailRequiredMessage := "Email can't be empty."
  const EmailFormatMessage := "Email value should be a valid email."

  /** The messages of the failing attributes, property by property in declaration
      order; within a property a failing [Required] stops the other checks.
      `isEmailAddress` is the format test of [EmailAddress]. */
  function ValidationErrors(r: PersonAddRequest, isEmailAddress: string -> bool): seq<string>
  {
    (if Required(r.PersonName) then [] else [PersonNameRequiredMessage])
    + (if !Required(r.Email) then [EmailRequiredMessage]
       else if isEmailAddress(r.Email.value) then []
       else [EmailFormatMessage])
  }

  /** ValidationHelper.ModelValidation: the ArgumentException it throws, carrying
      the first failing attribute's message, or None when the request is valid. */
  function ModelValidation(r: PersonAddRequest, isEmailAddress: string -> bool): (e: Option<Error>)
    ensures e.None? <==> Required(r.PersonName) && Required(r.Email) && isEmailAddress(r.Email.value)
    ensures e.Some? ==> e.value.Argument?
    ensures r.PersonName.None? ==> e == Some(Argument(PersonNameRequiredMessage))
    ensures Required(r.PersonName) && r.Email.None? ==> e == Some(Argument(EmailRequiredMessage))
  {
    var errors := ValidationErrors(r, isEmailAddress);
    if errors == [] then None else Some(Argument(errors[0]))
  }

  /** The form data for creating a country. */
  datatype CountryAddRequest = CountryAddRequest(CountryName: Option<string>)

  /** CountryAddRequest.ToCountry(): the name, with the key left at Guid.Empty. */
  function ToCountry(r: CountryAddRequest): Country
  {
    Country(EmptyGuid, r.CountryName)
  }

  /** What the service returns for a country. */
  datatype CountryResponse = CountryResponse(CountryID: Guid, CountryName: Option<string>)

  function ToCountryResponse(c: Country): CountryResponse
  {
    CountryResponse(c.CountryID, c.CountryName)
  }

  /** The form data for editing a person: the key and the seven editable fields. */
  datatype PersonUpdateRequest = PersonUpdateRequest(
    PersonID: Guid,
    PersonName: Option<string>,
    Email: Option<string>,
    DateOfBirth: Option<Date>,
    Gender: Option<GenderOptions>,
    CountryID: Option<Guid>,
    Address: Option<string>,
    ReceiveNewsLetters: bool)

  /** What the service returns for a person: the stored fields without TIN,
      the loaded country's name, and the age computed from the date of birth. */
  datatype PersonResponse = PersonResponse(
    PersonID: Guid,
    PersonName: Option<string>,
    Email: Option<string>,
    DateOfBirth: Option<Date>,
    Gender: Option<string>,
    CountryID: Option<Guid>,
    Country: Option<string>,
    Address: Option<string>,
    ReceiveNewsLetters: bool,
    Age: Option<int>)

  /** Person.ToPersonResponse(); `ageOf` gives the age for a date of birth at the current time. */
  function ToPersonResponse(p: Person, ageOf: Date -> int): PersonResponse
  {
    PersonResponse(
      PersonID := p.PersonID,
      PersonName := p.PersonName,
      Email := p.Email,
      DateOfBirth := p.DateOfBirth,
      Gender := p.Gender,
      CountryID := p.CountryID,
      Country := if p.Country.Some? then p.Country.value.CountryName else None,
      Address := p.Address,
      ReceiveNewsLetters := p.ReceiveNewsLetters,
      Age := if p.DateOfBirth.Some? then Some(ageOf(p.DateOfBirth.value)) else None)
  }
}
