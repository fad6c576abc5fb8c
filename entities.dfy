/** The records of the Entities namespace, as the database stores them. */
module Entities {
  import opened Common

  /** A DateTime, abstracted to its tick count; DateTime values compare by ticks. */
  datatype Date = Date(ticks: int)

  /** The Country entity: an identifier and a nullable name. */
  datatype Country = Country(CountryID: Guid, CountryName: Option<string>)

  /** The Person entity: nine data columns and the `Country` navigation
      property that the CountryID foreign key points at. PersonID is the key. */
  datatype Person = Person(
    PersonID: Guid,
    PersonName: Option<string>,
    Email: Option<string>,
    DateOfBirth: Option<Date>,
    Gender: Option<string>,
    CountryID: Option<Guid>,
    Address: Option<string>,
    ReceiveNewsLetters: bool,
    TIN: Option<string>,
    Country: Option<Country>)

  // The [StringLength] bounds declared on the Person columns.
  const PersonNameMaxLength: nat := 50
  const EmailMaxLength: nat := 50
  const GenderMaxLength: nat := 10
  const AddressMaxLength: nat := 200

  /** A nullable text column fits its declared length (null always fits). */
  predicate FitsLength(s: Option<string>, max: nat)
  {
    s.None? || |s.value| <= max
  }

  /** Every length-bounded column of `p` fits its declared bound. */
  predicate WithinDeclaredBounds(p: Person)
  {
    && FitsLength(p.PersonName, PersonNameMaxLength)
    && FitsLength(p.Email, EmailMaxLength)
    && FitsLength(p.Gender, GenderMaxLength)
    && FitsLength(p.Address, AddressMaxLength)
  }

  /** The navigation, when loaded, is the country that the foreign key names. */
  predicate CountryMatchesForeignKey(p: Person)
  {
    p.Country.Some? ==> p.CountryID == Some(p.Country.value.CountryID)
  }
}
