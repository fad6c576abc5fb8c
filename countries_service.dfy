/** CountriesService: an in-memory list of countries with add, list and lookup. */
module Countries {
  import opened Common
  import opened Entities
  import opened Dto

  /** How many countries carry `name` (`Where(c => c.CountryName == name).Count()`). */
  function CountWithName(cs: seq<Country>, name: Option<string>): nat
  {
    if cs == [] then 0
    else (if cs[0].CountryName == name then 1 else 0) + CountWithName(cs[1..], name)
  }

  /** The count is positive exactly when some country carries the name. */
  lemma {:induction false} CountWithNamePositive(cs: seq<Country>, name: Option<string>)
    ensures CountWithName(cs, name) > 0 <==> exists i :: 0 <= i < |cs| && cs[i].CountryName == name
  {
    if cs != [] {
      CountWithNamePositive(cs[1..], name);
      if CountWithName(cs[1..], name) > 0 {
        var i :| 0 <= i < |cs[1..]| && cs[1..][i].CountryName == name;
        assert cs[i + 1].CountryName == name;
      }
      if exists i :: 0 <= i < |cs| && cs[i].CountryName == name {
        var i :| 0 <= i < |cs| && cs[i].CountryName == name;
        if i > 0 {
          assert cs[1..][i - 1].CountryName == name;
        }
      }
    }
  }

  predicate DistinctNames(cs: seq<Country>)
  {
    forall i, j :: 0 <= i < j < |cs| ==> cs[i].CountryName != cs[j].CountryName
  }

  function Ids(cs: seq<Country>): set<Guid>
  {
    set c | c in cs :: c.CountryID
  }

  /** A country whose name no stored country carries keeps the names distinct. */
  lemma AppendKeepsNamesDistinct(cs: seq<Country>, c: Country)
    requires DistinctNames(cs) && CountWithName(cs, c.CountryName) == 0
    ensures DistinctNames(cs + [c])
  {
    CountWithNamePositive(cs, c.CountryName);
  }

  class CountriesService {
    var countries: seq<Country>

    /** Names are present and pairwise distinct; keys are non-empty and pairwise distinct. */
    ghost predicate Valid()
      reads this
    {
      && DistinctNames(countries)
      && (forall i :: 0 <= i < |countries| ==> countries[i].CountryName.Some?)
      && (forall i, j :: 0 <= i < j < |countries| ==> countries[i].CountryID != countries[j].CountryID)
      && EmptyGuid !in Ids(countries)
    }

    constructor ()
      ensures Valid() && countries == []
    {
      countries := [];
    }

    /** Adds a country. A null request, a null name and a name already in the
        list (exact, case-sensitive match) are errors that leave the list
        unchanged; otherwise the country is appended under a fresh key. */
    method AddCountry(countryAddRequest: Option<CountryAddRequest>) returns (r: Result<CountryResponse>)
      requires Valid()
      modifies this
      ensures Valid()
      ensures countryAddRequest.None? ==> r == Failure(ArgumentNull("countryAddRequest"))
      ensures countryAddRequest.Some? && countryAddRequest.value.CountryName.None?
              ==> r == Failure(Argument("CountryName"))
      ensures countryAddRequest.Some? && countryAddRequest.value.CountryName.Some?
              && (exists i :: 0 <= i < |old(countries)| && old(countries)[i].CountryName == countryAddRequest.value.CountryName)
              ==> r == Failure(Argument("Country name already exists."))
      ensures r.Success? <==>
        && countryAddRequest.Some? && countryAddRequest.value.CountryName.Some?
        && forall i :: 0 <= i < |old(countries)| ==> old(countries)[i].CountryName != countryAddRequest.value.CountryName
      ensures r.Failure? ==> countries == old(countries)
      ensures r.Success? ==>
        && countryAddRequest.Some? && countryAddRequest.value.CountryName.Some?
        && r.value.CountryID != EmptyGuid && r.value.CountryID !in Ids(old(countries))
        && countries == old(countries) + [Country(r.value.CountryID, countryAddRequest.value.CountryName)]
        && r.value == ToCountryResponse(countries[|countries| - 1])
    {
      if countryAddRequest.None? {
        return Failure(ArgumentNull("countryAddRequest"));
      }
      if countryAddRequest.value.CountryName.None? {
        return Failure(Argument("CountryName"));
      }
      CountWithNamePositive(countries, countryAddRequest.value.CountryName);
      if CountWithName(countries, countryAddRequest.value.CountryName) > 0 {
        return Failure(Argument("Country name already exists."));
      }
      var country := ToCountry(countryAddRequest.value);
      var id := NewGuid(Ids(countries));
      country := country.(CountryID := id);
      AppendKeepsNamesDistinct(countries, country);
      countries := countries + [country];
      r := Success(ToCountryResponse(country));
    }

    /** Every stored country's response, in insertion order. */
    method GetAllCountries() returns (r: seq<CountryResponse>)
      requires Valid()
      ensures |r| == |countries|
      ensures forall i :: 0 <= i < |countries| ==> r[i] == ToCountryResponse(countries[i])
    {
      r := seq(|countries|, i requires 0 <= i < |countries| reads this => ToCountryResponse(countries[i]));
    }

    /** The first stored country with the key; null, not an error, for a null or unknown key. */
    method GetCountryByCountryID(countryID: Option<Guid>) returns (r: Option<CountryResponse>)
      requires Valid()
      ensures r.None? <==> countryID.None? || forall i :: 0 <= i < |countries| ==> countries[i].CountryID != countryID.value
      ensures r.Some? ==> exists i :: (
        && 0 <= i < |countries| && countries[i].CountryID == countryID.value
        && r.value == ToCountryResponse(countries[i])
        && forall j :: 0 <= j < i ==> countries[j].CountryID != countryID.value)
    {
      if countryID.None? {
        return None;
      }
      var i := 0;
      while i < |countries|
        invariant 0 <= i <= |countries|
        invariant forall j :: 0 <= j < i ==> countries[j].CountryID != countryID.value
      {
        if countries[i].CountryID == countryID.value {
          return Some(ToCountryResponse(countries[i]));
        }
        i := i + 1;
      }
      r := None;
    }
  }

  /** A new service lists no countries. */
  method NewServiceListsNothing() returns (all: seq<CountryResponse>)
    ensures all == []
  {
    var service := new CountriesService();
    all := service.GetAllCountries();
  }

  /** An added country has a non-empty key and is listed. */
  method AddedCountryIsListed(name: string) returns (added: Result<CountryResponse>, all: seq<CountryResponse>)
    ensures added.Success? && added.value.CountryID != EmptyGuid
    ensures added.value in all
  {
    var service := new CountriesService();
    added := service.AddCountry(Some(CountryAddRequest(Some(name))));
    all := service.GetAllCountries();
    assert all[0] == added.value;
  }

  /** Looking up the key an add returned gives the add's response. */
  method AddedCountryIsFound(name: string) returns (added: Result<CountryResponse>, found: Option<CountryResponse>)
    ensures added.Success? && found == Some(added.value)
  {
    var service := new CountriesService();
    added := service.AddCountry(Some(CountryAddRequest(Some(name))));
    found := service.GetCountryByCountryID(Some(added.value.CountryID));
  }

  /** Adding a second country with the same name fails and keeps only the first. */
  method DuplicateNameIsRejected(name: string)
    returns (first: Result<CountryResponse>, second: Result<CountryResponse>, all: seq<CountryResponse>)
    ensures first.Success? && second == Failure(Argument("Country name already exists."))
    ensures all == [first.value]
  {
    var service := new CountriesService();
    first := service.AddCountry(Some(CountryAddRequest(Some(name))));
    second := service.AddCountry(Some(CountryAddRequest(Some(name))));
    all := service.GetAllCountries();
  }
}
