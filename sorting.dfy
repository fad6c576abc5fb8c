/** PersonsService.GetSortedPersons: a dispatch on the (field, order) pair to
    a stable sort of the responses by that field's key. */
module Sorting {
  import opened Common
  import opened Entities
  import opened Dto
  import opened Ordering

  datatype SortOrderOptions = Ascending | Descending

  /** The eight fields a list of responses can be sorted by. */
  datatype SortField =
    | SortByPersonName | SortByEmail | SortByDateOfBirth | SortByAge
    | SortByGender | SortByCountry | SortByAddress | SortByReceiveNewsLetters

  /** The `sortBy` name of each field (`nameof(PersonResponse.X)`). */
  function SortFieldName(f: SortField): string
  {
    match f
    case SortByPersonName => "PersonName"
    case SortByEmail => "Email"
    case SortByDateOfBirth => "DateOfBirth"
    case SortByAge => "Age"
    case SortByGender => "Gender"
    case SortByCountry => "Country"
    case SortByAddress => "Address"
    case SortByReceiveNewsLetters => "ReceiveNewsLetters"
  }

  /** The field a `sortBy` name selects, if it is one of the eight. */
  function SortFieldOf(sortBy: string): Option<SortField>
  {
    if sortBy == "PersonName" then Some(SortByPersonName)
    else if sortBy == "Email" then Some(SortByEmail)
    else if sortBy == "DateOfBirth" then Some(SortByDateOfBirth)
    else if sortBy == "Age" then Some(SortByAge)
    else if sortBy == "Gender" then Some(SortByGender)
    else if sortBy == "Country" then Some(SortByCountry)
    else if sortBy == "Address" then Some(SortByAddress)
    else if sortBy == "ReceiveNewsLetters" then Some(SortByReceiveNewsLetters)
    else None
  }

  /** Each field is selected by its own name and by nothing else. */
  lemma SortFieldNames(f: SortField, s: string)
    ensures SortFieldOf(SortFieldName(f)) == Some(f)
    ensures SortFieldOf(s) == Some(f) ==> s == SortFieldName(f)
  {
  }

  function Ticks(d: Option<Date>): Option<int>
  {
    if d.Some? then Some(d.value.ticks) else None
  }

  /** The key of field `f` of `a` is at most that of `b`. */
  predicate KeyLeq(f: SortField, a: PersonResponse, b: PersonResponse)
  {
    match f
    case SortByPersonName => TextLeq(a.PersonName, b.PersonName)
    case SortByEmail => TextLeq(a.Email, b.Email)
    case SortByDateOfBirth => NullFirstLeq(Ticks(a.DateOfBirth), Ticks(b.DateOfBirth))
    case SortByAge => NullFirstLeq(a.Age, b.Age)
    case SortByGender => TextLeq(a.Gender, b.Gender)
    case SortByCountry => TextLeq(a.Country, b.Country)
    case SortByAddress => TextLeq(a.Address, b.Address)
    case SortByReceiveNewsLetters => BoolLeq(a.ReceiveNewsLetters, b.ReceiveNewsLetters)
  }

  lemma KeyLeqTotal(f: SortField, a: PersonResponse, b: PersonResponse)
    ensures KeyLeq(f, a, b) || KeyLeq(f, b, a)
  {
    match f
    case SortByPersonName => TextLeqTotal(a.PersonName, b.PersonName);
    case SortByEmail => TextLeqTotal(a.Email, b.Email);
    case SortByGender => TextLeqTotal(a.Gender, b.Gender);
    case SortByCountry => TextLeqTotal(a.Country, b.Country);
    case SortByAddress => TextLeqTotal(a.Address, b.Address);
    case _ =>
  }

  lemma KeyLeqTransitive(f: SortField, a: PersonResponse, b: PersonResponse, c: PersonResponse)
    requires KeyLeq(f, a, b) && KeyLeq(f, b, c)
    ensures KeyLeq(f, a, c)
  {
    match f
    case SortByPersonName => TextLeqTransitive(a.PersonName, b.PersonName, c.PersonName);
    case SortByEmail => TextLeqTransitive(a.Email, b.Email, c.Email);
    case SortByGender => TextLeqTransitive(a.Gender, b.Gender, c.Gender);
    case SortByCountry => TextLeqTransitive(a.Country, b.Country, c.Country);
    case SortByAddress => TextLeqTransitive(a.Address, b.Address, c.Address);
    case _ =>
  }

  /** `a` may come before `b` in the output: OrderBy for Ascending, OrderByDescending for Descending. */
  predicate Before(f: SortField, o: SortOrderOptions, a: PersonResponse, b: PersonResponse)
  {
    match o
    case Ascending => KeyLeq(f, a, b)
    case Descending => KeyLeq(f, b, a)
  }

  /** `a` and `b` have equal keys. */
  predicate Tied(f: SortField, a: PersonResponse, b: PersonResponse)
  {
    KeyLeq(f, a, b) && KeyLeq(f, b, a)
  }

  lemma BeforeTotal(f: SortField, o: SortOrderOptions, a: PersonResponse, b: PersonResponse)
    ensures Before(f, o, a, b) || Before(f, o, b, a)
  {
    KeyLeqTotal(f, a, b);
  }

  lemma BeforeTransitive(f: SortField, o: SortOrderOptions, a: PersonResponse, b: PersonResponse, c: PersonResponse)
    requires Before(f, o, a, b) && Before(f, o, b, c)
    ensures Before(f, o, a, c)
  {
    match o
    case Ascending => KeyLeqTransitive(f, a, b, c);
    case Descending => KeyLeqTransitive(f, c, b, a);
  }

  /** `s` is ordered by field `f` in direction `o`. */
  predicate SortedBy(f: SortField, o: SortOrderOptions, s: seq<PersonResponse>)
  {
    forall i, j :: 0 <= i < j < |s| ==> Before(f, o, s[i], s[j])
  }

  /** The elements of `s` whose key equals that of `k`, in their order in `s`. */
  function Ties(f: SortField, s: seq<PersonResponse>, k: PersonResponse): seq<PersonResponse>
  {
    if s == [] then []
    else (if Tied(f, s[0], k) then [s[0]] else []) + Ties(f, s[1..], k)
  }

  /** Inserts `x` into a sorted `s` after every element it does not come strictly before. */
  function Insert(f: SortField, o: SortOrderOptions, x: PersonResponse, s: seq<PersonResponse>): seq<PersonResponse>
  {
    if s == [] || !Before(f, o, s[0], x) then [x] + s
    else [s[0]] + Insert(f, o, x, s[1..])
  }

  /** A stable sort of `s` by field `f` in direction `o` (insertion of each element, left to right). */
  function StableSort(f: SortField, o: SortOrderOptions, s: seq<PersonResponse>): seq<PersonResponse>
  {
    if s == [] then [] else Insert(f, o, s[|s| - 1], StableSort(f, o, s[..|s| - 1]))
  }

  lemma {:induction false} InsertPermutes(f: SortField, o: SortOrderOptions, x: PersonResponse, s: seq<PersonResponse>)
    ensures multiset(Insert(f, o, x, s)) == multiset(s) + multiset{x}
  {
    if s != [] && Before(f, o, s[0], x) {
      InsertPermutes(f, o, x, s[1..]);
      assert s == [s[0]] + s[1..];
    }
  }

  lemma {:induction false} InsertSorted(f: SortField, o: SortOrderOptions, x: PersonResponse, s: seq<PersonResponse>)
    requires SortedBy(f, o, s)
    ensures SortedBy(f, o, Insert(f, o, x, s))
  {
    if s == [] {
    } else if !Before(f, o, s[0], x) {
      BeforeTotal(f, o, s[0], x);
      var r := [x] + s;
      forall i, j | 0 <= i < j < |r| ensures Before(f, o, r[i], r[j]) {
        if i == 0 && j > 1 {
          BeforeTransitive(f, o, x, s[0], s[j - 1]);
        }
      }
    } else {
      var t := Insert(f, o, x, s[1..]);
      InsertSorted(f, o, x, s[1..]);
      InsertPermutes(f, o, x, s[1..]);
      forall j | 0 <= j < |t| ensures Before(f, o, s[0], t[j]) {
        assert t[j] in multiset(t);
        if t[j] != x {
          assert t[j] in multiset(s[1..]);
          var k :| 0 <= k < |s[1..]| && s[1..][k] == t[j];
          assert s[k + 1] == t[j];
        }
      }
      var r := [s[0]] + t;
      forall i, j | 0 <= i < j < |r| ensures Before(f, o, r[i], r[j]) {
        if i > 0 {
          assert r[i] == t[i - 1] && r[j] == t[j - 1];
        }
      }
    }
  }

  lemma {:induction false} NoTies(f: SortField, s: seq<PersonResponse>, k: PersonResponse)
    requires forall i :: 0 <= i < |s| ==> !Tied(f, s[i], k)
    ensures Ties(f, s, k) == []
  {
    if s != [] {
      NoTies(f, s[1..], k);
    }
  }

  lemma TiesCons(f: SortField, x: PersonResponse, s: seq<PersonResponse>, k: PersonResponse)
    ensures Ties(f, [x] + s, k) == (if Tied(f, x, k) then [x] else []) + Ties(f, s, k)
  {
    assert ([x] + s)[1..] == s;
  }

  lemma {:induction false} TiesAppend(f: SortField, a: seq<PersonResponse>, b: seq<PersonResponse>, k: PersonResponse)
    ensures Ties(f, a + b, k) == Ties(f, a, k) + Ties(f, b, k)
  {
    if a == [] {
      assert a + b == b;
    } else {
      TiesAppend(f, a[1..], b, k);
      assert a + b == [a[0]] + (a[1..] + b);
      TiesCons(f, a[0], a[1..] + b, k);
    }
  }

  /** In a sorted `s` whose first element comes strictly after `x`, nothing ties with `x`. */
  lemma NothingTiedAfter(f: SortField, o: SortOrderOptions, x: PersonResponse, s: seq<PersonResponse>, k: PersonResponse)
    requires SortedBy(f, o, s) && s != [] && !Before(f, o, s[0], x)
    requires Tied(f, x, k)
    ensures Ties(f, s, k) == []
  {
    forall i | 0 <= i < |s| ensures !Tied(f, s[i], k) {
      if Tied(f, s[i], k) {
        KeyLeqTransitive(f, s[i], k, x);
        KeyLeqTransitive(f, x, k, s[i]);
        assert Before(f, o, s[i], x);
        if i > 0 {
          BeforeTransitive(f, o, s[0], s[i], x);
        }
      }
    }
    NoTies(f, s, k);
  }

  /** Inserting `x` adds it at the end of its tie class and changes no other tie class. */
  lemma {:induction false} InsertTies(f: SortField, o: SortOrderOptions, x: PersonResponse, s: seq<PersonResponse>, k: PersonResponse)
    requires SortedBy(f, o, s)
    ensures Ties(f, Insert(f, o, x, s), k) == Ties(f, s, k) + (if Tied(f, x, k) then [x] else [])
  {
    if s == [] {
      TiesCons(f, x, s, k);
    } else if !Before(f, o, s[0], x) {
      TiesCons(f, x, s, k);
      if Tied(f, x, k) {
        NothingTiedAfter(f, o, x, s, k);
      }
    } else {
      assert SortedBy(f, o, s[1..]);
      InsertTies(f, o, x, s[1..], k);
      TiesCons(f, s[0], Insert(f, o, x, s[1..]), k);
      TiesCons(f, s[0], s[1..], k);
      assert [s[0]] + s[1..] == s;
    }
  }

  /** StableSort returns a permutation of its input, ordered by the key, in
      which elements with equal keys keep their input order. */
  lemma {:induction false} StableSortCorrect(f: SortField, o: SortOrderOptions, s: seq<PersonResponse>)
    ensures SortedBy(f, o, StableSort(f, o, s))
    ensures multiset(StableSort(f, o, s)) == multiset(s)
    ensures forall k :: Ties(f, StableSort(f, o, s), k) == Ties(f, s, k)
  {
    if s != [] {
      var init, x := s[..|s| - 1], s[|s| - 1];
      assert s == init + [x];
      StableSortCorrect(f, o, init);
      var t := StableSort(f, o, init);
      InsertSorted(f, o, x, t);
      InsertPermutes(f, o, x, t);
      forall k ensures Ties(f, StableSort(f, o, s), k) == Ties(f, s, k) {
        InsertTies(f, o, x, t, k);
        TiesAppend(f, init, [x], k);
        assert Ties(f, [x], k) == (if Tied(f, x, k) then [x] else []) + Ties(f, [], k);
      }
    }
  }

  /** PersonsService.GetSortedPersons: the input itself when `sortBy` is null,
      empty or not one of the eight field names; otherwise the input stably
      sorted by the named field in the requested direction. */
  function GetSortedPersons(allPersons: seq<PersonResponse>, sortBy: Option<string>, sortOrder: SortOrderOptions): (r: seq<PersonResponse>)
    ensures sortBy.None? || SortFieldOf(sortBy.value).None? ==> r == allPersons
    ensures sortBy.Some? && SortFieldOf(sortBy.value).Some? ==>
      var f := SortFieldOf(sortBy.value).value;
      && SortedBy(f, sortOrder, r)
      && multiset(r) == multiset(allPersons)
      && forall k :: Ties(f, r, k) == Ties(f, allPersons, k)
  {
    if sortBy.None? || sortBy.value == "" then allPersons
    else
      match SortFieldOf(sortBy.value)
      case None => allPersons
      case Some(f) =>
        StableSortCorrect(f, sortOrder, allPersons);
        StableSort(f, sortOrder, allPersons)
  }
}
