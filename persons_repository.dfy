/** The persons repository the service runs over, as an abstract store: the
    persons by key, and the order in which their keys were added. */
module Repository {
  import opened Common
  import opened Entities

  predicate Distinct(ids: seq<Guid>)
  {
    forall i, j :: 0 <= i < j < |ids| ==> ids[i] != ids[j]
  }

  /** The persons stored under `ids`, in that order. */
  function Project(m: map<Guid, Person>, ids: seq<Guid>): (r: seq<Person>)
    requires forall id :: id in ids ==> id in m
    ensures |r| == |ids| && forall i :: 0 <= i < |ids| ==> r[i] == m[ids[i]]
  {
    if ids == [] then [] else [m[ids[0]]] + Project(m, ids[1..])
  }

  /** `x` occurs in `s` at an earlier position than `y`. */
  ghost predicate Precedes(x: Guid, y: Guid, s: seq<Guid>)
  {
    exists a, b :: 0 <= a < b < |s| && s[a] == x && s[b] == y
  }

  /** Every two elements of `r` occur in `s` in the same relative order. */
  ghost predicate KeepsOrder(r: seq<Guid>, s: seq<Guid>)
  {
    forall i, j :: 0 <= i < j < |r| ==> Precedes(r[i], r[j], s)
  }

  /** An order kept within the tail of `s` is kept within `s`. */
  lemma KeepsOrderInTail(r: seq<Guid>, s: seq<Guid>)
    requires |s| > 0 && KeepsOrder(r, s[1..])
    ensures KeepsOrder(r, s)
  {
    var t := s[1..];
    forall i, j | 0 <= i < j < |r|
      ensures Precedes(r[i], r[j], s)
    {
      assert Precedes(r[i], r[j], t);
      var a, b :| 0 <= a < b < |t| && t[a] == r[i] && t[b] == r[j];
      assert s[a + 1] == r[i] && s[b + 1] == r[j];
    }
  }

  /** Putting the head of `s` in front of an order kept within its tail keeps the order. */
  lemma KeepsOrderCons(r: seq<Guid>, s: seq<Guid>)
    requires |s| > 0 && KeepsOrder(r, s[1..])
    requires forall x :: x in r ==> x in s[1..]
    ensures KeepsOrder([s[0]] + r, s)
  {
    KeepsOrderInTail(r, s);
    var t := [s[0]] + r;
    forall i, j | 0 <= i < j < |t|
      ensures Precedes(t[i], t[j], s)
    {
      if i == 0 {
        assert t[j] == r[j - 1] && r[j - 1] in s[1..];
        var b :| 0 <= b < |s[1..]| && s[1..][b] == t[j];
        assert s[0] == t[i] && s[b + 1] == t[j];
      } else {
        assert t[i] == r[i - 1] && t[j] == r[j - 1];
        assert Precedes(r[i - 1], r[j - 1], s);
      }
    }
  }

  /** `ids` without `id`, the others in their order. */
  function Without(ids: seq<Guid>, id: Guid): (r: seq<Guid>)
    ensures forall x :: x in r <==> x in ids && x != id
    ensures Distinct(ids) ==> Distinct(r)
    ensures KeepsOrder(r, ids)
  {
    if ids == [] then []
    else if ids[0] == id then
      var rest := Without(ids[1..], id);
      KeepsOrderInTail(rest, ids);
      rest
    else
      var rest := Without(ids[1..], id);
      assert Distinct(ids) ==> ids[0] !in ids[1..] && Distinct(ids[1..]);
      KeepsOrderCons(rest, ids);
      [ids[0]] + rest
  }

  /** The persons of `s` that satisfy `pred`, in their order in `s`. */
  function Filter(s: seq<Person>, pred: Person -> bool): (r: seq<Person>)
    ensures |r| <= |s|
    ensures forall x :: x in r <==> x in s && pred(x)
  {
    if s == [] then []
    else (if pred(s[0]) then [s[0]] else []) + Filter(s[1..], pred)
  }

  /** With distinct keys, each stored under its own PersonID, the listed
      persons have pairwise distinct PersonIDs. */
  lemma ProjectKeysDistinct(m: map<Guid, Person>, ids: seq<Guid>)
    requires Distinct(ids)
    requires forall id :: id in ids ==> id in m && m[id].PersonID == id
    ensures forall i, j :: 0 <= i < j < |ids| ==> Project(m, ids)[i].PersonID != Project(m, ids)[j].PersonID
  {
    var r := Project(m, ids);
    forall i, j | 0 <= i < j < |ids| ensures r[i].PersonID != r[j].PersonID {
      assert ids[i] in ids && ids[j] in ids;
    }
  }

  class PersonsRepository {
    var persons: map<Guid, Person>
    var order: seq<Guid>

    /** Every key is listed once in `order`, and every person is stored under its own PersonID. */
    ghost predicate Valid()
      reads this
    {
      && Distinct(order)
      && (forall id :: id in order <==> id in persons)
      && (forall id :: id in persons ==> persons[id].PersonID == id)
    }

    constructor ()
      ensures Valid() && persons == map[] && order == []
    {
      persons := map[];
      order := [];
    }

    /** The stored persons in the order they were added. */
    function All(): seq<Person>
      reads this
      requires Valid()
    {
      Project(persons, order)
    }

    method AddPerson(person: Person) returns (added: Person)
      requires Valid() && person.PersonID !in persons
      modifies this
      ensures Valid() && added == person
      ensures persons == old(persons)[person.PersonID := person]
      ensures order == old(order) + [person.PersonID]
    {
      persons := persons[person.PersonID := person];
      order := order + [person.PersonID];
      added := person;
    }

    method GetAllPersons() returns (r: seq<Person>)
      requires Valid()
      ensures r == All()
    {
      r := Project(persons, order);
    }

    method GetPersonByPersonID(id: Guid) returns (r: Option<Person>)
      requires Valid()
      ensures r == if id in persons then Some(persons[id]) else None
    {
      r := if id in persons then Some(persons[id]) else None;
    }

    method GetFilteredPersons(pred: Person -> bool) returns (r: seq<Person>)
      requires Valid()
      ensures r == Filter(All(), pred)
    {
      r := Filter(Project(persons, order), pred);
    }

    method UpdatePerson(person: Person) returns (updated: Person)
      requires Valid() && person.PersonID in persons
      modifies this
      ensures Valid() && updated == person
      ensures persons == old(persons)[person.PersonID := person] && order == old(order)
    {
      persons := persons[person.PersonID := person];
      updated := person;
    }

    method DeletePersonByPersonID(id: Guid) returns (deleted: bool)
      requires Valid()
      modifies this
      ensures Valid() && deleted == (id in old(persons))
      ensures persons == old(persons) - {id} && order == Without(old(order), id)
    {
      deleted := id in persons;
      persons := persons - {id};
      order := Without(order, id);
    }
  }
}
