/** Person records and the three queries over a store of them, as pure
    functions of the store's contents. */
module People {
  import opened Wrappers
  import opened Dates
  import opened Text
  import Linq

  /** A person: unique id, name and date of birth. */
  datatype Person = Person(id: int, name: string, birthday: Date)

  /** Number of records the store is initialized with. */
  const RecordCount: nat := 1_000_000

  /** Bounds of the random birthday draws; each upper bound is exclusive. */
  const MinYear := 1950
  const YearBound := 2022
  const MinMonth := 1
  const MonthBound := 13
  const MinDay := 1
  const DayBound := 28

  /** The name the initializer gives to the record with id `id`. */
  function PersonName(id: nat): (name: string)
    ensures |name| > 6 && name[..6] == "Person" && name[6..] == Decimal(id)
  {
    "Person" + Decimal(id)
  }

  /** Generated names are distinct even ignoring case: the name of id `a`
      matches the name of id `b` only when `a == b`. */
  lemma PersonNameInjective(a: nat, b: nat)
    requires EqualsIgnoreCase(PersonName(a), PersonName(b))
    ensures a == b
  {
    EqualsIgnoreCaseDecimalSuffix("Person", a, b);
  }

  /** A birthday the initializer can draw. */
  predicate InBirthdayRange(d: Date) {
    && MinYear <= d.year < YearBound
    && MinMonth <= d.month < MonthBound
    && MinDay <= d.day < DayBound
  }

  /** Every drawable birthday is a date `DateTime` accepts, so building it
      never throws. */
  lemma BirthdayRangeIsValid(d: Date)
    requires InBirthdayRange(d)
    ensures IsValid(d)
    ensures 1950 <= d.year <= 2021 && 1 <= d.month <= 12 && 1 <= d.day <= 27
  {
  }

  /** The record the initializer builds at array position `k`. */
  ghost predicate IsGeneratedAt(p: Person, k: nat) {
    p.id == k + 1 && p.name == PersonName(k + 1) && InBirthdayRange(p.birthday)
  }

  /** A store of `n` records as the initializer builds it: the record at
      position `k` has id `k + 1`, the name "Person" followed by that id,
      and a birthday within the drawing bounds. */
  ghost predicate IsGenerated(people: seq<Person>, n: nat) {
    |people| == n && forall k :: 0 <= k < n ==> IsGeneratedAt(people[k], k)
  }

  /** `GetPeopleBornAfter`: the records born strictly after `cutoff`. */
  function BornAfter(people: seq<Person>, cutoff: Date): (r: seq<Person>)
    ensures forall p :: p in r ==> p in people && Later(p.birthday, cutoff)
    ensures forall p :: p in people && !Later(p.birthday, cutoff) ==> p !in r
    ensures forall i :: 0 <= i < |people| && Later(people[i].birthday, cutoff) ==> people[i] in r
    ensures Linq.IsOrderedSelection(r, people, (p: Person) => Later(p.birthday, cutoff))
  {
    Linq.WhereIsOrderedSelection(people, (p: Person) => Later(p.birthday, cutoff));
    Linq.Where(people, (p: Person) => Later(p.birthday, cutoff))
  }

  /** `GetPeopleByName`: the records whose name equals `name` ignoring case. */
  function ByName(people: seq<Person>, name: string): (r: seq<Person>)
    ensures forall p :: p in r ==> p in people && EqualsIgnoreCase(p.name, name)
    ensures forall p :: p in people && !EqualsIgnoreCase(p.name, name) ==> p !in r
    ensures forall i :: 0 <= i < |people| && EqualsIgnoreCase(people[i].name, name) ==> people[i] in r
    ensures Linq.IsOrderedSelection(r, people, (p: Person) => EqualsIgnoreCase(p.name, name))
  {
    Linq.WhereIsOrderedSelection(people, (p: Person) => EqualsIgnoreCase(p.name, name));
    Linq.Where(people, (p: Person) => EqualsIgnoreCase(p.name, name))
  }

  /** `GetPersonById`: the first record with id `id`, or absent. */
  function ById(people: seq<Person>, id: int): (r: Option<Person>)
    ensures r.None? <==> forall i :: 0 <= i < |people| ==> people[i].id != id
    ensures r.Some? ==> r.value.id == id
    ensures r.Some? ==> exists i :: 0 <= i < |people| && people[i] == r.value && forall j :: 0 <= j < i ==> people[j].id != id
  {
    Linq.FirstOrDefault(people, (p: Person) => p.id == id)
  }

  /** On a generated store of `n` records the lookup finds the record at
      position `id - 1` for every id from 1 to `n`, and nothing otherwise. */
  lemma ByIdOnGenerated(people: seq<Person>, n: nat, id: int)
    requires IsGenerated(people, n)
    ensures 1 <= id <= n ==> ById(people, id) == Some(people[id - 1])
    ensures !(1 <= id <= n) ==> ById(people, id) == None
  {
  }

  /** In a generated store, the only record whose name matches
      `PersonName(k)` ignoring case is the record with id `k`. */
  lemma GeneratedNameMatches(people: seq<Person>, n: nat, k: nat, i: int)
    requires IsGenerated(people, n) && 0 <= i < n
    ensures EqualsIgnoreCase(people[i].name, PersonName(k)) <==> i == k - 1
  {
    assert IsGeneratedAt(people[i], i);
    if EqualsIgnoreCase(people[i].name, PersonName(k)) {
      PersonNameInjective(i + 1, k);
    }
  }

  /** On a generated store, the name query for "Person" followed by an id
      from 1 to `n` returns exactly the one record with that id. */
  lemma ByNameOnGenerated(people: seq<Person>, n: nat, k: nat)
    requires IsGenerated(people, n) && 1 <= k <= n
    ensures ByName(people, PersonName(k)) == [people[k - 1]]
  {
    var name := PersonName(k);
    var r := ByName(people, name);
    var idx :| Linq.SelectedAt(r, people, idx) && forall i :: 0 <= i < |people| ==> (i in idx <==> EqualsIgnoreCase(people[i].name, name));
    forall i | 0 <= i < n
      ensures i in idx <==> i == k - 1
    {
      GeneratedNameMatches(people, n, k, i);
    }
    Linq.SelectedOnlyAt(r, people, idx, k - 1);
  }

  /** On a generated store, a name that does not start with "Person" in any
      case matches no record. */
  lemma ByNameOnGeneratedMissing(people: seq<Person>, n: nat, name: string)
    requires IsGenerated(people, n)
    requires |name| <= 6 || !EqualsIgnoreCase(name[..6], "Person")
    ensures ByName(people, name) == []
  {
    forall i | 0 <= i < n
      ensures !EqualsIgnoreCase(people[i].name, name)
    {
      assert IsGeneratedAt(people[i], i);
    }
    var r := ByName(people, name);
    var idx :| Linq.SelectedAt(r, people, idx) && forall i :: 0 <= i < |people| ==> (i in idx <==> EqualsIgnoreCase(people[i].name, name));
    Linq.SelectedNowhere(r, people, idx);
  }

  /** The store's five unit tests, stated on any store the initializer
      builds: every record returned for the cutoff 2000-01-01 is born after
      it, every record returned for "Person500" carries exactly that name,
      the record with id 250000 is found, the id 2000000 is absent, and the
      name query for "NonExistingName" is empty. */
  lemma InitializedStoreCases(people: seq<Person>)
    requires IsGenerated(people, RecordCount)
    ensures forall p :: p in BornAfter(people, Date(2000, 1, 1)) ==> Later(p.birthday, Date(2000, 1, 1))
    ensures ById(people, 250000).Some? && ById(people, 250000).value.id == 250000
    ensures ById(people, 2000000) == None
    ensures ByName(people, "NonExistingName") == []
    ensures forall p :: p in ByName(people, "Person500") ==> p.name == "Person500"
  {
    ByIdOnGenerated(people, RecordCount, 250000);
    ByIdOnGenerated(people, RecordCount, 2000000);
    assert FoldChar("NonExistingName"[0]) != FoldChar("Person"[0]);
    ByNameOnGeneratedMissing(people, RecordCount, "NonExistingName");
    assert Decimal(5) == "5";
    assert Decimal(50) == "50";
    assert PersonName(500) == "Person500";
    ByNameOnGenerated(people, RecordCount, 500);
    assert IsGeneratedAt(people[499], 499);
  }
}
