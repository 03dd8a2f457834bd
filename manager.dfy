/** The record store object: an array of people that `InitializeData`
    replaces wholesale and that the three queries read. */
module Manager {
  import opened Wrappers
  import opened Dates
  import opened People

  /** `Random.Next(minValue, maxValue)`: some integer from `minValue` up to
      but excluding `maxValue`, or `minValue` itself when the two bounds are
      equal. Which integer is left open: the generator is not modelled. */
  method RandomNext(minValue: int, maxValue: int) returns (r: int)
    requires minValue <= maxValue
    ensures minValue <= r
    ensures r < maxValue || r == minValue == maxValue
  {
    if minValue == maxValue {
      r := minValue;
    } else {
      r :| minValue <= r < maxValue;
    }
  }

  /** `new DateTime(rand.Next(1950, 2022), rand.Next(1, 13), rand.Next(1, 28))`. */
  method RandomBirthday() returns (d: Date)
    ensures InBirthdayRange(d) && IsValid(d)
  {
    var year := RandomNext(MinYear, YearBound);
    var month := RandomNext(MinMonth, MonthBound);
    var day := RandomNext(MinDay, DayBound);
    d := Date(year, month, day);
    BirthdayRangeIsValid(d);
  }

  class PeopleManager {
    /** The records; null until `InitializeData` has run. */
    var data: array?<Person>

    constructor ()
      ensures data == null
    {
      data := null;
    }

    /** Builds `RecordCount` records into a new array and makes it the store:
        the record at position `k` has id `k + 1`, the name "Person" followed
        by that id, and a random birthday within the drawing bounds. Nothing
        of the previous array is kept. */
    method InitializeData()
      modifies this
      ensures data != null && fresh(data)
      ensures IsGenerated(data[..], RecordCount)
    {
      var people := new Person[RecordCount];
      var i := 0;
      while i < RecordCount
        invariant 0 <= i <= RecordCount
        invariant forall k :: 0 <= k < i ==> IsGeneratedAt(people[k], k)
      {
        var birthday := RandomBirthday();
        people[i] := Person(i + 1, PersonName(i + 1), birthday);
        i := i + 1;
      }
      data := people;
    }

    /** `GetPeopleBornAfter(date)`: fails with `ArgumentNull` before the store
        is initialized, and otherwise returns the records born after `date`. */
    function GetPeopleBornAfter(date: Date): (r: Result<seq<Person>>)
      reads this, data
      ensures data == null ==> r == Failure(ArgumentNull)
      ensures data != null ==> r == Success(BornAfter(data[..], date))
    {
      if data == null then Failure(ArgumentNull) else Success(BornAfter(data[..], date))
    }

    /** `GetPeopleByName(name)`: fails with `ArgumentNull` before the store is
        initialized, and otherwise returns the records whose name equals
        `name` ignoring case. A null `name` (`None`) equals no string, so it
        selects nothing. */
    function GetPeopleByName(name: Option<string>): (r: Result<seq<Person>>)
      reads this, data
      ensures data == null ==> r == Failure(ArgumentNull)
      ensures data != null && name.None? ==> r == Success([])
      ensures data != null && name.Some? ==> r == Success(ByName(data[..], name.value))
    {
      if data == null then Failure(ArgumentNull)
      else if name.None? then Success([])
      else Success(ByName(data[..], name.value))
    }

    /** `GetPersonById(id)`: fails with `ArgumentNull` before the store is
        initialized, and otherwise returns the first record with id `id`, or
        absent. */
    function GetPersonById(id: int): (r: Result<Option<Person>>)
      reads this, data
      ensures data == null ==> r == Failure(ArgumentNull)
      ensures data != null ==> r == Success(ById(data[..], id))
    {
      if data == null then Failure(ArgumentNull) else Success(ById(data[..], id))
    }
  }

  /** A client: queries fail before initialization; afterwards the store's
      unit test cases hold. */
  method InitializedManagerCases()
  {
    var manager := new PeopleManager();
    var early := manager.GetPersonById(1);
    assert early == Failure(ArgumentNull);
    manager.InitializeData();
    InitializedStoreCases(manager.data[..]);
    var found := manager.GetPersonById(250000);
    assert found.Success? && found.value.Some? && found.value.value.id == 250000;
    var missing := manager.GetPersonById(2000000);
    assert missing == Success(None);
    var none := manager.GetPeopleByName(Some("NonExistingName"));
    assert none == Success([]);
  }
}
