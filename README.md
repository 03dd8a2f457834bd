# PeopleManager, modelled in Dafny

A model of the `AdvancedLINQ` record store: a `Person` record (id, name,
birthday) and the `PeopleManager` class that holds an array of one million
people, fills it with generated records, and answers three LINQ queries
over it — people born after a date, people with a given name (ordinal,
case-insensitive) and the first person with a given id.

Files (one module each):

- `wrappers.dfy` — `Option` (a null result) and `Result` (a value or the
  exception raised).
- `dates.dfy` — dates as (year, month, day) triples; `Later` is the
  lexicographic order, shown to agree with the day count that `DateTime`
  compares.
- `text.dfy` — the decimal form of an integer as interpolation writes it,
  with its parser and round trip; ASCII ordinal case-insensitive equality.
- `linq.dfy` — `Where` and `FirstOrDefault` over a sequence, with
  `IsOrderedSelection` as an independent and (by `OrderedSelectionIsUnique`)
  complete specification of `Where`.
- `people.dfy` — `Person`, the three queries as functions of the store's
  contents, the predicate `IsGenerated` describing what the initializer
  builds, and lemmas about the queries on such a store, including the cases
  the repository's unit tests check.
- `manager.dfy` — the `PeopleManager` class: a nullable array field that
  `InitializeData` replaces by a fresh array built in a loop, and the three
  queries, which fail with `ArgumentNull` before initialization (LINQ
  operators reject a null source) and otherwise return the query functions'
  results on `data[..]`.

## Model

| member | source | states |
|---|---|---|
| `Manager.PeopleManager.constructor` | supplementProj8/Class1.cs:36 | a new manager has no array yet (`data` is null) |
| `Manager.PeopleManager.InitializeData` | supplementProj8/Class1.cs:41-51 | `data` becomes a fresh array (nothing of the old one survives) of exactly 1,000,000 records where position `k` holds id `k + 1`, name "Person" followed by that id, and a birthday within the drawing bounds |
| `Manager.RandomNext` | supplementProj8/Class1.cs:49 | `Random.Next(min, max)` returns some integer in `[min, max)`, or `min` when the bounds are equal; which one is left open |
| `Manager.RandomBirthday` | supplementProj8/Class1.cs:49 | a drawn birthday has year 1950..2021, month 1..12, day 1..27, and is a date `DateTime` accepts |
| `People.BirthdayRangeIsValid` | supplementProj8/Class1.cs:49 | every date within the drawing bounds exists in the calendar, so building it never throws |
| `Manager.PeopleManager.GetPeopleBornAfter` | supplementProj8/Class1.cs:58-61 | fails with `ArgumentNull` before initialization; otherwise returns `BornAfter` of the stored records |
| `Manager.PeopleManager.GetPeopleByName` | supplementProj8/Class1.cs:68-71 | fails with `ArgumentNull` before initialization; a null name (`None`) selects nothing, since no string equals null; otherwise returns `ByName` of the stored records |
| `Manager.PeopleManager.GetPersonById` | supplementProj8/Class1.cs:78-81 | fails with `ArgumentNull` before initialization; otherwise returns `ById` of the stored records |
| `People.BornAfter` | supplementProj8/Class1.cs:60 | every returned record is in the store and born strictly after the cutoff; every stored record born after it is returned, and none born on or before it; the result is exactly those records in store order (`IsOrderedSelection`) |
| `People.ByName` | supplementProj8/Class1.cs:70 | every returned record is in the store and its name equals the argument ignoring case; every matching record is returned and no other; the result is exactly those records in store order |
| `People.ById` | supplementProj8/Class1.cs:80 | absent exactly when no record has the id; otherwise a record with that id, at a position before which no record has it (the first match) |
| `Linq.Where` | supplementProj8/Class1.cs:60 | the result is no longer than the source, holds only source elements that satisfy the predicate, and holds every source element that does |
| `Linq.WhereIsOrderedSelection` | supplementProj8/Class1.cs:60 | `Where` returns the source read at strictly increasing positions, and those positions are exactly the ones whose element satisfies the predicate |
| `Linq.WhereAtKeptPositions` | supplementProj8/Class1.cs:70 | `Where` is the source read at the increasing positions `KeptPositions` lists |
| `Linq.KeptPositionsMembers` | supplementProj8/Class1.cs:70 | a position is listed exactly when the element there satisfies the predicate, and every listed position is within the source |
| `Linq.OrderedSelectionIsUnique` | supplementProj8/Class1.cs:60 | two results that are both ordered selections of the same source and predicate are equal, so the selection specification determines `Where` completely |
| `Linq.IncreasingSameElements` | supplementProj8/Class1.cs:70 | two strictly increasing position lists with the same members are equal |
| `Linq.FirstOrDefault` | supplementProj8/Class1.cs:80 | absent exactly when no element satisfies the predicate; otherwise an element that satisfies it with no satisfying element before it |
| `People.ByIdOnGenerated` | supplementProj8/Class1.cs:78-81 | on a store built by the initializer with `n` records, the lookup returns the record at position `id - 1` for every id in 1..n and is absent for every other id |
| `People.GeneratedNameMatches` | supplementProj8/Class1.cs:48 | in a generated store the only record whose name equals "Person" followed by `k`, ignoring case, is the one with id `k` |
| `People.ByNameOnGenerated` | supplementProj8/Class1.cs:68-71 | on a generated store, the name query for "Person" followed by an id in 1..n returns exactly the one record with that id |
| `People.ByNameOnGeneratedMissing` | supplementProj8/Class1.cs:68-71 | on a generated store, a name whose first six characters are not "Person" in any case matches nothing |
| `People.InitializedStoreCases` | supplementProj8.Tests/UnitTest1.cs:21-97 | on the 1,000,000-record store: every record returned for the cutoff 2000-01-01 is born after it, every record returned for "Person500" has exactly the name "Person500", id 250000 is found with that id, id 2000000 is absent, and "NonExistingName" matches nothing |
| `People.Person` | supplementProj8/Class1.cs:10-26 | a record of id, name and birthday |
| `People.PersonName` | supplementProj8/Class1.cs:48 | the name `$"Person{i}"`: "Person" followed by the decimal form of the id; its distinctness is `People.PersonNameInjective` |
| `People.PersonNameInjective` | supplementProj8/Class1.cs:48 | the generated names of two ids are equal ignoring case only when the ids are equal |
| `People.IsGenerated` | supplementProj8/Class1.cs:44-50 | the store the initializer builds: `n` records, position `k` holding id `k + 1`, name `PersonName(k + 1)` and a birthday within the drawing bounds; established by `InitializeData` |
| `Text.Decimal` | supplementProj8/Class1.cs:48 | the decimal form of a number is a non-empty string of digits that starts with '0' only for zero |
| `Text.DecimalRoundTrip` | supplementProj8/Class1.cs:48 | parsing the decimal form of `n` gives back `n` |
| `Text.DecimalInjective` | supplementProj8/Class1.cs:48 | different numbers have different decimal forms, so generated names are distinct |
| `Text.EqualsIgnoreCaseDecimalSuffix` | supplementProj8/Class1.cs:70 | two strings with the same prefix followed by decimal numbers are equal ignoring case only when the numbers are equal |
| `Text.FoldChar` | supplementProj8/Class1.cs:70 | folding leaves no lower-case ASCII letter, maps each lower-case letter to its upper-case partner and leaves every other character unchanged |
| `Text.FoldCharProperties` | supplementProj8/Class1.cs:70 | folding is idempotent, and a letter folds to the same character as its lower-case form |
| `Text.EqualsIgnoreCase` | supplementProj8/Class1.cs:70 | `StringComparison.OrdinalIgnoreCase` equality: equal length and equal characters after folding; its laws are `Text.EqualsIgnoreCaseIsEquivalence` |
| `Text.EqualsIgnoreCaseIsEquivalence` | supplementProj8/Class1.cs:70 | ordinal case-insensitive equality is reflexive, symmetric and transitive |
| `Dates.LaterMatchesDayNumber` | supplementProj8/Class1.cs:60 | for valid dates, the lexicographic `Later` holds exactly when the first date's day count from 0001-01-01 is larger, which is the comparison `DateTime`'s `>` makes on midnight values |
| `Dates.Later` | supplementProj8/Class1.cs:60 | `DateTime`'s `>` on midnight dates, as the lexicographic order on (year, month, day); justified by `Dates.LaterMatchesDayNumber` |
| `Dates.LaterIsStrictTotalOrder` | supplementProj8/Class1.cs:60 | the comparison is irreflexive, asymmetric, transitive and total on distinct dates |
| `Dates.IsValid` | supplementProj8/Class1.cs:49 | the argument check of `new DateTime(year, month, day)`: year 1..9999, month 1..12, day within the month |
| `Dates.DaysInMonth` | supplementProj8/Class1.cs:49 | every month has 28 to 31 days, and February has 29 exactly in leap years |
| `Dates.YearLength` | supplementProj8/Class1.cs:49 | the day count of January 1st grows by the length of the year from one year to the next |

## Left out

- The pseudo-random generator: `RandomNext` picks any value in range, so the model says nothing about the distribution or reproducibility of birthdays.
- `DateTime` beyond the date: ticks, time of day and `Kind` are not modelled. Birthdays are built at midnight; a cutoff is any (year, month, day) triple compared lexicographically, and `LaterMatchesDayNumber` ties that order to the day count for valid dates.
- Unicode case mapping: ordinal case-insensitive comparison is modelled for ASCII letters only; other characters compare unchanged.
- Shared mutable records: in the source `Person` is a class with public setters, and every query hands out references to the objects stored in the array, so a caller can change a stored record (`GetPersonById(5).Id = 7` makes `GetPersonById(5)` return null afterwards). The model treats records as immutable values: results are copies, and nothing a caller does to a returned record reaches the store.
- Deferred evaluation: `Where` results are computed eagerly, when the query is called. The source array itself is captured at the call and never replaced in place, but a record in it can be changed through a shared reference before the result is enumerated (`var r = GetPeopleByName("Person5"); GetPersonById(5).Name = "X";` leaves `r` empty); the model's result keeps the record.
- 32-bit integers: ids and the id argument are unbounded integers; every generated id (at most 1,000,000) fits in an `int`.
- Null names: the store only ever holds generated names, but a caller can set `Name = null` on a record a query returned, after which the name query throws `NullReferenceException`. Names in the model are always strings, so that exception is not modelled. A null argument to the name query is modelled (`None`, selecting nothing).
- The store size is fixed at 1,000,000 in the code, which takes no count argument; there is no negative-count error to model. `IsGenerated` and the lemmas about it take the size as a parameter.
- Use before initialization raises `ArgumentNullException` from the LINQ operator; the model returns `Failure(ArgumentNull)`, with no separate not-initialized error.
- Concurrency and the cost of scanning one million records.
- The xUnit test class is not modelled as code; its five checks are stated in `People.InitializedStoreCases`, and the client method `Manager.InitializedManagerCases` exercises the class against them.
