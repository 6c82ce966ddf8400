/** The two date helpers of the detail view, on calendar fields given as
    integers: calculateAge (with today's date as a parameter) and
    getZodiacSign. */
module Dates {

  /** A calendar date as (year, month, day); months are numbered the same
      way on both sides of every comparison, so 0- or 1-based does not matter. */
  datatype Date = Date(year: int, month: int, day: int)

  /** Lexicographic order on (year, month, day). */
  predicate DateLe(a: Date, b: Date)
  {
    a.year < b.year
    || (a.year == b.year && (a.month < b.month || (a.month == b.month && a.day <= b.day)))
  }

  /** calculateAge: the year difference, less one when this year's birthday
      has not come yet. The result is the number of whole years lived: the
      birthday that many years on has been reached and the next one has not. */
  function CalculateAge(birth: Date, today: Date): (age: int)
    ensures DateLe(Date(birth.year + age, birth.month, birth.day), today)
    ensures !DateLe(Date(birth.year + age + 1, birth.month, birth.day), today)
  {
    var years := today.year - birth.year;
    var monthDiff := today.month - birth.month;
    if monthDiff < 0 || (monthDiff == 0 && today.day < birth.day) then years - 1 else years
  }

  /** One entry of the sign table: its name, its first (month, day) and its
      last (month, day). */
  datatype Sign = Sign(name: string, startMonth: int, startDay: int, endMonth: int, endDay: int)

  /** The table, in its declaration order (the order Object.entries visits). */
  const Signs: seq<Sign> := [
    Sign("Qo'y", 3, 21, 4, 19),
    Sign("Buzoq", 4, 20, 5, 20),
    Sign("Egizaklar", 5, 21, 6, 20),
    Sign("Qisqichbaqa", 6, 21, 7, 22),
    Sign("Arslon", 7, 23, 8, 22),
    Sign("Boshoq", 8, 23, 9, 22),
    Sign("Tarozi", 9, 23, 10, 22),
    Sign("Chayon", 10, 23, 11, 21),
    Sign("Yoy", 11, 22, 12, 21),
    Sign("Echki", 12, 22, 1, 19),
    Sign("Qovg'a", 1, 20, 2, 18),
    Sign("Baliq", 2, 19, 3, 20)
  ]

  /** The name returned when no entry matches. */
  const Fallback: string := "Echki"

  /** The loop's test for one entry: on or after the start day in the start
      month, or on or before the end day in the end month. */
  function Covers(s: Sign, month: int, day: int): (r: bool)
    ensures s.endMonth == s.startMonth + 1 ==>
              (r <==> DateLe(Date(0, s.startMonth, s.startDay), Date(0, month, day))
                      && DateLe(Date(0, month, day), Date(0, s.endMonth, s.endDay)))
    ensures s.startMonth == 12 && s.endMonth == 1 && 1 <= month <= 12 ==>
              (r <==> DateLe(Date(0, 12, s.startDay), Date(0, month, day))
                      || DateLe(Date(0, month, day), Date(0, 1, s.endDay)))
  {
    (month == s.startMonth && day >= s.startDay) || (month == s.endMonth && day <= s.endDay)
  }

  /** Entry `i` is the first one that covers (month, day). */
  ghost predicate FirstCoverAt(month: int, day: int, i: int)
  {
    0 <= i < |Signs| && Covers(Signs[i], month, day)
    && forall j :: 0 <= j < i ==> !Covers(Signs[j], month, day)
  }

  /** The loop over the table from entry `i` on. */
  function SignFrom(month: int, day: int, i: nat): (r: string)
    requires forall j :: 0 <= j < i && j < |Signs| ==> !Covers(Signs[j], month, day)
    ensures (exists k :: FirstCoverAt(month, day, k) && r == Signs[k].name)
            || (r == Fallback && forall j :: 0 <= j < |Signs| ==> !Covers(Signs[j], month, day))
    decreases |Signs| - i
  {
    if i >= |Signs| then Fallback
    else if Covers(Signs[i], month, day) then
      assert FirstCoverAt(month, day, i);
      Signs[i].name
    else SignFrom(month, day, i + 1)
  }

  /** getZodiacSign: the name of the first entry that covers (month, day),
      or the fallback when none does. */
  function ZodiacSign(month: int, day: int): (r: string)
    ensures (exists k :: FirstCoverAt(month, day, k) && r == Signs[k].name)
            || (r == Fallback && forall j :: 0 <= j < |Signs| ==> !Covers(Signs[j], month, day))
  {
    SignFrom(month, day, 0)
  }

  /** The entry whose start month is `month`. */
  function StartEntry(month: int): int
  {
    if month >= 3 then month - 3 else month + 9
  }

  /** The entry whose end month is `month`. */
  function EndEntry(month: int): int
  {
    if month >= 4 then month - 4 else month + 8
  }

  /** The table's shape: each month 1..12 starts exactly one entry and ends
      exactly one other, and the one ending in it stops the day before the
      one starting in it begins. */
  lemma TableShape(month: int, j: int)
    requires 1 <= month <= 12 && 0 <= j < |Signs|
    ensures Signs[j].startMonth == month <==> j == StartEntry(month)
    ensures Signs[j].endMonth == month <==> j == EndEntry(month)
    ensures StartEntry(month) != EndEntry(month)
    ensures Signs[EndEntry(month)].endDay + 1 == Signs[StartEntry(month)].startDay
  {
    assert j == 0 || j == 1 || j == 2 || j == 3 || j == 4 || j == 5
        || j == 6 || j == 7 || j == 8 || j == 9 || j == 10 || j == 11;
    assert month == 1 || month == 2 || month == 3 || month == 4 || month == 5 || month == 6
        || month == 7 || month == 8 || month == 9 || month == 10 || month == 11 || month == 12;
  }

  /** Every entry starts and ends inside 1..12. */
  lemma TableMonthsInRange(j: int)
    requires 0 <= j < |Signs|
    ensures 1 <= Signs[j].startMonth <= 12 && 1 <= Signs[j].endMonth <= 12
  {
    assert j == 0 || j == 1 || j == 2 || j == 3 || j == 4 || j == 5
        || j == 6 || j == 7 || j == 8 || j == 9 || j == 10 || j == 11;
  }

  /** For every month 1..12 and every day, exactly one entry covers the
      date, so the loop returns that entry's name and the fallback line is
      never reached. */
  lemma ZodiacPartitionsYear(month: int, day: int)
    requires 1 <= month <= 12
    ensures exists i :: 0 <= i < |Signs| && Covers(Signs[i], month, day)
              && ZodiacSign(month, day) == Signs[i].name
              && forall j :: 0 <= j < |Signs| && j != i ==> !Covers(Signs[j], month, day)
  {
    var a, b := StartEntry(month), EndEntry(month);
    TableShape(month, a);
    TableShape(month, b);
    var i := if day >= Signs[a].startDay then a else b;
    assert Covers(Signs[i], month, day);
    forall j | 0 <= j < |Signs| && j != i
      ensures !Covers(Signs[j], month, day)
    {
      TableShape(month, j);
    }
    var r := ZodiacSign(month, day);
    var k :| FirstCoverAt(month, day, k) && r == Signs[k].name;
    assert k == i;
  }

  /** A month outside 1..12 matches no entry and gets the fallback. */
  lemma ZodiacOutOfRangeMonth(month: int, day: int)
    requires month < 1 || month > 12
    ensures ZodiacSign(month, day) == Fallback
  {
    forall j | 0 <= j < |Signs|
      ensures !Covers(Signs[j], month, day)
    {
      TableMonthsInRange(j);
    }
  }
}
