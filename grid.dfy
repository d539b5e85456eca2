/** The monthly code grid (src/pages/Page1.tsx): one row per crew member,
    one cell per day of the month, each cell holding the code assigned to
    that person on that day. */
module Grid {
  import opened Wrappers
  import opened Text

  // ------------------------------------------------------------ class names

  /** A part handed to `classNames`; `None` stands for `undefined`, `null`
      and `false`. */
  type Part = Option<string>

  predicate Truthy(p: Part) {
    p.Some? && p.value != ""
  }

  /** `c.filter(Boolean)`. */
  function Kept(parts: seq<Part>): (r: seq<string>)
    ensures |r| <= |parts|
    ensures forall k :: 0 <= k < |r| ==> r[k] != ""
  {
    if |parts| == 0 then []
    else (if Truthy(parts[0]) then [parts[0].value] else []) + Kept(parts[1..])
  }

  lemma {:induction false} KeptAppend(a: seq<Part>, b: seq<Part>)
    ensures Kept(a + b) == Kept(a) + Kept(b)
  {
    if |a| == 0 {
      assert a + b == b;
    } else {
      assert (a + b)[1..] == a[1..] + b;
      KeptAppend(a[1..], b);
    }
  }

  /** The truthy parts, in order: a part is kept exactly when it is truthy. */
  lemma {:induction false} KeptMembers(parts: seq<Part>, s: string)
    ensures s in Kept(parts) <==> Some(s) in parts && s != ""
  {
    if |parts| > 0 {
      KeptMembers(parts[1..], s);
      assert parts == [parts[0]] + parts[1..];
    }
  }

  /** `classNames(...c)`. */
  function ClassNames(parts: seq<Part>): (r: string)
    ensures r == "" <==> Kept(parts) == []
    ensures Kept(parts) != [] ==> IsPrefix(Kept(parts)[0], r)
  {
    KeptMembers(parts, "");
    JoinPrefix(Kept(parts), " ");
    Join(Kept(parts), " ")
  }

  /** Splitting the result on spaces gives the truthy parts' own
      space-separated pieces, part after part; nothing kept gives "". */
  lemma ClassNamesSplit(parts: seq<Part>)
    ensures Kept(parts) != [] ==> Split(ClassNames(parts), ' ') == SplitAll(Kept(parts), ' ')
    ensures Kept(parts) == [] ==> ClassNames(parts) == ""
  {
    if Kept(parts) != [] {
      SplitJoinAll(Kept(parts), ' ');
    }
  }

  // ------------------------------------------------------------ the calendar

  /** The proleptic Gregorian leap-year rule. */
  predicate IsLeap(y: int) {
    y % 4 == 0 && (y % 100 != 0 || y % 400 == 0)
  }

  /** The day number of the first of January of year `y`, counted from
      1970, as ECMAScript's `DayFromYear` gives it. */
  function DayFromYear(y: int): int {
    365 * (y - 1970) + (y - 1969) / 4 - (y - 1901) / 100 + (y - 1601) / 400
  }

  /** The days of the year before the first of month `m` (0 is January). */
  function MonthStart(y: int, m: int): (d: int)
    requires 0 <= m < 12
  {
    [0, 31, 59, 90, 120, 151, 181, 212, 243, 273, 304, 334][m] + (if m >= 2 && IsLeap(y) then 1 else 0)
  }

  /** `MakeDay(year, month, date)`: a month outside 0..11 moves the year. */
  function MakeDay(y: int, m: int, d: int): int {
    DayFromYear(y + m / 12) + MonthStart(y + m / 12, m % 12) + d - 1
  }

  /** The `Date` constructor reads a year from 0 to 99 as 1900 to 1999. */
  function JsYear(y: int): int {
    if 0 <= y <= 99 then 1900 + y else y
  }

  /** `new Date(year, month + 1, 0).getDate()`: the day of the month of the
      day before the first of the next month, counted from the first of
      this month. */
  function DaysInMonth(month: int, year: int): (r: int)
    ensures r == MonthLength(JsYear(year) + month / 12, month % 12)
    ensures 28 <= r <= 31
  {
    DaysInMonthTable(month, year);
    MakeDay(JsYear(year), month + 1, 0) - MakeDay(JsYear(year), month, 1) + 1
  }

  /** The length of a month under the Gregorian calendar. */
  function MonthLength(y: int, m: int): (n: int)
    requires 0 <= m < 12
    ensures 28 <= n <= 31
  {
    if m == 1 then (if IsLeap(y) then 29 else 28)
    else if m == 3 || m == 5 || m == 8 || m == 10 then 30
    else 31
  }

  /** Day numbers step at the years a divisor divides. */
  lemma Step4(y: int)
    ensures (y - 1968) / 4 - (y - 1969) / 4 == if y % 4 == 0 then 1 else 0
  {
    var q, r := (y - 1969) / 4, (y - 1969) % 4;
    if r == 3 {
      assert y - 1968 == 4 * (q + 1);
      assert y == 4 * (q + 493);
    } else {
      assert y - 1968 == 4 * q + (r + 1);
      assert y == 4 * (q + 492) + (r + 1);
    }
  }

  lemma Step100(y: int)
    ensures (y - 1900) / 100 - (y - 1901) / 100 == if y % 100 == 0 then 1 else 0
  {
    var q, r := (y - 1901) / 100, (y - 1901) % 100;
    if r == 99 {
      assert y - 1900 == 100 * (q + 1);
      assert y == 100 * (q + 20);
    } else {
      assert y - 1900 == 100 * q + (r + 1);
      assert y == 100 * (q + 19) + (r + 1);
    }
  }

  lemma Step400(y: int)
    ensures (y - 1600) / 400 - (y - 1601) / 400 == if y % 400 == 0 then 1 else 0
  {
    var q, r := (y - 1601) / 400, (y - 1601) % 400;
    if r == 399 {
      assert y - 1600 == 400 * (q + 1);
      assert y == 400 * (q + 5);
    } else {
      assert y - 1600 == 400 * q + (r + 1);
      assert y == 400 * (q + 4) + (r + 1);
    }
  }

  /** A year has 366 days when it is a leap year and 365 otherwise. */
  lemma YearLength(y: int)
    ensures DayFromYear(y + 1) - DayFromYear(y) == if IsLeap(y) then 366 else 365
  {
    assert DayFromYear(y + 1) - DayFromYear(y)
        == 365 + ((y - 1968) / 4 - (y - 1969) / 4) - ((y - 1900) / 100 - (y - 1901) / 100)
           + ((y - 1600) / 400 - (y - 1601) / 400);
    Step4(y);
    Step100(y);
    Step400(y);
    Divisors(y);
  }

  /** What 400 divides, 100 divides; what 100 divides, 4 divides. */
  lemma Divisors(y: int)
    ensures y % 400 == 0 ==> y % 100 == 0
    ensures y % 100 == 0 ==> y % 4 == 0
  {
    if y % 400 == 0 {
      var j := 4 * (y / 400);
      assert y == 100 * j;
      MultipleOf(100, j);
    }
    if y % 100 == 0 {
      var j := 25 * (y / 100);
      assert y == 4 * j;
      MultipleOf(4, j);
    }
  }

  lemma MultipleOf(d: int, j: int)
    requires d == 4 || d == 100
    ensures (d * j) % d == 0
  {
    if d == 4 {
      assert (4 * j) % 4 == 0;
    } else {
      assert (100 * j) % 100 == 0;
    }
  }

  lemma NextMonthIndex(month: int)
    ensures month % 12 < 11 ==> (month + 1) / 12 == month / 12 && (month + 1) % 12 == month % 12 + 1
    ensures month % 12 == 11 ==> (month + 1) / 12 == month / 12 + 1 && (month + 1) % 12 == 0
  {
    var q, r := month / 12, month % 12;
    assert month == q * 12 + r;
    if r < 11 {
      assert month + 1 == q * 12 + (r + 1);
    } else {
      assert month + 1 == (q + 1) * 12 + 0;
    }
  }

  /** The last day of any month is the Gregorian length of the month it
      names, once the month index is brought into 0..11 and the year read
      the way the `Date` constructor reads it. */
  lemma DaysInMonthTable(month: int, year: int)
    ensures MakeDay(JsYear(year), month + 1, 0) - MakeDay(JsYear(year), month, 1) + 1
            == MonthLength(JsYear(year) + month / 12, month % 12)
  {
    var y := JsYear(year) + month / 12;
    NextMonthIndex(month);
    if month % 12 == 11 {
      YearLength(y);
    }
  }

  /** For a month from the month selector and a four-digit year, the grid
      shows 31, 30, 28 or 29 days by the Gregorian rule. */
  lemma DaysInShownMonth(month: int, year: int)
    requires 0 <= month < 12 && year >= 100
    ensures DaysInMonth(month, year) == MonthLength(year, month)
    ensures 28 <= DaysInMonth(month, year) <= 31
  {
    assert month / 12 == 0 && month % 12 == month;
    assert JsYear(year) == year;
    DaysInMonthTable(month, year);
  }

  /** February of a four-digit year has 29 days exactly in a leap year. */
  lemma FebruaryLength(year: int)
    requires year >= 100
    ensures DaysInMonth(1, year) == if IsLeap(year) then 29 else 28
  {
    DaysInShownMonth(1, year);
  }

  /** A year typed as 0 to 99 is read as 1900 to 1999, so its months have
      the lengths of that year. */
  lemma TwoDigitYear(month: int, year: int)
    requires 0 <= month < 12 && 0 <= year <= 99
    ensures DaysInMonth(month, year) == MonthLength(1900 + year, month)
  {
    assert month / 12 == 0 && month % 12 == month;
    DaysInMonthTable(month, year);
  }

  /** A day cell past the end of the month is disabled. */
  function Disabled(day: int, month: int, year: int): (r: bool)
    ensures r <==> day > MonthLength(JsYear(year) + month / 12, month % 12)
    ensures day <= 28 ==> !r
    ensures day > 31 ==> r
  {
    day > DaysInMonth(month, year)
  }

  /** Of the 31 day columns, exactly the days of the month are enabled:
      the first 28 always, the rest as the month's length allows. */
  lemma EnabledDays(day: int, month: int, year: int)
    requires 1 <= day <= 31 && 0 <= month < 12 && year >= 100
    ensures !Disabled(day, month, year) <==> day <= MonthLength(year, month)
    ensures day <= 28 ==> !Disabled(day, month, year)
  {
    DaysInShownMonth(month, year);
  }

  // ------------------------------------------------------------ the month step

  /** The previous-month button as written: January goes to December, and
      the year is left as it is. */
  function PrevMonthAsWritten(m: int): (r: int)
    ensures 0 <= m < 12 ==> 0 <= r < 12
    ensures m == 0 ==> r == 11
    ensures m != 0 ==> r == m - 1
  {
    if m == 0 then 11 else m - 1
  }

  /** The month shown, counted as months since January of year 0. */
  function MonthIndex(month: int, year: int): int {
    year * 12 + month
  }

  /** From January, the button as written moves eleven months forward
      instead of one back. */
  lemma PrevFromJanuaryGoesForward(year: int)
    ensures MonthIndex(PrevMonthAsWritten(0), year) == MonthIndex(0, year) + 11
  {
  }

  /** One month back, moving to December of the year before from January. */
  function PrevMonth(month: int, year: int): (r: (int, int))
    requires 0 <= month < 12
    ensures 0 <= r.0 < 12
    ensures MonthIndex(r.0, r.1) == MonthIndex(month, year) - 1
    ensures month != 0 ==> r == (PrevMonthAsWritten(month), year)
  {
    if month == 0 then (11, year - 1) else (month - 1, year)
  }

  // ------------------------------------------------------------ the crew

  datatype CrewMember = CrewMember(id: int, categoria: string, apellidos: string, nombre: string)

  /** The text the search matches: `"apellidos nombre"` in lower case. */
  function SearchText(p: CrewMember): string {
    Lower(p.apellidos + " " + p.nombre)
  }

  /** `query.trim().toLowerCase()`. */
  function Needle(query: string): (q: string)
    ensures q == "" <==> AllSpace(query)
  {
    TrimEmptyIffBlank(query);
    Lower(Trim(query))
  }

  /** The members whose search text holds `q`, in order. */
  function Matching(crew: seq<CrewMember>, q: string): (r: seq<CrewMember>)
    ensures |r| <= |crew|
  {
    if |crew| == 0 then []
    else Matching(crew[..|crew| - 1], q) + (if Contains(SearchText(crew[|crew| - 1]), q) then [crew[|crew| - 1]] else [])
  }

  /** `filteredCrew`. */
  function FilteredCrew(crew: seq<CrewMember>, query: string): (r: seq<CrewMember>)
    ensures AllSpace(query) ==> r == crew
    ensures !AllSpace(query) ==> r == Matching(crew, Needle(query))
  {
    var q := Needle(query);
    if q == "" then crew else Matching(crew, q)
  }

  /** Filtering keeps exactly the members whose search text holds the
      needle. */
  lemma {:induction false} MatchingMembers(crew: seq<CrewMember>, q: string, p: CrewMember)
    ensures p in Matching(crew, q) <==> p in crew && Contains(SearchText(p), q)
  {
    if |crew| > 0 {
      MatchingMembers(crew[..|crew| - 1], q, p);
      assert crew == crew[..|crew| - 1] + [crew[|crew| - 1]];
    }
  }

  /** Filtering a list made of two parts filters each part, keeping the
      order of the members. */
  lemma {:induction false} MatchingAppend(a: seq<CrewMember>, b: seq<CrewMember>, q: string)
    ensures Matching(a + b, q) == Matching(a, q) + Matching(b, q)
  {
    if |b| == 0 {
      assert a + b == a;
    } else {
      assert (a + b)[..|a + b| - 1] == a + b[..|b| - 1];
      MatchingAppend(a, b[..|b| - 1], q);
    }
  }

  /** Filtering what was already filtered by the same query changes
      nothing. */
  lemma {:induction false} MatchingIdempotent(crew: seq<CrewMember>, q: string)
    ensures Matching(Matching(crew, q), q) == Matching(crew, q)
  {
    if |crew| > 0 {
      var init, last := crew[..|crew| - 1], crew[|crew| - 1];
      MatchingIdempotent(init, q);
      var tail := if Contains(SearchText(last), q) then [last] else [];
      MatchingAppend(Matching(init, q), tail, q);
      if Contains(SearchText(last), q) {
        assert Matching([last], q) == Matching([], q) + [last];
      }
    }
  }

  /** The search ignores case and the white space around the query. */
  lemma FilterPadded(crew: seq<CrewMember>, a: string, query: string, b: string)
    requires AllSpace(a) && AllSpace(b)
    ensures FilteredCrew(crew, a + query + b) == FilteredCrew(crew, query)
  {
    TrimPadded(a, query, b);
    TrimEmptyIffBlank(query);
    TrimEmptyIffBlank(a + query + b);
  }

  // ------------------------------------------------------------ the grid

  /** `{ [personaId]: { [day]: code } }`; a cleared cell keeps its day with
      no code. */
  type Data = map<int, map<int, Option<string>>>

  function Ids(crew: seq<CrewMember>): set<int> {
    set k | 0 <= k < |crew| :: crew[k].id
  }

  /** The grid before any code is assigned. */
  function InitialGrid(crew: seq<CrewMember>): (d: Data)
    ensures d.Keys == Ids(crew)
    ensures forall id :: id in d ==> d[id] == map[]
  {
    map id | id in Ids(crew) :: map[]
  }

  /** `data[personId]?.[day]`. */
  function CodeAt(d: Data, person: int, day: int): (r: Option<string>)
    ensures person !in d || day !in d[person] ==> r.None?
    ensures person in d && day in d[person] ==> r == d[person][day]
  {
    if person in d && day in d[person] then d[person][day] else None
  }

  /** `setCell(personId, day, code)` on the grid `d`. */
  function SetCell(d: Data, person: int, day: int, code: Option<string>): (r: Data)
    ensures r.Keys == d.Keys + {person}
  {
    d[person := (if person in d then d[person] else map[])[day := code]]
  }

  /** The cell set reads back as the code given, and every other cell of
      every person reads as before. */
  lemma SetCellReads(d: Data, person: int, day: int, code: Option<string>, p: int, q: int)
    ensures CodeAt(SetCell(d, person, day, code), person, day) == code
    ensures (p, q) != (person, day) ==> CodeAt(SetCell(d, person, day, code), p, q) == CodeAt(d, p, q)
  {
  }

  /** Every cell of the initial grid is empty. */
  lemma InitialGridEmpty(crew: seq<CrewMember>, p: int, q: int)
    ensures CodeAt(InitialGrid(crew), p, q) == None
  {
  }

  /** The page's state: the month shown, the search and the grid. */
  class GridPage {
    const crew: seq<CrewMember>
    var month: int
    var year: int
    var query: string
    var data: Data

    /** The page on opening; `month` and `year` stand for today's. */
    constructor (crew: seq<CrewMember>, month: int, year: int)
      requires 0 <= month < 12
      ensures this.crew == crew && this.month == month && this.year == year
      ensures query == "" && data == InitialGrid(crew)
    {
      this.crew := crew;
      this.month := month;
      this.year := year;
      query := "";
      data := InitialGrid(crew);
    }

    /** The rows shown. */
    function Shown(): (r: seq<CrewMember>)
      reads this
      ensures |r| <= |crew|
    {
      FilteredCrew(crew, query)
    }

    method SetQuery(value: string)
      modifies this
      ensures query == value
      ensures month == old(month) && year == old(year) && data == old(data)
    {
      query := value;
    }

    /** The month selector offers the twelve months. */
    method SelectMonth(value: int)
      requires 0 <= value < 12
      modifies this
      ensures month == value
      ensures year == old(year) && query == old(query) && data == old(data)
    {
      month := value;
    }

    method SetYear(value: int)
      modifies this
      ensures year == value
      ensures month == old(month) && query == old(query) && data == old(data)
    {
      year := value;
    }

    /** The previous-month button as the page has it: January goes to
        December and the year is left as it is. */
    method PrevMonthClicked()
      requires 0 <= month < 12
      modifies this
      ensures month == PrevMonthAsWritten(old(month)) && 0 <= month < 12
      ensures year == old(year) && query == old(query) && data == old(data)
    {
      if month == 0 {
        month := 11;
      } else {
        month := month - 1;
      }
    }

    /** `setCell`; a clear passes `None`. */
    method SetCellAt(person: int, day: int, code: Option<string>)
      modifies this
      ensures data == SetCell(old(data), person, day, code)
      ensures month == old(month) && year == old(year) && query == old(query)
    {
      var row := if person in data then data[person] else map[];
      data := data[person := row[day := code]];
    }
  }
}
