/** Cron schedules: the values of their fields, and the search for the next run, on a calendar with a fixed offset. */
module CronSchedule {
  import opened Wrappers
  import opened Calendar

  /** One item of a field: a star, a number or a range of numbers, and a step behind a slash. */
  datatype Range = Star | One(n: nat) | Span(low: nat, high: nat)
  datatype Item = Item(range: Range, step: Option<nat>)

  /** A field's comma-separated items (None: text that is no item), and whether its text begins with a star. */
  datatype FieldText = FieldText(items: seq<Option<Item>>, star: bool)

  datatype Field = Field(values: set<int>, any: bool)

  /** minute, hour, day of the month, month, day of the week (Sunday is 0) */
  datatype Fields = Fields(minute: Field, hour: Field, day: Field, month: Field, weekday: Field)

  // ---- The fields of a schedule ----

  /** The first and last value of an item: a star has all, a number with a step goes on to the end. */
  function Bounds(item: Item, low: int, high: int): (int, int) {
    match item.range
    case Star => (low, high)
    case One(n) => (n, if item.step.Some? then high else n)
    case Span(a, b) => (a, b)
  }

  function StepOf(item: Item): int {
    if item.step.Some? then item.step.value else 1
  }

  predicate ItemOk(item: Option<Item>, low: int, high: int) {
    item.Some? && StepOf(item.value) >= 1 &&
    var (first, last) := Bounds(item.value, low, high);
    low <= first <= last <= high
  }

  /** A whole number of steps from the first. */
  predicate OnStep(first: int, step: int, v: int)
    requires step >= 1
  {
    (v - first) % step == 0
  }

  /** The item names the value. */
  predicate Names(item: Option<Item>, low: int, high: int, v: int)
    requires ItemOk(item, low, high)
  {
    var (first, last) := Bounds(item.value, low, high);
    first <= v <= last && OnStep(first, StepOf(item.value), v)
  }

  predicate FieldOk(text: FieldText, low: int, high: int) {
    forall i :: 0 <= i < |text.items| ==> ItemOk(text.items[i], low, high)
  }

  ghost predicate Named(text: FieldText, low: int, high: int, v: int)
    requires FieldOk(text, low, high)
  {
    exists i :: 0 <= i < |text.items| && Names(text.items[i], low, high, v)
  }

  lemma StepsBetween(first: int, v: int, step: int)
    requires step >= 1 && OnStep(first, step, v)
    ensures OnStep(first, step, v + step)
    ensures forall u :: v < u < v + step ==> !OnStep(first, step, u)
  {
    var q := (v - first) / step;
    assert v - first == q * step;
    Remainder(q + 1, step, 0);
    assert (q + 1) * step == v + step - first;
    forall u | v < u < v + step
      ensures !OnStep(first, step, u)
    {
      Remainder(q, step, u - v);
    }
  }

  lemma Remainder(q: int, k: int, r: int)
    requires k >= 1 && 0 <= r < k
    ensures (q * k + r) % k == r
  {
    var x := q * k + r;
    assert x == (x / k) * k + x % k;
    var d := x / k - q;
    assert d * k == r - x % k;
    assert d >= 1 ==> d * k >= k;
    assert d <= -1 ==> d * k <= -k;
  }

  /** A value that is a whole number of steps, none included, after another. */
  ghost predicate StepsAfter(first: int, step: int, v: int) {
    exists q: nat :: v == Advance(first, q, step)
  }

  function Advance(first: int, q: nat, step: int): int {
    first + q * step
  }

  lemma OnStepIs(first: int, step: int, v: int)
    requires step >= 1
    ensures first <= v && OnStep(first, step, v) <==> StepsAfter(first, step, v)
  {
    if first <= v && OnStep(first, step, v) {
      var q := (v - first) / step;
      assert q >= 0 && v == Advance(first, q, step);
    }
    if StepsAfter(first, step, v) {
      var q: nat :| v == Advance(first, q, step);
      Remainder(q, step, 0);
      assert q * step >= 0;
    }
  }

  /** What an item names, form by form: a star every value from the lowest by its step, a number itself alone or, with a
      step, every value from it up to the highest, a range every value from its first to its last. */
  lemma NamesByForm(item: Item, low: int, high: int, v: int)
    requires ItemOk(Some(item), low, high)
    ensures item == Item(Star, None) ==> (Names(Some(item), low, high, v) <==> low <= v <= high)
    ensures item.range.Star? && item.step.Some? ==>
              (Names(Some(item), low, high, v) <==> v <= high && StepsAfter(low, item.step.value, v))
    ensures item.range.One? && item.step.None? ==> (Names(Some(item), low, high, v) <==> v == item.range.n)
    ensures item.range.One? && item.step.Some? ==>
              (Names(Some(item), low, high, v) <==> v <= high && StepsAfter(item.range.n, item.step.value, v))
    ensures item.range.Span? && item.step.None? ==> (Names(Some(item), low, high, v) <==> item.range.low <= v <= item.range.high)
    ensures item.range.Span? && item.step.Some? ==>
              (Names(Some(item), low, high, v) <==> v <= item.range.high && StepsAfter(item.range.low, item.step.value, v))
  {
    var (first, last) := Bounds(item, low, high);
    var step := StepOf(item);
    hide StepsAfter;
    OnStepIs(first, step, v);
    OnStepOne(first, v);
    hide OnStep;
  }

  /** What an item has to be: steps of one or more, numbers within the field's bounds, and a range that does not run
      backwards. */
  lemma ItemOkByForm(item: Item, low: int, high: int)
    requires low <= high
    ensures ItemOk(Some(item), low, high) <==>
            && (item.step.Some? ==> item.step.value > 0)
            && match item.range
               case Star => true
               case One(n) => low <= n <= high
               case Span(a, b) => low <= a && a <= b && b <= high
  {
  }

  lemma OnStepOne(first: int, v: int)
    ensures OnStep(first, 1, v)
  {
  }

  /** The values of one item, from the first by its steps. */
  method ItemValues(item: Item, low: int, high: int) returns (found: set<int>)
    requires ItemOk(Some(item), low, high)
    ensures forall v :: v in found <==> Names(Some(item), low, high, v)
  {
    hide OnStep;
    var step := StepOf(item);
    var (first, last) := Bounds(item, low, high);
    found := {};
    var value := first;
    FirstIsOnStep(first, step);
    while value <= last
      invariant first <= value && OnStep(first, step, value)
      invariant forall v :: v in found <==> first <= v < value && v <= last && OnStep(first, step, v)
      decreases last - value
    {
      StepsBetween(first, value, step);
      found := found + {value};
      value := value + step;
    }
  }

  lemma FirstIsOnStep(first: int, step: int)
    requires step >= 1
    ensures OnStep(first, step, first)
  {
  }

  /** One field: an invalid item makes the whole schedule invalid. */
  method FieldValues(text: FieldText, low: int, high: int) returns (values: Option<set<int>>)
    ensures values.Some? <==> FieldOk(text, low, high)
    ensures values.Some? ==> forall v :: v in values.value <==> Named(text, low, high, v)
  {
    hide Names;
    var found: set<int> := {};
    for i := 0 to |text.items|
      invariant forall j :: 0 <= j < i ==> ItemOk(text.items[j], low, high)
      invariant forall v :: v in found <==> exists j :: 0 <= j < i && Names(text.items[j], low, high, v)
    {
      var item := text.items[i];
      if item.None? || StepOf(item.value) < 1 {
        return None;
      }
      var (first, last) := Bounds(item.value, low, high);
      if first < low || last > high || first > last {
        return None;
      }
      var more := ItemValues(item.value, low, high);
      found := found + more;
    }
    return Some(found);
  }

  ghost predicate ScheduleOk(parts: seq<FieldText>) {
    |parts| == 5 && FieldOk(parts[0], 0, 59) && FieldOk(parts[1], 0, 23) && FieldOk(parts[2], 1, 31) && FieldOk(parts[3], 1, 12)
    && FieldOk(parts[4], 0, 7)
  }

  ghost predicate FieldIs(f: Field, text: FieldText, low: int, high: int)
    requires FieldOk(text, low, high)
  {
    f.any == text.star && forall v :: v in f.values <==> Named(text, low, high, v)
  }

  /** The five fields: valid exactly when every item of each is; day 7 of the week is also day 0. */
  method CronFields(parts: seq<FieldText>) returns (fields: Option<Fields>)
    ensures fields.Some? <==> ScheduleOk(parts)
    ensures fields.Some? ==>
              var f := fields.value;
              && FieldIs(f.minute, parts[0], 0, 59) && FieldIs(f.hour, parts[1], 0, 23) && FieldIs(f.day, parts[2], 1, 31)
              && FieldIs(f.month, parts[3], 1, 12) && f.weekday.any == parts[4].star
              && forall v :: v in f.weekday.values <==> Named(parts[4], 0, 7, v) || (v == 0 && Named(parts[4], 0, 7, 7))
  {
    if |parts| != 5 {
      return None;
    }
    var low, high := [0, 0, 1, 1, 0], [59, 23, 31, 12, 7];
    var all: seq<Field> := [];
    for i := 0 to 5
      invariant |all| == i
      invariant forall j :: 0 <= j < i ==> FieldOk(parts[j], low[j], high[j]) && all[j].any == parts[j].star
      invariant forall j, v :: 0 <= j < i ==>
                  (v in all[j].values <==> Named(parts[j], low[j], high[j], v) || (j == 4 && v == 0 && Named(parts[j], low[j], high[j], 7)))
    {
      var found := FieldValues(parts[i], low[i], high[i]);
      if found.None? {
        return None;
      }
      var values := found.value;
      if i == 4 && 7 in values {
        values := values + {0};
      }
      all := all + [Field(values, parts[i].star)];
    }
    return Some(Fields(all[0], all[1], all[2], all[3], all[4]));
  }

  // ---- The next run ----

  const DAY := 86400
  const LIMIT := 366 * DAY

  /** The day a timestamp is in, and the second of that day, at the offset. */
  function DayAt(t: int, offset: int): int {
    (t + offset) / DAY
  }

  function SecondAt(t: int, offset: int): int {
    (t + offset) % DAY
  }

  function HourAt(t: int, offset: int): int {
    SecondAt(t, offset) / 3600
  }

  function MinuteAt(t: int, offset: int): int {
    SecondAt(t, offset) / 60 % 60
  }

  /** mktime: parts that run over go into the next larger ones. */
  function Mktime(hour: int, minute: int, second: int, month: int, day: int, year: int, offset: int): int {
    DayNumber(year, month, day) * DAY + hour * 3600 + minute * 60 + second - offset
  }

  /** The day fields: if neither begins with a star, one of them matching is enough; otherwise both have to match. */
  predicate DayMatches(f: Fields, n: int) {
    var inMonth, inWeek := DateOf(n).day in f.day.values, Weekday(n) in f.weekday.values;
    if f.day.any || f.weekday.any then inMonth && inWeek else inMonth || inWeek
  }

  predicate MonthMatches(f: Fields, n: int) {
    DateOf(n).month in f.month.values
  }

  /** The schedule runs at this minute. */
  predicate Matches(f: Fields, t: int, offset: int) {
    && MonthMatches(f, DayAt(t, offset)) && DayMatches(f, DayAt(t, offset))
    && HourAt(t, offset) in f.hour.values && MinuteAt(t, offset) in f.minute.values
  }

  /** The whole minute after a timestamp. */
  function MinuteAfter(from: int): int {
    from / 60 * 60 + 60
  }

  /** The specification: look at every minute, one after another. */
  function Scan(f: Fields, t: int, limit: int, offset: int): (r: Option<int>)
    decreases limit - t
  {
    if t >= limit then None
    else if Matches(f, t, offset) then Some(t)
    else Scan(f, t + 60, limit, offset)
  }

  /** It finds the least match of all the whole minutes, or none because there is none. */
  lemma {:induction false} ScanIsLeast(f: Fields, t: int, limit: int, offset: int)
    requires t % 60 == 0
    ensures var r := Scan(f, t, limit, offset);
            match r
            case Some(m) => t <= m < limit && m % 60 == 0 && Matches(f, m, offset)
                            && forall u :: t <= u < m && u % 60 == 0 ==> !Matches(f, u, offset)
            case None => forall u :: t <= u < limit && u % 60 == 0 ==> !Matches(f, u, offset)
    decreases limit - t
  {
    if t < limit && !Matches(f, t, offset) {
      ScanIsLeast(f, t + 60, limit, offset);
      forall u | t <= u && u % 60 == 0
        ensures u == t || t + 60 <= u
      {
      }
    }
  }

  /** No whole minute from t up to the next matches. */
  ghost predicate NoneBefore(f: Fields, t: int, next: int, offset: int) {
    forall u :: t <= u < next && u % 60 == 0 ==> !Matches(f, u, offset)
  }

  lemma {:induction false} ScanSkips(f: Fields, t: int, next: int, limit: int, offset: int)
    requires t % 60 == 0 && next % 60 == 0 && t <= next && NoneBefore(f, t, next, offset)
    ensures Scan(f, t, limit, offset) == Scan(f, next, limit, offset)
    decreases next - t
  {
    if t < next {
      assert t + 60 <= next;
      if t < limit {
        ScanSkips(f, t + 60, next, limit, offset);
      }
    }
  }

  lemma DayOf(t: int, offset: int, n: int)
    requires n * DAY <= t + offset < (n + 1) * DAY
    ensures DayAt(t, offset) == n && SecondAt(t, offset) == t + offset - n * DAY
  {
  }

  lemma DayBounds(t: int, offset: int)
    ensures DayAt(t, offset) * DAY <= t + offset < (DayAt(t, offset) + 1) * DAY
  {
  }

  /** A day begins at a whole minute. */
  lemma Midnight(n: int, offset: int)
    requires offset % 60 == 0
    ensures (n * DAY - offset) % 60 == 0
  {
    var q := offset / 60;
    assert n * DAY - offset == 60 * (n * 1440 - q);
  }

  /** The first minute of the next month: nothing is skipped that could match. */
  lemma MonthJump(f: Fields, t: int, offset: int)
    requires t % 60 == 0 && offset % 60 == 0 && !MonthMatches(f, DayAt(t, offset))
    ensures var d := DateOf(DayAt(t, offset));
            var next := Mktime(0, 0, 0, d.month + 1, 1, d.year, offset);
            next % 60 == 0 && t < next && NoneBefore(f, t, next, offset)
  {
    var n := DayAt(t, offset);
    var d := DateOf(n);
    var next := Mktime(0, 0, 0, d.month + 1, 1, d.year, offset);
    hide DateOf, DayNumber, DayMatches;
    MonthEnd(n);
    DayBounds(t, offset);
    Midnight(DayNumber(d.year, d.month + 1, 1), offset);
    forall u | t <= u < next && u % 60 == 0
      ensures !Matches(f, u, offset)
    {
      DayBounds(u, offset);
      WithinMonth(n, DayAt(u, offset) - n);
    }
  }

  /** The first minute of the next day. */
  lemma DayJump(f: Fields, t: int, offset: int)
    requires t % 60 == 0 && offset % 60 == 0 && !DayMatches(f, DayAt(t, offset))
    ensures var d := DateOf(DayAt(t, offset));
            var next := Mktime(0, 0, 0, d.month, d.day + 1, d.year, offset);
            next % 60 == 0 && t < next && NoneBefore(f, t, next, offset)
  {
    var n := DayAt(t, offset);
    var d := DateOf(n);
    hide DateOf, DayNumber, DayMatches;
    DayNumberOf(n);
    NextDayOfMonth(d.year, d.month, d.day);
    DayBounds(t, offset);
    var next := Mktime(0, 0, 0, d.month, d.day + 1, d.year, offset);
    assert next == (n + 1) * DAY - offset;
    Midnight(n + 1, offset);
    hide Mktime, Matches;
    forall u | t <= u < next && u % 60 == 0
      ensures !Matches(f, u, offset)
    {
      DayOf(u, offset, n);
    }
  }

  /** The first minute of the next hour. */
  lemma HourJump(f: Fields, t: int, offset: int)
    requires t % 60 == 0 && offset % 60 == 0 && HourAt(t, offset) !in f.hour.values
    ensures var d := DateOf(DayAt(t, offset));
            var next := Mktime(HourAt(t, offset) + 1, 0, 0, d.month, d.day, d.year, offset);
            next % 60 == 0 && t < next && NoneBefore(f, t, next, offset)
  {
    var n := DayAt(t, offset);
    var d := DateOf(n);
    hide DateOf, DayNumber, DayMatches;
    DayNumberOf(n);
    DayBounds(t, offset);
    var next := Mktime(HourAt(t, offset) + 1, 0, 0, d.month, d.day, d.year, offset);
    forall u | t <= u < next && u % 60 == 0
      ensures !Matches(f, u, offset)
    {
      DayOf(u, offset, n);
      assert HourAt(u, offset) == HourAt(t, offset);
    }
  }

  lemma MinuteJump(f: Fields, t: int, offset: int)
    requires t % 60 == 0 && !Matches(f, t, offset)
    ensures NoneBefore(f, t, t + 60, offset)
  {
    forall u | t <= u < t + 60 && u % 60 == 0
      ensures !Matches(f, u, offset)
    {
      assert u == t;
    }
  }

  /** A plain star leaves the days to the other field, as POSIX has it for an unrestricted field. */
  lemma PlainStarIsUnrestricted(f: Fields, n: int)
    ensures f.day.any && (forall v :: 1 <= v <= 31 ==> v in f.day.values) ==> (DayMatches(f, n) <==> Weekday(n) in f.weekday.values)
    ensures f.weekday.any && (forall v :: 0 <= v <= 6 ==> v in f.weekday.values) ==>
              (DayMatches(f, n) <==> DateOf(n).day in f.day.values)
  {
    assert DateOf(n).day <= 31;
  }

  // ---- Two restricted day fields ----

  const ANY_DAY := Field(set v: int | 1 <= v <= 31, true)
  const ANY_WEEKDAY := Field(set v: int | 0 <= v <= 6, true)

  /** The schedule by days of the month alone, and by days of the week alone. */
  function ByDay(f: Fields): Fields {
    f.(weekday := ANY_WEEKDAY)
  }

  function ByWeekday(f: Fields): Fields {
    f.(day := ANY_DAY)
  }

  /** With neither day field starred a minute matches when one of the two schedules does, with one starred when both do. */
  lemma MatchesByDays(f: Fields, t: int, offset: int)
    ensures !f.day.any && !f.weekday.any ==>
              (Matches(f, t, offset) <==> Matches(ByDay(f), t, offset) || Matches(ByWeekday(f), t, offset))
    ensures f.day.any || f.weekday.any ==>
              (Matches(f, t, offset) <==> Matches(ByDay(f), t, offset) && Matches(ByWeekday(f), t, offset))
  {
    var n := DayAt(t, offset);
    PlainStarIsUnrestricted(ByDay(f), n);
    PlainStarIsUnrestricted(ByWeekday(f), n);
    hide DateOf, DayAt, HourAt, MinuteAt, Weekday;
  }

  function Earlier(a: Option<int>, b: Option<int>): Option<int> {
    if a.None? || (b.Some? && b.value < a.value) then b else a
  }

  lemma MatchFound(f: Fields, t: int, limit: int, offset: int)
    ensures Scan(f, t, limit, offset) ==
            if t >= limit then None else if Matches(f, t, offset) then Some(t) else Scan(f, t + 60, limit, offset)
    ensures Scan(f, t, limit, offset).Some? ==> Scan(f, t, limit, offset).value >= t
  {
    hide Matches;
    NotBefore(f, t, limit, offset);
  }

  lemma {:induction false} NotBefore(f: Fields, t: int, limit: int, offset: int)
    ensures Scan(f, t, limit, offset).Some? ==> Scan(f, t, limit, offset).value >= t
    decreases limit - t
  {
    hide Matches;
    if t < limit {
      NotBefore(f, t + 60, limit, offset);
    }
  }

  /** With neither day field starred the next run is the earlier one of the two schedules. */
  lemma {:induction false} RunsOnEither(f: Fields, t: int, limit: int, offset: int)
    requires !f.day.any && !f.weekday.any
    ensures Scan(f, t, limit, offset) == Earlier(Scan(ByDay(f), t, limit, offset), Scan(ByWeekday(f), t, limit, offset))
    decreases limit - t
  {
    hide Matches, Scan, ByDay, ByWeekday;
    MatchFound(f, t, limit, offset);
    MatchFound(ByDay(f), t, limit, offset);
    MatchFound(ByWeekday(f), t, limit, offset);
    if t < limit {
      MatchesByDays(f, t, offset);
      RunsOnEither(f, t + 60, limit, offset);
    }
  }

  /** A whole minute is put together from its parts again. */
  lemma PartsOfTime(t: int, offset: int)
    requires t % 60 == 0 && offset % 60 == 0
    ensures var d := DateOf(DayAt(t, offset));
            && 0 <= HourAt(t, offset) < 24 && 0 <= MinuteAt(t, offset) < 60
            && Mktime(HourAt(t, offset), MinuteAt(t, offset), 0, d.month, d.day, d.year, offset) == t
  {
    hide DateOf, DayNumber;
    var n := DayAt(t, offset);
    DayNumberOf(n);
    DayBounds(t, offset);
    DayOf(t, offset, n);
    Clock(t + offset - n * DAY);
  }

  lemma Clock(s: int)
    requires 0 <= s < DAY && s % 60 == 0
    ensures 0 <= s / 3600 < 24 && s / 3600 * 3600 + s / 60 % 60 * 60 == s
  {
    var k := s / 60;
    assert s == 60 * k;
    assert k == 60 * (k / 60) + k % 60;
    assert s / 3600 == k / 60;
  }

  /** The first whole minute after a timestamp at which the schedule runs, or none within a year. */
  ghost predicate IsNextRun(f: Fields, from: int, offset: int, run: Option<int>) {
    match run
    case Some(m) => && from < m && m % 60 == 0 && Matches(f, m, offset)
                    && forall u :: from < u < m && u % 60 == 0 ==> !Matches(f, u, offset)
    case None => forall u :: from < u <= from + 366 * 86400 && u % 60 == 0 ==> !Matches(f, u, offset)
  }

  lemma NextRunIs(f: Fields, from: int, offset: int)
    ensures var t := MinuteAfter(from);
            && t % 60 == 0 && IsNextRun(f, from, offset, Scan(f, t, t + LIMIT, offset))
            && (!f.day.any && !f.weekday.any ==>
                  Scan(f, t, t + LIMIT, offset) ==
                  Earlier(Scan(ByDay(f), t, t + LIMIT, offset), Scan(ByWeekday(f), t, t + LIMIT, offset)))
  {
    hide Matches, Scan, ByDay, ByWeekday, Earlier;
    var t := MinuteAfter(from);
    ScanIsLeast(f, t, t + LIMIT, offset);
    forall u | from < u && u % 60 == 0
      ensures t <= u
    {
    }
    if !f.day.any && !f.weekday.any {
      RunsOnEither(f, t, t + LIMIT, offset);
    }
  }

  /** The search that jumps by months, days and hours finds what looking at every minute finds. */
  method CronNextRun(f: Fields, from: int, offset: int) returns (run: Option<int>)
    requires offset % 60 == 0
    ensures run == Scan(f, MinuteAfter(from), MinuteAfter(from) + LIMIT, offset)
    ensures IsNextRun(f, from, offset, run)
    ensures !f.day.any && !f.weekday.any ==>
              run == Earlier(Scan(ByDay(f), MinuteAfter(from), MinuteAfter(from) + LIMIT, offset),
                             Scan(ByWeekday(f), MinuteAfter(from), MinuteAfter(from) + LIMIT, offset))
  {
    NextRunIs(f, from, offset);
    hide DateOf, DayNumber, Mktime, DayAt, HourAt, MinuteAt, NoneBefore, IsNextRun, Earlier;
    var time := MinuteAfter(from);
    var limit := time + LIMIT;
    while time < limit
      invariant time % 60 == 0
      invariant Scan(f, MinuteAfter(from), limit, offset) == Scan(f, time, limit, offset)
      decreases limit - time
    {
      var n := DayAt(time, offset);
      var d := DateOf(n);
      var hour := HourAt(time, offset);
      var next := time + 60;
      if d.month !in f.month.values {
        next := Mktime(0, 0, 0, d.month + 1, 1, d.year, offset);
        MonthJump(f, time, offset);
      } else if !(if f.day.any || f.weekday.any then d.day in f.day.values && Weekday(n) in f.weekday.values
                  else d.day in f.day.values || Weekday(n) in f.weekday.values) {
        next := Mktime(0, 0, 0, d.month, d.day + 1, d.year, offset);
        DayJump(f, time, offset);
      } else if hour !in f.hour.values {
        next := Mktime(hour + 1, 0, 0, d.month, d.day, d.year, offset);
        HourJump(f, time, offset);
      } else if MinuteAt(time, offset) in f.minute.values {
        return Some(time);
      } else {
        MinuteJump(f, time, offset);
      }
      ScanSkips(f, time, next, limit, offset);
      time := next;
    }
    return None;
  }
}
