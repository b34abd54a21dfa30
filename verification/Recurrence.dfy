/**
 * Repeating events (calendar_rules.occurrences) against the recurrence set of section 3.3.10 of RFC 5545 for the rules
 * calendar files are written with. Moments are microseconds: a day number times a day, plus the time of day.
 */
module Recurrence {
  import opened Text
  import opened Dates

  const DAY: int := 86_400_000_000
  const MAX_OCCURRENCES: nat := 500

  datatype Repeat = Never | Daily | Weekdays | Weekly | Monthly | Yearly

  function Moment(d: Date, time: int): int
    requires 1 <= d.month <= 12
  {
    d.Ordinal() * DAY + time
  }

  /** datetime.weekday(): Monday is 0. */
  function Weekday(x: int): int {
    (x / DAY + 6) % 7
  }

  /**
   * The recurrence set of an event: FREQ=DAILY; FREQ=WEEKLY;BYDAY=MO,TU,WE,TH,FR; FREQ=WEEKLY; FREQ=MONTHLY;
   * FREQ=YEARLY.
   */
  ghost predicate InSet(date: Date, time: int, repeat: Repeat, x: int)
    requires date.Valid()
  {
    var start := Moment(date, time);
    && x >= start
    && match repeat
       case Never => x == start
       case Daily => (x - start) % DAY == 0
       case Weekdays => (x - start) % DAY == 0 && Weekday(x) < 5
       case Weekly => (x - start) % (7 * DAY) == 0
       case Monthly => exists d: Date :: OnDayOf(d, date, time, x)
       case Yearly => exists d: Date :: OnDayOf(d, date, time, x) && d.month == date.month
  }

  /** x falls on a date that exists, with the day and the time of the start. */
  ghost predicate OnDayOf(d: Date, date: Date, time: int, x: int) {
    d.Valid() && d.day == date.day && x == Moment(d, time)
  }

  /** The calendar looks this far: 5000 days or weeks, 1200 months, 400 years. */
  function Reach(date: Date, time: int, repeat: Repeat): int
    requires date.Valid()
  {
    match repeat
    case Never => Moment(date, time) + DAY
    case Daily => Moment(date, time) + 5000 * DAY
    case Weekdays => Moment(date, time) + 5000 * DAY
    case Weekly => Moment(date, time) + 5000 * 7 * DAY
    case Monthly => (MonthStart(date.Index() + 1200) + 1) * DAY
    case Yearly => (MonthStart(12 * (date.year + 400)) + 1) * DAY
  }

  /**
   * There is an occurrence at x, for an event of this length: in the recurrence set and within reach, before `to`, on
   * the last day or an earlier one, and ending after `from` or, without length, not before it.
   */
  ghost predicate Occurs(date: Date, time: int, length: int, repeat: Repeat, until: Option<Date>, from: int, to: int,
                         x: int)
    requires date.Valid() && (until.Some? ==> until.value.Valid())
  {
    && InSet(date, time, repeat, x) && x < Reach(date, time, repeat)
    && x < to && (until.Some? ==> x / DAY <= until.value.Ordinal())
    && if length == 0 then x >= from else x + length > from
  }

  /** 1 January 2024 was a Monday, and each day's next is the next day of the week, whatever the time. */
  lemma WeekdaysAre(x: int, d: Date, time: int)
    requires 0 <= time < DAY
    ensures d == Date(2024, 1, 1) ==> Weekday(Moment(d, time)) == 0
    ensures Weekday(x + DAY) == (Weekday(x) + 1) % 7
  {
    if d == Date(2024, 1, 1) {
      KnownDate(d.year);
      SameDay(738886, time);
    }
    NextDay(x);
  }

  lemma SameDay(day: int, time: int)
    requires 0 <= time < DAY
    ensures (day * DAY + time) / DAY == day
  {
  }

  lemma NextDay(x: int)
    ensures (x + DAY) / DAY == x / DAY + 1
  {
  }

  /** What is asked: an event's start, length and rule, the last moment it may start, and the window [from, to). */
  datatype Query = Query(date: Date, time: int, length: nat, repeat: Repeat, last: Option<int>, from: int, to: int) {
    predicate Valid() {
      date.Valid() && 0 <= time < DAY
    }

    function Start(): int
      requires Valid()
    {
      Moment(date, time)
    }

    /** An occurrence at x may start. */
    predicate Open(x: int) {
      x < to && (last.Some? ==> x <= last.value)
    }

    /**
     * An occurrence at x overlaps the window from below: it ends after `from`, or has no length and is not before it.
     */
    predicate Overlaps(x: int) {
      x + length > from || (length == 0 && x >= from)
    }

    ghost predicate InRule(x: int)
      requires Valid()
    {
      InSet(date, time, repeat, x)
    }

    function Horizon(): int
      requires Valid()
    {
      Reach(date, time, repeat)
    }

    ghost predicate Wanted(x: int)
      requires Valid()
    {
      InRule(x) && Open(x) && Overlaps(x) && x < Horizon()
    }

    function Cap(): nat {
      match repeat case Never => 1 case Monthly => 1200 case Yearly => 400 case _ => 5000
    }

    /** The i-th candidate; None when that month or year lacks the day. */
    function At(i: nat): Option<int>
      requires Valid()
    {
      match repeat
      case Never => if i == 0 then Some(Start()) else None
      case Daily => Some(Start() + i * DAY)
      case Weekdays => Some(Start() + i * DAY)
      case Weekly => Some(Start() + i * 7 * DAY)
      case Monthly => MonthOn(date, time, i)
      case Yearly => YearOn(date, time, i)
    }

    predicate Keeps(x: int) {
      Open(x) && Overlaps(x) && !(repeat == Weekdays && Weekday(x) >= 5)
    }

    /** What is kept of the first n candidates. */
    function Gather(n: nat): seq<(int, int)>
      requires Valid()
    {
      Collect((i: nat) => At(i), x => Keeps(x), length, n)
    }
  }

  /** Of the first n candidates, those kept, each with its end. */
  function Collect(at: nat -> Option<int>, keeps: int -> bool, length: int, n: nat): seq<(int, int)> {
    if n == 0 then []
    else match at(n - 1)
      case Some(x) => Collect(at, keeps, length, n - 1) + if keeps(x) then [(x, x + length)] else []
      case None => Collect(at, keeps, length, n - 1)
  }

  /** calendar_rules._add_months */
  function MonthOn(d: Date, time: int, n: int): Option<int>
    requires d.Valid()
  {
    var m := d.month - 1 + n;
    var year, month := d.year + m / 12, m % 12 + 1;
    if d.day <= DaysIn(year, month) then Some(Moment(Date(year, month, d.day), time)) else None
  }

  /** start.replace(year=start.year + n), None where it raises. */
  function YearOn(d: Date, time: int, n: int): Option<int>
    requires d.Valid()
  {
    if d.day <= DaysIn(d.year + n, d.month) then Some(Moment(Date(d.year + n, d.month, d.day), time)) else None
  }

  // ---- candidates and the recurrence set are the same moments ----

  /** The candidate's date, for the rules that go by dates. */
  function DateAt(q: Query, i: nat): Date
    requires q.Valid() && (q.repeat == Monthly || q.repeat == Yearly)
  {
    if q.repeat == Yearly then Date(q.date.year + i, q.date.month, q.date.day)
    else Date(q.date.year + (q.date.month - 1 + i) / 12, (q.date.month - 1 + i) % 12 + 1, q.date.day)
  }

  lemma DateAtIndex(q: Query, i: nat)
    requires q.Valid() && (q.repeat == Monthly || q.repeat == Yearly)
    ensures 1 <= DateAt(q, i).month <= 12
    ensures DateAt(q, i).Index() == q.date.Index() + if q.repeat == Yearly then 12 * i else i
    ensures q.At(i).Some? <==> DateAt(q, i).Valid()
    ensures q.At(i).Some? ==> q.At(i).value == Moment(DateAt(q, i), q.time)
  {
  }

  /** Moments of dates with one time of day are ordered as the dates. */
  lemma MomentOrder(a: Date, b: Date, time: int)
    requires a.Valid() && b.Valid()
    ensures Moment(a, time) < Moment(b, time) <==> !b.AtMost(a)
    ensures Moment(a, time) == Moment(b, time) <==> a == b
  {
    OrdinalOrder(a, b);
    OrdinalOrder(b, a);
  }

  /** A moment is before the first of a later month exactly when its month is. */
  lemma BeforeMonth(d: Date, time: int, index: int)
    requires d.Valid() && 0 <= time < DAY
    ensures Moment(d, time) < (MonthStart(index) + 1) * DAY <==> d.Index() < index
  {
    IndexParts(d);
    if d.Index() < index {
      MonthsApart(d.Index(), index - d.Index());
      assert d.Ordinal() <= MonthStart(index);
    } else {
      MonthsApart(index, d.Index() - index);
      assert d.Ordinal() >= MonthStart(index) + 1;
    }
  }

  lemma AtIncreases(q: Query, i: nat, j: nat)
    requires q.Valid() && i < j && q.At(i).Some? && q.At(j).Some?
    ensures q.At(i).value < q.At(j).value
  {
    if q.repeat == Monthly || q.repeat == Yearly {
      DateAtIndex(q, i);
      DateAtIndex(q, j);
      MomentOrder(DateAt(q, i), DateAt(q, j), q.time);
    }
  }

  /** Every candidate kept is in the recurrence set, and below the horizon exactly when its number is below the cap. */
  lemma AtInRule(q: Query, i: nat)
    requires q.Valid() && q.At(i).Some? && !(q.repeat == Weekdays && Weekday(q.At(i).value) >= 5)
    ensures q.InRule(q.At(i).value) && (q.At(i).value < q.Horizon() <==> i < q.Cap())
  {
    if q.repeat == Monthly || q.repeat == Yearly {
      DateAtInRule(q, i);
      DateAtHorizon(q, i);
    } else {
      WholeDays(q, i);
    }
  }

  lemma DateAtInRule(q: Query, i: nat)
    requires q.Valid() && (q.repeat == Monthly || q.repeat == Yearly) && q.At(i).Some?
    ensures q.InRule(q.At(i).value)
  {
    DateAtIndex(q, i);
    var d := DateAt(q, i);
    assert OnDayOf(d, q.date, q.time, q.At(i).value);
    MomentOrder(d, q.date, q.time);
  }

  lemma DateHorizon(q: Query, d: Date)
    requires q.Valid() && (q.repeat == Monthly || q.repeat == Yearly) && d.Valid()
    ensures Moment(d, q.time) < q.Horizon()
       <==> d.Index() < if q.repeat == Monthly then q.date.Index() + 1200 else 12 * (q.date.year + 400)
  {
    BeforeMonth(d, q.time, if q.repeat == Monthly then q.date.Index() + 1200 else 12 * (q.date.year + 400));
  }

  lemma DateAtHorizon(q: Query, i: nat)
    requires q.Valid() && (q.repeat == Monthly || q.repeat == Yearly) && q.At(i).Some?
    ensures q.At(i).value < q.Horizon() <==> i < q.Cap()
  {
    DateAtIndex(q, i);
    DateHorizon(q, DateAt(q, i));
  }

  lemma WholeDays(q: Query, i: nat)
    requires q.Valid() && (q.repeat == Never || q.repeat == Daily || q.repeat == Weekdays || q.repeat == Weekly)
    ensures (i * DAY) % DAY == 0 && (i * 7 * DAY) % (7 * DAY) == 0
  {
  }

  /** Every moment of the recurrence set is a candidate. */
  lemma RuleIsAt(q: Query, x: int) returns (i: nat)
    requires q.Valid() && q.InRule(x)
    ensures q.At(i) == Some(x)
  {
    if q.repeat == Monthly || q.repeat == Yearly {
      i := RuleIsDate(q, x);
    } else {
      i := RuleIsDays(q, x);
    }
  }

  lemma RuleIsDays(q: Query, x: int) returns (i: nat)
    requires q.Valid() && q.InRule(x)
             && (q.repeat == Never || q.repeat == Daily || q.repeat == Weekdays || q.repeat == Weekly)
    ensures q.At(i) == Some(x)
  {
    var gap := x - q.Start();
    if q.repeat == Never {
      i := 0;
    } else if q.repeat == Weekly {
      i := gap / (7 * DAY);
    } else {
      i := gap / DAY;
    }
  }

  lemma RuleIsDate(q: Query, x: int) returns (i: nat)
    requires q.Valid() && q.InRule(x) && (q.repeat == Monthly || q.repeat == Yearly)
    ensures q.At(i) == Some(x)
  {
    var d: Date :| OnDayOf(d, q.date, q.time, x) && (q.repeat == Yearly ==> d.month == q.date.month);
    MomentOrder(d, q.date, q.time);
    i := if q.repeat == Monthly then d.Index() - q.date.Index() else d.year - q.date.year;
    SameIndexSameDate(q, i, d);
  }

  lemma SameIndexSameDate(q: Query, i: nat, d: Date)
    requires q.Valid() && (q.repeat == Monthly || q.repeat == Yearly)
    requires d.Valid() && d.day == q.date.day && d.Index() == q.date.Index() + if q.repeat == Yearly then 12 * i else i
    ensures DateAt(q, i) == d && q.At(i) == Some(Moment(d, q.time))
  {
    DateAtIndex(q, i);
    IndexParts(d);
    IndexParts(DateAt(q, i));
  }

  // ---- what is gathered ----

  ghost predicate Ascending(out: seq<(int, int)>) {
    forall a, b | 0 <= a < b < |out| :: out[a].0 < out[b].0
  }

  /** Results that are in order, wanted, and before every candidate from the n-th on. */
  ghost predicate Sound(at: nat -> Option<int>, wanted: int -> bool, length: int, out: seq<(int, int)>, n: nat) {
    && Ascending(out)
    && (forall p | p in out :: wanted(p.0) && p.1 == p.0 + length)
    && (forall p, j: nat | p in out && j >= n && at(j).Some? :: p.0 < at(j).value)
  }

  lemma {:induction false} CollectSound(at: nat -> Option<int>, keeps: int -> bool, wanted: int -> bool, length: int,
                                        n: nat)
    requires forall i: nat, j: nat | i < j && at(i).Some? && at(j).Some? :: at(i).value < at(j).value
    requires forall i: nat | i < n && at(i).Some? && keeps(at(i).value) :: wanted(at(i).value)
    ensures Sound(at, wanted, length, Collect(at, keeps, length, n), n)
  {
    if n > 0 { CollectSound(at, keeps, wanted, length, n - 1); }
  }

  lemma GatherSound(q: Query, n: nat)
    requires q.Valid() && n <= q.Cap()
    ensures Sound((i: nat) => q.At(i), x => q.Wanted(x), q.length, q.Gather(n), n)
  {
    forall i: nat, j: nat | i < j && q.At(i).Some? && q.At(j).Some?
      ensures q.At(i).value < q.At(j).value
    {
      AtIncreases(q, i, j);
    }
    forall i: nat | i < n && q.At(i).Some? && q.Keeps(q.At(i).value)
      ensures q.Wanted(q.At(i).value)
    {
      AtInRule(q, i);
    }
    CollectSound((i: nat) => q.At(i), x => q.Keeps(x), x => q.Wanted(x), q.length, n);
  }

  lemma GatherBefore(q: Query, n: nat, i: nat)
    requires q.Valid() && n <= q.Cap() && n <= i && q.At(i).Some?
    ensures forall p | p in q.Gather(n) :: p.0 < q.At(i).value
  {
    GatherSound(q, n);
    var at := (j: nat) => q.At(j);
    assert at(i) == q.At(i);
  }

  lemma {:induction false} CollectComplete(at: nat -> Option<int>, keeps: int -> bool, length: int, n: nat, i: nat)
    requires i < n && at(i).Some? && keeps(at(i).value)
    ensures (at(i).value, at(i).value + length) in Collect(at, keeps, length, n)
  {
    if i < n - 1 { CollectComplete(at, keeps, length, n - 1, i); }
  }

  lemma GatherComplete(q: Query, n: nat, i: nat)
    requires q.Valid() && i < n && q.At(i).Some? && q.Keeps(q.At(i).value)
    ensures (q.At(i).value, q.At(i).value + q.length) in q.Gather(n)
  {
    CollectComplete((j: nat) => q.At(j), x => q.Keeps(x), q.length, n, i);
  }

  /** Where the loop stops: at the cap, at a candidate that may no longer start, or with enough results. */
  ghost predicate Stopped(q: Query, n: nat)
    requires q.Valid()
  {
    || n == q.Cap()
    || (q.At(n).Some? && !q.Open(q.At(n).value))
    || |q.Gather(n)| >= MAX_OCCURRENCES
  }

  lemma StoppedIsComplete(q: Query, n: nat, x: int)
    requires q.Valid() && n <= q.Cap() && Stopped(q, n) && q.Wanted(x)
    ensures var out := q.Gather(n);
            || (x, x + q.length) in out
            || (|out| >= MAX_OCCURRENCES && forall p | p in out :: p.0 < x)
  {
    var i := RuleIsAt(q, x);
    AtInRule(q, i);
    if i < n {
      GatherComplete(q, n, i);
    } else {
      GatherBefore(q, n, i);
      if q.At(n).Some? && i != n { AtIncreases(q, n, i); }
    }
  }

  /** The candidates between i and j that do not exist add nothing. */
  lemma {:induction false} GatherSkips(q: Query, i: nat, j: nat)
    requires q.Valid() && i <= j && forall m: nat | i <= m < j :: q.At(m).None?
    ensures q.Gather(j) == q.Gather(i)
    decreases j
  {
    if i < j {
      GatherSkips(q, i, j - 1);
      GatherNone(q, j - 1);
    }
  }

  lemma GatherNone(q: Query, n: nat)
    requires q.Valid() && q.At(n).None?
    ensures q.Gather(n + 1) == q.Gather(n)
  {
  }

  /** The next candidate that exists, or the cap. */
  method NextMonth(q: Query, first: nat) returns (i: nat, cur: Option<int>)
    requires q.Valid() && q.repeat == Monthly && first <= 1200
    ensures first <= i <= 1200 && q.Gather(i) == q.Gather(first) && (cur.Some? ==> i < 1200 && cur == q.At(i))
            && (cur.None? ==> i == 1200)
  {
    i, cur := first, None;
    while cur.None? && i < 1200
      invariant first <= i <= 1200 && (forall m: nat | first <= m < i :: q.At(m).None?)
                && (cur.Some? ==> i < 1200 && cur == q.At(i))
      decreases 1200 - i, cur.None?
    {
      cur := MonthOn(q.date, q.time, i);
      if cur.None? { i := i + 1; }
    }
    GatherSkips(q, first, i);
  }

  method NextYear(q: Query, first: nat) returns (i: nat, cur: Option<int>)
    requires q.Valid() && q.repeat == Yearly && first <= 400
    ensures first <= i <= 400 && q.Gather(i) == q.Gather(first) && (cur.Some? ==> i < 400 && cur == q.At(i))
            && (cur.None? ==> i == 400)
  {
    i, cur := first, None;
    while cur.None? && i < 400
      invariant first <= i <= 400 && (forall m: nat | first <= m < i :: q.At(m).None?)
                && (cur.Some? ==> i < 400 && cur == q.At(i))
      decreases 400 - i, cur.None?
    {
      cur := YearOn(q.date, q.time, i);
      if cur.None? { i := i + 1; }
    }
    GatherSkips(q, first, i);
  }

  lemma WholeDaysAt(q: Query, i: nat)
    requires q.Valid() && (q.repeat == Daily || q.repeat == Weekdays || q.repeat == Weekly)
    ensures q.At(i) == Some(q.Start() + (if q.repeat == Weekly then i * 7 * DAY else i * DAY))
  {
  }

  /** The end of a turn of the loop: the next candidate, if there is one below the cap. */
  method Advance(q: Query, at: nat) returns (i: nat, cur: Option<int>)
    requires q.Valid() && q.repeat != Never && at < q.Cap()
    ensures at < i <= q.Cap() && q.Gather(i) == q.Gather(at + 1) && (cur.Some? ==> cur == q.At(i))
    ensures if q.repeat == Monthly || q.repeat == Yearly then cur.Some? <==> i < q.Cap() else cur.Some? && i == at + 1
  {
    i := at + 1;
    if q.repeat == Monthly {
      i, cur := NextMonth(q, i);
    } else if q.repeat == Yearly {
      i, cur := NextYear(q, i);
    } else {
      cur := Some(q.Start() + (if q.repeat == Weekly then i * 7 * DAY else i * DAY));
      WholeDaysAt(q, i);
    }
  }

  /**
   * An answer: in strictly increasing order, moments of the recurrence set that overlap the window and may start, each
   * with its end; all of them below the horizon or, when there are more than 500, the first 500.
   */
  ghost predicate Answers(q: Query, out: seq<(int, int)>)
    requires q.Valid()
  {
    && Ascending(out) && |out| <= MAX_OCCURRENCES
    && (forall p | p in out :: q.Wanted(p.0) && p.1 == p.0 + q.length)
    && forall x | q.Wanted(x) :: (x, x + q.length) in out
        || (|out| == MAX_OCCURRENCES && forall p | p in out :: p.0 < x)
  }

  lemma StoppedAnswers(q: Query, n: nat)
    requires q.Valid() && n <= q.Cap() && Stopped(q, n) && |q.Gather(n)| <= MAX_OCCURRENCES
    ensures Answers(q, q.Gather(n))
  {
    GatherSound(q, n);
    forall x | q.Wanted(x)
      ensures (x, x + q.length) in q.Gather(n)
              || (|q.Gather(n)| == MAX_OCCURRENCES && forall p | p in q.Gather(n) :: p.0 < x)
    {
      StoppedIsComplete(q, n, x);
    }
  }

  function Asked(date: Date, time: int, end: int, repeat: Repeat, until: Option<Date>, from: int, to: int): Query
    requires date.Valid() && (until.Some? ==> until.value.Valid())
  {
    var start := Moment(date, time);
    Query(date, time, if end > start then end - start else 0, repeat,
          if until.Some? then Some(Moment(until.value, DAY - 1)) else None, from, to)
  }

  lemma FirstIsStart(q: Query)
    requires q.Valid()
    ensures q.At(0) == Some(q.Start())
  {
    if q.repeat == Monthly || q.repeat == Yearly { SameIndexSameDate(q, 0, q.date); }
  }

  lemma GatherNext(q: Query, i: nat, x: int)
    requires q.Valid() && q.At(i) == Some(x)
    ensures q.Gather(i + 1) == if q.Keeps(x) then q.Gather(i) + [(x, x + q.length)] else q.Gather(i)
  {
  }

  /**
   * The loop of occurrences: candidates one by one, until one may no longer start, there are 500 results or the cap
   * is reached.
   */
  method Expand(q: Query) returns (out: seq<(int, int)>, ghost n: nat)
    requires q.Valid()
    ensures n <= q.Cap() && Stopped(q, n) && out == q.Gather(n) && |out| <= MAX_OCCURRENCES
  {
    FirstIsStart(q);
    var i, k := 0, 0;
    var cur := Some(q.Start());
    n := 0;
    out := [];
    while cur.Some? && k < 5000 && |out| < MAX_OCCURRENCES
      invariant out == q.Gather(n) && |out| <= MAX_OCCURRENCES && n == i <= q.Cap()
      invariant cur.Some? ==> cur == q.At(i)
      invariant k <= i && (q.repeat == Never ==> i == 0)
      invariant if q.repeat == Monthly || q.repeat == Yearly then cur.Some? <==> i < q.Cap() else cur.Some? && k == i
      decreases 5000 - k
    {
      k := k + 1;
      var x := cur.value;
      GatherNext(q, i, x);
      if x >= q.to || (q.last.Some? && x > q.last.value) {
        break;
      }
      if x + q.length > q.from || (q.length == 0 && x >= q.from) {
        if !(q.repeat == Weekdays && Weekday(x) >= 5) {
          out := out + [(x, x + q.length)];
        }
      }
      n := i + 1;
      if q.repeat == Never {
        break;
      }
      i, cur := Advance(q, i);
      n := i;
    }
  }

  lemma OpenIs(q: Query, until: Option<Date>, x: int)
    requires q.Valid() && (until.Some? ==> until.value.Valid())
    requires q.last == if until.Some? then Some(Moment(until.value, DAY - 1)) else None
    ensures q.Open(x) <==> x < q.to && (until.Some? ==> x / DAY <= until.value.Ordinal())
  {
  }

  /** How long an event takes: no time when it ends before it starts. */
  function Span(date: Date, time: int, end: int): (length: nat)
    requires date.Valid()
    ensures Moment(date, time) + length == end || (length == 0 && end < Moment(date, time))
  {
    if end >= Moment(date, time) then end - Moment(date, time) else 0
  }

  lemma WantedIs(date: Date, time: int, end: int, repeat: Repeat, until: Option<Date>, from: int, to: int, x: int)
    requires date.Valid() && 0 <= time < DAY && (until.Some? ==> until.value.Valid())
    ensures Asked(date, time, end, repeat, until, from, to).Wanted(x)
            <==> Occurs(date, time, Span(date, time, end), repeat, until, from, to, x)
  {
    OpenIs(Asked(date, time, end, repeat, until, from, to), until, x);
  }

  /** An answer in terms of what was asked. */
  lemma AnswersMean(date: Date, time: int, end: int, repeat: Repeat, until: Option<Date>, from: int, to: int,
                    out: seq<(int, int)>)
    requires date.Valid() && 0 <= time < DAY && (until.Some? ==> until.value.Valid())
    requires Answers(Asked(date, time, end, repeat, until, from, to), out)
    ensures |out| <= 500 && forall a, b | 0 <= a < b < |out| :: out[a].0 < out[b].0
    ensures forall p | p in out ::
              Occurs(date, time, Span(date, time, end), repeat, until, from, to, p.0)
              && p.1 == p.0 + Span(date, time, end)
    ensures forall x | Occurs(date, time, Span(date, time, end), repeat, until, from, to, x) ::
              (x, x + Span(date, time, end)) in out || (|out| == 500 && forall p | p in out :: p.0 < x)
  {
    var q := Asked(date, time, end, repeat, until, from, to);
    forall p | p in out
      ensures Occurs(date, time, Span(date, time, end), repeat, until, from, to, p.0)
      ensures p.1 == p.0 + Span(date, time, end)
    {
      WantedIs(date, time, end, repeat, until, from, to, p.0);
    }
    forall x | Occurs(date, time, Span(date, time, end), repeat, until, from, to, x)
      ensures (x, x + Span(date, time, end)) in out || (|out| == 500 && forall p | p in out :: p.0 < x)
    {
      WantedIs(date, time, end, repeat, until, from, to, x);
      assert q.Wanted(x);
    }
  }

  method Answer(q: Query) returns (out: seq<(int, int)>)
    requires q.Valid()
    ensures Answers(q, out)
  {
    ghost var n: nat;
    out, n := Expand(q);
    StoppedAnswers(q, n);
  }

  /**
   * calendar_rules.occurrences: in strictly increasing order the occurrences there are, each with its end (an event
   * that ends before it starts has no length); all of them or, when there are more than 500, the first 500.
   */
  method Occurrences(date: Date, time: int, end: int, repeat: Repeat, until: Option<Date>, from: int, to: int)
    returns (out: seq<(int, int)>)
    requires date.Valid() && 0 <= time < DAY && (until.Some? ==> until.value.Valid())
    ensures |out| <= 500 && forall a, b | 0 <= a < b < |out| :: out[a].0 < out[b].0
    ensures forall p | p in out ::
              Occurs(date, time, Span(date, time, end), repeat, until, from, to, p.0)
              && p.1 == p.0 + Span(date, time, end)
    ensures forall x | Occurs(date, time, Span(date, time, end), repeat, until, from, to, x) ::
              (x, x + Span(date, time, end)) in out || (|out| == 500 && forall p | p in out :: p.0 < x)
  {
    out := Answer(Asked(date, time, end, repeat, until, from, to));
    AnswersMean(date, time, end, repeat, until, from, to, out);
  }
}
