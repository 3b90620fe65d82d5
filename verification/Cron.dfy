/** Schedules (src/core/schedule-expr.ts): field parsing and the minute-by-minute cron search.
    A field arrives already split at commas and classified; times are UTC. */
module Cron {
  import opened Prelude
  import opened Calendar

  datatype Part =
    | Star
    | Number(n: int)
    | Range(a: nat, b: nat)
    | StarStep(step: nat)
    | RangeStep(a: nat, b: nat, step: nat)
    | Malformed

  type Field = seq<Part>

  datatype Schedule =
    | At(time: Option<int>)
    | Every(ms: Option<nat>)
    | CronExpr(fields: seq<Field>)

  const SEARCH_WINDOW_MS := 366 * 24 * 60 * 60 * 1000

  // ----- What an expression means -----

  predicate IsBad(p: Part) {
    p.Malformed? || (p.StarStep? && p.step == 0) || (p.RangeStep? && p.step == 0)
  }

  /** `v` is `start`, `start + step`, `start + 2 * step`, and so on. */
  predicate OnGrid(v: int, start: int, step: nat)
    requires step > 0
  {
    (v - start) % step == 0
  }

  predicate PartAllows(p: Part, v: int) {
    match p
    case Star => 0 <= v <= 59
    case Number(n) => v == n
    case Range(a, b) => a <= v <= b
    case StarStep(step) => step != 0 && 0 <= v <= 59 && OnGrid(v, 0, step)
    case RangeStep(a, b, step) => step != 0 && a <= v <= b && OnGrid(v, a, step)
    case Malformed => false
  }

  ghost predicate FieldAllows(f: Field, v: int) {
    exists i :: 0 <= i < |f| && PartAllows(f[i], v)
  }

  /** A field parses when no part is bad and it allows something. */
  ghost predicate FieldParses(f: Field) {
    && (forall i :: 0 <= i < |f| ==> !IsBad(f[i]))
    && exists v :: FieldAllows(f, v)
  }

  ghost predicate Parses(fields: seq<Field>) {
    |fields| == 5 && forall i :: 0 <= i < 5 ==> FieldParses(fields[i])
  }

  /** `t` is a whole minute all of whose fields match; day of month and weekday are both required. */
  ghost predicate Fires(fields: seq<Field>, t: int)
    requires |fields| == 5
  {
    && t % MS_PER_MINUTE == 0
    && FieldAllows(fields[0], MinuteOf(t))
    && FieldAllows(fields[1], HourOf(t))
    && FieldAllows(fields[2], DateOfDay(DayOf(t)).day)
    && FieldAllows(fields[3], DateOfDay(DayOf(t)).month)
    && FieldAllows(fields[4], WeekdayOf(t))
  }

  /** The result promised for a search after `after`: the least firing minute in the window, and
      nothing exactly when there is none or the expression does not parse. */
  ghost predicate IsNextFire(fields: seq<Field>, after: int, r: Option<int>) {
    match r
    case Some(t) =>
      && Parses(fields)
      && after < t < after + SEARCH_WINDOW_MS
      && Fires(fields, t)
      && (forall u :: after < u < t ==> !Fires(fields, u))
    case None =>
      Parses(fields) ==> forall u :: after < u < after + SEARCH_WINDOW_MS ==> !Fires(fields, u)
  }

  /** What each part means, counted from its start: every `step`-th value up to the end. */
  lemma PartMeans(p: Part, v: int)
    ensures
      match p
      case Star => PartAllows(p, v) <==> exists k: nat :: IsStep(v, 0, k, 1) && v <= 59
      case Number(n) => PartAllows(p, v) <==> v == n
      case Range(a, b) => PartAllows(p, v) <==> exists k: nat :: IsStep(v, a, k, 1) && v <= b
      case StarStep(step) => step > 0 ==> (PartAllows(p, v) <==> exists k: nat :: IsStep(v, 0, k, step) && v <= 59)
      case RangeStep(a, b, step) => step > 0 ==> (PartAllows(p, v) <==> exists k: nat :: IsStep(v, a, k, step) && v <= b)
      case Malformed => !PartAllows(p, v)
    ensures IsBad(p) <==> p == Malformed || p == StarStep(0) || (p.RangeStep? && p == RangeStep(p.a, p.b, 0))
  {
    match p
    case Star => StepIff(v, 0, 1);
    case Range(a, b) => StepIff(v, a, 1);
    case StarStep(step) => if step > 0 { StepIff(v, 0, step); }
    case RangeStep(a, b, step) => if step > 0 { StepIff(v, a, step); }
    case _ =>
  }

  predicate IsStep(v: int, start: int, k: nat, step: nat) {
    v == start + k * step
  }

  lemma StepIff(v: int, start: int, step: nat)
    requires step > 0
    ensures (exists k: nat :: IsStep(v, start, k, step)) <==> v >= start && OnGrid(v, start, step)
  {
    if v >= start && OnGrid(v, start, step) {
      assert IsStep(v, start, (v - start) / step, step);
    }
    if k: nat :| IsStep(v, start, k, step) {
      DivisionIsUnique(v - start, step, k, 0);
      assert k * step >= 0;
    }
  }

  // ----- parseFieldValues -----

  /** Quotient and remainder are unique. */
  lemma DivisionIsUnique(w: int, step: nat, q: int, r: int)
    requires step > 0 && w == q * step + r && 0 <= r < step
    ensures w % step == r
  {
    var d := q - w / step;
    assert w == (w / step) * step + w % step;
    assert d * step == w % step - r;
    assert d >= 1 ==> d * step >= step;
    assert d <= -1 ==> d * step <= 0 - step;
  }

  /** From one value on the step grid the next one is a whole step away. */
  lemma NextOnGrid(i: int, start: int, step: nat)
    requires step > 0 && OnGrid(i, start, step)
    ensures OnGrid(i + step, start, step)
    ensures forall v {:trigger OnGrid(v, start, step)} :: i <= v < i + step ==> (OnGrid(v, start, step) <==> v == i)
  {
    var q := (i - start) / step;
    forall v {:trigger OnGrid(v, start, step)} | i <= v < i + step
      ensures OnGrid(v, start, step) <==> v == i
    {
      DivisionIsUnique(v - start, step, q, v - i);
    }
    DivisionIsUnique(i + step - start, step, q + 1, 0);
  }

  /** `for (let i = start; i <= end; i += step) result.push(i)`. */
  method PushSteps(result: seq<int>, start: int, end: int, step: nat) returns (out: seq<int>)
    requires step > 0
    ensures forall v :: v in out <==> v in result || (start <= v <= end && OnGrid(v, start, step))
  {
    out := result;
    var i := start;
    while i <= end
      invariant start <= i && OnGrid(i, start, step)
      invariant forall v :: v in out <==> v in result || (start <= v <= end && v < i && OnGrid(v, start, step))
      decreases end - i
    {
      NextOnGrid(i, start, step);
      out := out + [i];
      i := i + step;
    }
  }

  method ParseFieldValues(f: Field) returns (r: Option<seq<int>>)
    ensures r.Some? <==> FieldParses(f)
    ensures r.Some? ==> forall v :: v in r.value <==> FieldAllows(f, v)
  {
    var result: seq<int> := [];
    for i := 0 to |f|
      invariant forall j :: 0 <= j < i ==> !IsBad(f[j])
      invariant forall v :: v in result <==> FieldAllows(f[..i], v)
    {
      match f[i]
      case StarStep(step) =>
        if step == 0 { return None; }
        result := PushSteps(result, 0, 59, step);
      case RangeStep(a, b, step) =>
        if step == 0 { return None; }
        result := PushSteps(result, a, b, step);
      case Range(a, b) => result := PushSteps(result, a, b, 1);
      case Star => result := PushSteps(result, 0, 59, 1);
      case Number(n) => result := result + [n];
      case Malformed => return None;
    }
    assert f[..|f|] == f;
    if |result| == 0 {
      return None;
    }
    assert result[0] in result && FieldAllows(f, result[0]);
    return Some(result);
  }

  // ----- nextCronFire -----

  method ParseAll(fields: seq<Field>) returns (values: Option<seq<seq<int>>>)
    ensures values.Some? <==> forall i :: 0 <= i < |fields| ==> FieldParses(fields[i])
    ensures values.Some? ==> |values.value| == |fields|
    ensures values.Some? ==> forall i, v :: 0 <= i < |fields| ==> (v in values.value[i] <==> FieldAllows(fields[i], v))
  {
    var all: seq<seq<int>> := [];
    for i := 0 to |fields|
      invariant |all| == i && forall j :: 0 <= j < i ==> FieldParses(fields[j])
      invariant forall j, v :: 0 <= j < i ==> (v in all[j] <==> FieldAllows(fields[j], v))
    {
      var parsed := ParseFieldValues(fields[i]);
      if parsed.None? {
        return None;
      }
      all := all + [parsed.value];
    }
    return Some(all);
  }

  /** A time strictly between two neighbouring minutes is not a whole minute. */
  lemma MinutesApart(t: int, u: int)
    requires t % MS_PER_MINUTE == 0 && t < u < t + MS_PER_MINUTE
    ensures u % MS_PER_MINUTE != 0
  {
    DivisionIsUnique(u, MS_PER_MINUTE, t / MS_PER_MINUTE, u - t);
  }

  lemma NothingBetweenMinutes(fields: seq<Field>, t: int)
    requires |fields| == 5 && t % MS_PER_MINUTE == 0
    ensures forall u :: t < u < t + MS_PER_MINUTE ==> !Fires(fields, u)
  {
    forall u | t < u < t + MS_PER_MINUTE
      ensures !Fires(fields, u)
    {
      MinutesApart(t, u);
    }
  }

  method NextCronFire(fields: seq<Field>, afterMs: int) returns (r: Option<int>)
    ensures IsNextFire(fields, afterMs, r)
  {
    if |fields| != 5 {
      return None;
    }
    var parsed := ParseAll(fields);
    if parsed.None? {
      return None;
    }
    var values := parsed.value;
    var cursor := (afterMs / MS_PER_MINUTE) * MS_PER_MINUTE + MS_PER_MINUTE;
    var limit := afterMs + SEARCH_WINDOW_MS;
    NothingBetweenMinutes(fields, cursor - MS_PER_MINUTE);
    while cursor < limit
      invariant cursor % MS_PER_MINUTE == 0 && afterMs < cursor
      invariant forall u :: afterMs < u < cursor ==> !Fires(fields, u)
      decreases limit - cursor
    {
      var date := DateOfDay(DayOf(cursor));
      if && date.month in values[3]
         && date.day in values[2]
         && WeekdayOf(cursor) in values[4]
         && HourOf(cursor) in values[1]
         && MinuteOf(cursor) in values[0]
      {
        return Some(cursor);
      }
      NothingBetweenMinutes(fields, cursor);
      cursor := cursor + MS_PER_MINUTE;
    }
    return None;
  }

  /** `computeNextRun`: whatever the schedule, a next run is strictly later. */
  method ComputeNextRun(schedule: Schedule, afterMs: int) returns (r: Option<int>)
    ensures r.Some? ==> afterMs < r.value
    ensures schedule.At? ==> (r.Some? <==> schedule.time.Some? && schedule.time.value > afterMs)
    ensures schedule.At? && r.Some? ==> r == schedule.time
    ensures schedule.Every? ==> r == (if schedule.ms.GetOr(0) == 0 then None else Some(afterMs + schedule.ms.value))
    ensures schedule.CronExpr? ==> IsNextFire(schedule.fields, afterMs, r)
  {
    match schedule
    case At(time) =>
      return if time.Some? && time.value > afterMs then time else None;
    case Every(ms) =>
      return if ms.GetOr(0) != 0 then Some(afterMs + ms.value) else None;
    case CronExpr(fields) =>
      r := NextCronFire(fields, afterMs);
  }

  // ----- Consequences -----

  /** Asking again before the next fire gives the same answer. */
  lemma NextFireIsStable(fields: seq<Field>, a: int, b: int, t: int)
    requires IsNextFire(fields, a, Some(t)) && a <= b < t
    ensures forall r :: IsNextFire(fields, b, r) <==> r == Some(t)
  {
    assert IsNextFire(fields, b, Some(t));
    forall r | IsNextFire(fields, b, r)
      ensures r == Some(t)
    {
    }
  }

  ghost predicate CallReturns(fields: seq<Field>, after: int, ts: seq<int>, i: nat)
    requires i < |ts|
  {
    IsNextFire(fields, if i == 0 then after else ts[i - 1], Some(ts[i]))
  }

  /** `ts` is what repeated calls return, each asked after the previous answer. */
  ghost predicate CallChain(fields: seq<Field>, after: int, ts: seq<int>) {
    forall i :: 0 <= i < |ts| ==> CallReturns(fields, after, ts, i)
  }

  /** Repeated calls list the firing minutes in order and skip none. */
  lemma {:induction false} CallsEnumerateFires(fields: seq<Field>, after: int, ts: seq<int>)
    requires |fields| == 5 && CallChain(fields, after, ts) && ts != []
    ensures forall t :: after < t <= ts[|ts| - 1] ==> (t in ts <==> Fires(fields, t))
    ensures forall i, j :: 0 <= i < j < |ts| ==> ts[i] < ts[j]
    ensures after < ts[0]
    decreases |ts|
  {
    var n := |ts|;
    assert CallReturns(fields, after, ts, n - 1);
    if n > 1 {
      var front := ts[..n - 1];
      forall i | 0 <= i < |front|
        ensures CallReturns(fields, after, front, i)
      {
        assert CallReturns(fields, after, ts, i);
      }
      CallsEnumerateFires(fields, after, front);
      assert ts == front + [ts[n - 1]];
      forall t | after < t <= ts[n - 1]
        ensures t in ts <==> Fires(fields, t)
      {
        assert t in ts <==> t in front || t == ts[n - 1];
      }
    }
  }

  /** When the calls stop, no minute fires in the 366 days after the last answer. */
  lemma CallsStopOnlyAtAGap(fields: seq<Field>, after: int, ts: seq<int>)
    requires |fields| == 5 && CallChain(fields, after, ts) && ts != []
    requires IsNextFire(fields, ts[|ts| - 1], None)
    ensures forall t :: after < t < ts[|ts| - 1] + 31_622_400_000 ==> (t in ts <==> Fires(fields, t))
  {
    CallsEnumerateFires(fields, after, ts);
    assert CallReturns(fields, after, ts, |ts| - 1);
  }

  const LEAP_DAY_MIDNIGHT: seq<Field> := [[Number(0)], [Number(0)], [Number(29)], [Number(2)], [Star]]

  /** An empty answer does not mean the expression is unparseable: asked on a February 29th for
      the next one, the search gives up. */
  lemma LeapDaySearchGivesUp(after: int)
    requires DateOfDay(DayOf(after)).month == 2 && DateOfDay(DayOf(after)).day == 29
    ensures Parses(LEAP_DAY_MIDNIGHT) && forall r :: IsNextFire(LEAP_DAY_MIDNIGHT, after, r) <==> r == None
  {
    LeapDayParses();
    forall u | after < u < after + SEARCH_WINDOW_MS
      ensures !Fires(LEAP_DAY_MIDNIGHT, u)
    {
      var k := DayOf(u) - DayOf(after);
      assert 0 <= k <= 366;
      if k == 0 {
        if HourOf(u) == 0 && MinuteOf(u) == 0 && u % MS_PER_MINUTE == 0 {
          MidnightStartsTheDay(u);
        } else if HourOf(u) != 0 {
          OnlyAllows(0, HourOf(u));
        } else if MinuteOf(u) != 0 {
          OnlyAllows(0, MinuteOf(u));
        }
      } else {
        NoLeapDayWithinAYear(DayOf(after), k);
        assert DayOf(after) + k == DayOf(u);
        OnlyAllows(29, DateOfDay(DayOf(u)).day);
        OnlyAllows(2, DateOfDay(DayOf(u)).month);
      }
    }
    assert IsNextFire(LEAP_DAY_MIDNIGHT, after, None);
    forall r | IsNextFire(LEAP_DAY_MIDNIGHT, after, r)
      ensures r == None
    {
    }
  }

  /** Weekdays at nine, asked on Friday 1970-01-02 at noon: the answer is Monday, not the weekend. */
  lemma WeekendIsSkipped()
    ensures
      var fields := [[Number(0)], [Number(9)], [Star], [Star], [Range(1, 5)]];
      IsNextFire(fields, 129_600_000, Some(378_000_000))
  {
    var fields := [[Number(0)], [Number(9)], [Star], [Star], [Range(1, 5)]];
    var monday := 378_000_000;
    FirstWeekday(monday);
    forall u | 129_600_000 < u < monday
      ensures !Fires(fields, u)
    {
      TimeParts(u);
      OnlyAllows(0, MinuteOf(u));
      OnlyAllows(9, HourOf(u));
      assert FieldAllows([Range(1, 5)], WeekdayOf(u)) ==> 1 <= WeekdayOf(u) <= 5;
    }
  }

  lemma FirstWeekday(t: int)
    requires t == 378_000_000
    ensures Fires([[Number(0)], [Number(9)], [Star], [Star], [Range(1, 5)]], t)
    ensures Parses([[Number(0)], [Number(9)], [Star], [Star], [Range(1, 5)]])
  {
    OnlyAllows(0, 0);
    OnlyAllows(9, 9);
    var date := DateOfDay(DayOf(t));
    assert 1 <= date.month <= 12 && 1 <= date.day <= 31;
    assert DayOf(t) == 4 && HourOf(t) == 9 && MinuteOf(t) == 0 && WeekdayOf(t) == 1;
    assert PartAllows([Star][0], date.day) && PartAllows([Star][0], date.month) && PartAllows([Range(1, 5)][0], 1);
    assert FieldAllows([Star], date.day) && FieldAllows([Star], date.month) && FieldAllows([Range(1, 5)], 1);
  }

  lemma OnlyAllows(n: int, v: int)
    ensures FieldAllows([Number(n)], v) <==> v == n
  {
    if v == n {
      assert PartAllows([Number(n)][0], v);
    }
  }

  lemma LeapDayParses()
    ensures Parses(LEAP_DAY_MIDNIGHT)
  {
    OnlyAllows(0, 0);
    OnlyAllows(29, 29);
    OnlyAllows(2, 2);
    assert PartAllows([Star][0], 0);
    assert FieldAllows([Star], 0);
  }

  lemma MidnightStartsTheDay(t: int)
    requires HourOf(t) == 0 && MinuteOf(t) == 0 && t % MS_PER_MINUTE == 0
    ensures t == DayOf(t) * MS_PER_DAY
  {
    assert t / MS_PER_HOUR == (t / MS_PER_MINUTE) / 60;
    assert t / MS_PER_DAY == (t / MS_PER_HOUR) / 24;
  }
}
