// Habit metrics (backend/src/lifeos/domain/habit_metrics.py): periods, streaks and day counts. A day is its
// proleptic ordinal, so day % 7 is 0 on Sundays.
module HabitMetrics {
  import opened Prelude

  datatype Outcome = Completed | Skipped | Partial

  datatype Habit = Habit(
    daily: bool, weekdays: seq<int>, target: int, start: int, end: Option<int>, pauses: seq<Pause>)

  datatype Span = Span(start: int, end: int)

  datatype Period = Period(start: int, end: int, completed: nat, required: int, inProgress: bool) {
    predicate Excluded() { required == 0 }

    predicate Met() { !Excluded() && completed >= required }

    // Neither extends nor breaks a streak.
    predicate Ignored() { Excluded() || (inProgress && !Met()) }
  }

  datatype Metrics = Metrics(
    periods: seq<Period>, current: nat, longest: nat, missed: nat, partials: nat, totalCompletions: nat)

  function WeekStart(day: int): int { day - (day + 6) % 7 }

  predicate ByDay(habit: Habit) { habit.daily && habit.target == 1 }

  predicate IsPaused(habit: Habit, day: int) { PausedOn(habit.pauses, day) }

  predicate IsScheduled(habit: Habit, day: int) {
    && habit.start <= day && (habit.end.None? || day <= habit.end.value) && !IsPaused(habit, day)
    && (habit.daily || SundayZero(day) in habit.weekdays)
  }

  function FirstDay(habit: Habit): int { if ByDay(habit) then habit.start else WeekStart(habit.start) }

  function Length(habit: Habit): nat { if ByDay(habit) then 1 else 7 }

  function SpansFrom(cursor: int, length: nat, asOf: int): seq<Span>
    requires length > 0
    decreases asOf - cursor
  {
    if cursor > asOf then []
    else [Span(cursor, cursor + length - 1)] + SpansFrom(cursor + length, length, asOf)
  }

  // `_periods`
  method Periods(habit: Habit, asOf: int) returns (spans: seq<Span>)
    ensures spans == SpansFrom(FirstDay(habit), Length(habit), asOf)
  {
    var cursor := if ByDay(habit) then habit.start else WeekStart(habit.start);
    var length := if ByDay(habit) then 1 else 7;
    spans := [];
    while cursor <= asOf
      invariant SpansFrom(FirstDay(habit), length, asOf) == spans + SpansFrom(cursor, length, asOf)
      decreases asOf - cursor
    {
      spans := spans + [Span(cursor, cursor + length - 1)];
      cursor := cursor + length;
    }
  }

  // Week periods start on a Monday and hold the habit's first day.
  lemma WeeksStartOnMonday(day: int)
    ensures WeekStart(day) <= day < WeekStart(day) + 7 && SundayZero(WeekStart(day)) == 1
  {
  }

  // The periods follow one another without a gap from the first day, and cover the current day with the last one.
  ghost predicate Tiles(spans: seq<Span>, first: int, length: nat, asOf: int) {
    && (spans == [] <==> first > asOf)
    && (spans != [] ==> spans[0].start == first && spans[|spans| - 1].end >= asOf)
    && (forall i :: 0 <= i < |spans| ==> spans[i].end == spans[i].start + length - 1 && spans[i].start <= asOf)
    && (forall i :: 0 < i < |spans| ==> spans[i].start == spans[i - 1].end + 1)
  }

  lemma {:induction false} SpansTile(cursor: int, length: nat, asOf: int)
    requires length > 0
    ensures Tiles(SpansFrom(cursor, length, asOf), cursor, length, asOf)
    decreases asOf - cursor
  {
    if cursor <= asOf {
      SpansTile(cursor + length, length, asOf);
      var rest := SpansFrom(cursor + length, length, asOf);
      var spans := SpansFrom(cursor, length, asOf);
      assert forall i :: 0 < i < |spans| ==> spans[i] == rest[i - 1];
    }
  }

  // ------------------------------------------------------------------ counting days

  // The days d with lo <= d < hi that `keep` accepts.
  function CountDays(lo: int, hi: int, keep: int -> bool): nat
    decreases hi - lo
  {
    if hi <= lo then 0 else CountDays(lo, hi - 1, keep) + if keep(hi - 1) then 1 else 0
  }

  lemma {:induction false} CountJoins(lo: int, mid: int, hi: int, keep: int -> bool)
    requires lo <= mid <= hi
    ensures CountDays(lo, hi, keep) == CountDays(lo, mid, keep) + CountDays(mid, hi, keep)
    decreases hi - mid
  {
    if mid < hi {
      CountJoins(lo, mid, hi - 1, keep);
    }
  }

  lemma {:induction false} CountNone(lo: int, hi: int, keep: int -> bool)
    requires forall d :: lo <= d < hi ==> !keep(d)
    ensures CountDays(lo, hi, keep) == 0
    decreases hi - lo
  {
    if lo < hi {
      CountNone(lo, hi - 1, keep);
    }
  }

  function Scheduled(habit: Habit): int -> bool {
    day => IsScheduled(habit, day)
  }

  function With(records: map<int, Outcome>, day: int, outcome: Outcome): bool {
    day in records && records[day] == outcome
  }

  function ScheduledWith(habit: Habit, records: map<int, Outcome>, outcome: Outcome): int -> bool {
    day => IsScheduled(habit, day) && With(records, day, outcome)
  }

  function CountsAsCompletion(habit: Habit, records: map<int, Outcome>, asOf: int): int -> bool {
    day => day <= asOf && !IsPaused(habit, day) && With(records, day, Completed)
  }

  function Missed(habit: Habit, records: map<int, Outcome>, asOf: int): int -> bool {
    day => day < asOf && IsScheduled(habit, day) && !With(records, day, Completed) && !With(records, day, Partial)
  }

  // ------------------------------------------------------------------ periods with their counts

  function StatOf(habit: Habit, records: map<int, Outcome>, asOf: int, span: Span): Period {
    Period(
      span.start, span.end,
      CountDays(span.start, span.end + 1, CountsAsCompletion(habit, records, asOf)),
      Min(habit.target, CountDays(span.start, span.end + 1, Scheduled(habit))),
      span.end >= asOf)
  }

  function Stats(habit: Habit, records: map<int, Outcome>, asOf: int, spans: seq<Span>): seq<Period> {
    seq(|spans|, i requires 0 <= i < |spans| => StatOf(habit, records, asOf, spans[i]))
  }

  function StatsOf(habit: Habit, records: map<int, Outcome>, asOf: int): seq<Period> {
    Stats(habit, records, asOf, SpansFrom(FirstDay(habit), Length(habit), asOf))
  }

  function MissedIn(periods: seq<Period>, habit: Habit, records: map<int, Outcome>, asOf: int): nat {
    if periods == [] then 0
    else
      CountDays(periods[0].start, periods[0].end + 1, Missed(habit, records, asOf))
      + MissedIn(periods[1..], habit, records, asOf)
  }

  function CompletedIn(periods: seq<Period>): nat {
    if periods == [] then 0 else periods[0].completed + CompletedIn(periods[1..])
  }

  // Only the last period can be the current one.
  lemma OnlyLastInProgress(habit: Habit, records: map<int, Outcome>, asOf: int, i: nat)
    requires i < |StatsOf(habit, records, asOf)|
    ensures StatsOf(habit, records, asOf)[i].inProgress <==> i == |StatsOf(habit, records, asOf)| - 1
  {
    var spans := SpansFrom(FirstDay(habit), Length(habit), asOf);
    SpansTile(FirstDay(habit), Length(habit), asOf);
    assert i + 1 < |spans| ==> spans[i + 1].start == spans[i].end + 1;
  }

  // ------------------------------------------------------------------ streaks

  // The forward counter after all periods, and the largest value it took.
  function FinalRun(periods: seq<Period>): nat {
    if periods == [] then 0
    else
      var last := periods[|periods| - 1];
      var before := FinalRun(periods[..|periods| - 1]);
      if last.Ignored() then before else if last.Met() then before + 1 else 0
  }

  function LongestRun(periods: seq<Period>): nat {
    if periods == [] then 0 else Max(LongestRun(periods[..|periods| - 1]), FinalRun(periods))
  }

  function Effective(periods: seq<Period>): seq<Period> {
    Filter(periods, (p: Period) => !p.Ignored())
  }

  lemma EffectiveNext(periods: seq<Period>, p: Period)
    ensures Effective(periods + [p]) == Effective(periods) + (if p.Ignored() then [] else [p])
  {
    FilterConcat(periods, [p], (q: Period) => !q.Ignored());
  }

  // The last `run` periods that matter were met, and the one before them (if any) was not.
  ghost predicate TrailingMet(effective: seq<Period>, run: nat) {
    && run <= |effective|
    && (forall i :: |effective| - run <= i < |effective| ==> effective[i].Met())
    && (run < |effective| ==> !effective[|effective| - 1 - run].Met())
  }

  ghost predicate AllMet(effective: seq<Period>, lo: int, hi: int)
    requires 0 <= lo <= hi <= |effective|
  {
    forall i :: lo <= i < hi ==> effective[i].Met()
  }

  // `longest` is the length of some stretch of consecutive met periods, and no stretch is longer.
  ghost predicate LongestMet(effective: seq<Period>, longest: nat) {
    && (exists lo, hi :: 0 <= lo <= hi <= |effective| && AllMet(effective, lo, hi) && hi - lo == longest)
    && (forall lo, hi :: 0 <= lo <= hi <= |effective| && AllMet(effective, lo, hi) ==> hi - lo <= longest)
  }

  lemma {:induction false} RunIsTrailing(periods: seq<Period>)
    ensures TrailingMet(Effective(periods), FinalRun(periods))
  {
    if periods != [] {
      var init, last := periods[..|periods| - 1], periods[|periods| - 1];
      RunIsTrailing(init);
      EffectiveNext(init, last);
      assert periods == init + [last];
    }
  }

  lemma LongestGrows(effective: seq<Period>, p: Period, longest: nat, run: nat)
    requires LongestMet(effective, longest) && TrailingMet(effective + [p], run)
    ensures LongestMet(effective + [p], Max(longest, run))
  {
    var longer := effective + [p];
    if longest >= run {
      var lo, hi :| 0 <= lo <= hi <= |effective| && AllMet(effective, lo, hi) && hi - lo == longest;
      assert AllMet(longer, lo, hi);
    } else {
      assert AllMet(longer, |longer| - run, |longer|);
    }
    forall lo, hi | 0 <= lo <= hi <= |longer| && AllMet(longer, lo, hi) ensures hi - lo <= Max(longest, run) {
      if hi <= |effective| {
        forall i | lo <= i < hi ensures effective[i].Met() {
          assert longer[i] == effective[i];
        }
        assert AllMet(effective, lo, hi);
      } else {
        assert run < |longer| ==> lo > |longer| - 1 - run;
      }
    }
  }

  lemma {:induction false} LongestIsExact(periods: seq<Period>)
    ensures LongestMet(Effective(periods), LongestRun(periods))
  {
    if periods == [] {
      assert AllMet(Effective(periods), 0, 0);
    } else {
      var init, last := periods[..|periods| - 1], periods[|periods| - 1];
      LongestIsExact(init);
      RunIsTrailing(init);
      RunIsTrailing(periods);
      EffectiveNext(init, last);
      assert periods == init + [last];
      if last.Ignored() {
        assert Effective(init) + [] == Effective(init);
        RunAtMostLongest(init);
      } else {
        LongestGrows(Effective(init), last, LongestRun(init), FinalRun(periods));
      }
    }
  }

  lemma RunAtMostLongest(periods: seq<Period>)
    ensures FinalRun(periods) <= LongestRun(periods)
  {
  }

  lemma TrailingAtMost(effective: seq<Period>, a: nat, b: nat)
    requires TrailingMet(effective, a)
    requires b < |effective| ==> !effective[|effective| - 1 - b].Met()
    ensures a <= b
  {
  }

  lemma TrailingIsUnique(effective: seq<Period>, a: nat, b: nat)
    requires TrailingMet(effective, a) && TrailingMet(effective, b)
    ensures a == b
  {
    TrailingAtMost(effective, a, b);
    TrailingAtMost(effective, b, a);
  }

  lemma LongestIsUnique(effective: seq<Period>, a: nat, b: nat)
    requires LongestMet(effective, a) && LongestMet(effective, b)
    ensures a == b
  {
    var i, j :| 0 <= i <= j <= |effective| && AllMet(effective, i, j) && j - i == a;
    var k, l :| 0 <= k <= l <= |effective| && AllMet(effective, k, l) && l - k == b;
  }

  // Streaks see only the periods that matter: inserting or deleting ignored ones changes neither.
  lemma StreaksSeeOnlyEffective(a: seq<Period>, b: seq<Period>)
    requires Effective(a) == Effective(b)
    ensures FinalRun(a) == FinalRun(b) && LongestRun(a) == LongestRun(b)
  {
    RunIsTrailing(a);
    RunIsTrailing(b);
    TrailingIsUnique(Effective(a), FinalRun(a), FinalRun(b));
    LongestIsExact(a);
    LongestIsExact(b);
    LongestIsUnique(Effective(a), LongestRun(a), LongestRun(b));
  }

  lemma ExcludedPeriodsDoNotMatter(before: seq<Period>, excluded: seq<Period>, after: seq<Period>)
    requires forall i :: 0 <= i < |excluded| ==> excluded[i].Excluded()
    ensures FinalRun(before + excluded + after) == FinalRun(before + after)
    ensures LongestRun(before + excluded + after) == LongestRun(before + after)
  {
    var keep := (p: Period) => !p.Ignored();
    FilterConcat(before + excluded, after, keep);
    FilterConcat(before, excluded, keep);
    FilterConcat(before, after, keep);
    FilterNone(excluded, keep);
    StreaksSeeOnlyEffective(before + excluded + after, before + after);
  }

  // ------------------------------------------------------------------ days over all periods

  lemma RestTiles(spans: seq<Span>, first: int, length: nat, asOf: int)
    requires length > 0 && Tiles(spans, first, length, asOf) && |spans| > 1
    ensures Tiles(spans[1..], first + length, length, asOf)
    ensures spans[1..][|spans| - 2] == spans[|spans| - 1]
    ensures spans[0].end + 1 == first + length <= asOf <= spans[|spans| - 1].end
  {
    var rest := spans[1..];
    assert rest[0].start == spans[0].end + 1;
    forall i | 0 < i < |rest| ensures rest[i].start == rest[i - 1].end + 1 {
      assert spans[i + 1].start == spans[i].end + 1;
    }
  }

  function OverSpans(spans: seq<Span>, keep: int -> bool): nat {
    if spans == [] then 0 else CountDays(spans[0].start, spans[0].end + 1, keep) + OverSpans(spans[1..], keep)
  }

  lemma {:induction false} PeriodSums(spans: seq<Span>, habit: Habit, records: map<int, Outcome>, asOf: int)
    ensures MissedIn(Stats(habit, records, asOf, spans), habit, records, asOf)
         == OverSpans(spans, Missed(habit, records, asOf))
    ensures CompletedIn(Stats(habit, records, asOf, spans))
         == OverSpans(spans, CountsAsCompletion(habit, records, asOf))
  {
    if spans != [] {
      PeriodSums(spans[1..], habit, records, asOf);
      assert Stats(habit, records, asOf, spans)[1..] == Stats(habit, records, asOf, spans[1..]);
    }
  }

  // Counting period by period counts every day of the covered stretch once.
  lemma {:induction false} OverTiles(spans: seq<Span>, first: int, length: nat, asOf: int, keep: int -> bool)
    requires length > 0 && Tiles(spans, first, length, asOf) && spans != []
    ensures OverSpans(spans, keep) == CountDays(first, spans[|spans| - 1].end + 1, keep)
  {
    if |spans| > 1 {
      RestTiles(spans, first, length, asOf);
      OverTiles(spans[1..], first + length, length, asOf, keep);
      CountJoins(first, first + length, spans[|spans| - 1].end + 1, keep);
    }
  }

  lemma CountCutsOff(lo: int, mid: int, hi: int, keep: int -> bool)
    requires mid <= hi && forall d :: mid <= d < hi ==> !keep(d)
    ensures CountDays(lo, hi, keep) == CountDays(lo, mid, keep)
  {
    if lo <= mid {
      CountJoins(lo, mid, hi, keep);
      CountNone(mid, hi, keep);
    } else {
      CountNone(lo, hi, keep);
    }
  }

  lemma CountStartsLater(lo: int, mid: int, hi: int, keep: int -> bool)
    requires lo <= mid && forall d :: lo <= d < mid ==> !keep(d)
    ensures CountDays(lo, hi, keep) == CountDays(mid, hi, keep)
  {
    if mid <= hi {
      CountJoins(lo, mid, hi, keep);
      CountNone(lo, mid, keep);
    } else {
      CountNone(lo, hi, keep);
    }
  }

  lemma MissedDays(habit: Habit, records: map<int, Outcome>, asOf: int, first: int, end: int)
    requires first <= habit.start && asOf <= end
    ensures CountDays(first, end, Missed(habit, records, asOf))
         == CountDays(habit.start, asOf, Missed(habit, records, asOf))
  {
    CountCutsOff(first, asOf, end, Missed(habit, records, asOf));
    CountStartsLater(first, habit.start, asOf, Missed(habit, records, asOf));
  }

  // However the days fall into periods, the missed days are the scheduled days before today without a completion or
  // a partial, and the total counts every unpaused completion from the first period's first day to today, once.
  lemma DaysAreCountedOnce(habit: Habit, records: map<int, Outcome>, asOf: int)
    ensures MissedIn(StatsOf(habit, records, asOf), habit, records, asOf)
         == CountDays(habit.start, asOf, Missed(habit, records, asOf))
    ensures CompletedIn(StatsOf(habit, records, asOf))
         == CountDays(FirstDay(habit), asOf + 1, CountsAsCompletion(habit, records, asOf))
  {
    var first, length := FirstDay(habit), Length(habit);
    var spans := SpansFrom(first, length, asOf);
    SpansTile(first, length, asOf);
    WeeksStartOnMonday(habit.start);
    if spans != [] {
      var end := spans[|spans| - 1].end + 1;
      PeriodSums(spans, habit, records, asOf);
      OverTiles(spans, first, length, asOf, Missed(habit, records, asOf));
      OverTiles(spans, first, length, asOf, CountsAsCompletion(habit, records, asOf));
      MissedDays(habit, records, asOf, first, end);
      CountCutsOff(first, asOf + 1, end, CountsAsCompletion(habit, records, asOf));
    }
  }

  // Every scheduled day before today is exactly one of completed, partial and missed.
  lemma {:induction false} FinishedDaysAreConserved(
    habit: Habit, records: map<int, Outcome>, asOf: int, lo: int, hi: int)
    requires hi <= asOf
    ensures CountDays(lo, hi, Scheduled(habit))
         == CountDays(lo, hi, ScheduledWith(habit, records, Completed))
          + CountDays(lo, hi, ScheduledWith(habit, records, Partial))
          + CountDays(lo, hi, Missed(habit, records, asOf))
    decreases hi - lo
  {
    if lo < hi {
      FinishedDaysAreConserved(habit, records, asOf, lo, hi - 1);
    }
  }

  // ------------------------------------------------------------------ what the counts are, day by day

  // The habit occurs on the day: within its dates, in no pause, daily or on one of its weekdays.
  ghost predicate OccursOn(habit: Habit, day: int) {
    && habit.start <= day && (habit.end.Some? ==> day <= habit.end.value) && !PausedThen(habit, day)
    && (habit.daily || day % 7 in habit.weekdays)
  }

  ghost predicate PausedThen(habit: Habit, day: int) {
    exists pause :: pause in habit.pauses && pause.first <= day && (pause.last.Some? ==> day <= pause.last.value)
  }

  lemma PauseMeans(habit: Habit, day: int)
    ensures IsPaused(habit, day) <==> PausedThen(habit, day)
  {
    if pause :| pause in habit.pauses && pause.first <= day && (pause.last.Some? ==> day <= pause.last.value) {
      var i :| 0 <= i < |habit.pauses| && habit.pauses[i] == pause;
    }
  }

  lemma OccurrenceMeans(habit: Habit, day: int)
    ensures IsScheduled(habit, day) <==> OccursOn(habit, day)
  {
    PauseMeans(habit, day);
  }

  lemma {:induction false} CountIsSize(lo: int, hi: int, keep: int -> bool, days: set<int>)
    requires forall d :: d in days <==> lo <= d < hi && keep(d)
    ensures CountDays(lo, hi, keep) == |days|
    decreases hi - lo
  {
    if lo < hi {
      var last := hi - 1;
      if keep(last) {
        CountIsSize(lo, last, keep, days - {last});
        assert days == (days - {last}) + {last};
      } else {
        CountIsSize(lo, last, keep, days);
      }
    } else {
      forall d ensures d !in days {}
      assert days == {};
    }
  }

  // A period's figures: the unpaused completions in it up to today, the target or the scheduled days if fewer, and
  // whether it still runs. It is met with at least one required and enough completed, and it does not count for a
  // streak with nothing required, or while it runs unmet.
  lemma PeriodExactly(
    habit: Habit, records: map<int, Outcome>, asOf: int, span: Span, done: set<int>, due: set<int>)
    requires forall d :: d in done <==>
               && span.start <= d <= span.end && d <= asOf && !PausedThen(habit, d)
               && d in records && records[d] == Completed
    requires forall d :: d in due <==> span.start <= d <= span.end && OccursOn(habit, d)
    ensures var p := StatOf(habit, records, asOf, span);
            && p == Period(span.start, span.end, |done|, if |due| < habit.target then |due| else habit.target,
                           asOf <= span.end)
            && (p.Met() <==> p.required != 0 && p.required <= |done|)
            && (p.Ignored() <==> p.required == 0 || (asOf <= span.end && |done| < p.required))
  {
    forall d { PauseMeans(habit, d); }
    forall d { OccurrenceMeans(habit, d); }
    CountIsSize(span.start, span.end + 1, CountsAsCompletion(habit, records, asOf), done);
    CountIsSize(span.start, span.end + 1, Scheduled(habit), due);
  }

  // Single days for a daily habit with a target of one, and otherwise weeks from the Monday on or before its first day.
  lemma SpansExactly(habit: Habit, asOf: int, monday: int)
    requires monday % 7 == 1 && monday <= habit.start < monday + 7
    ensures var spans := SpansFrom(FirstDay(habit), Length(habit), asOf);
            if habit.daily && habit.target == 1 then Tiles(spans, habit.start, 1, asOf)
            else Tiles(spans, monday, 7, asOf)
  {
    SpansTile(FirstDay(habit), Length(habit), asOf);
    assert WeekStart(habit.start) == monday;
  }

  // Over all periods: the days missed, and every unpaused completion from the first period on.
  lemma TotalsExactly(
    habit: Habit, records: map<int, Outcome>, asOf: int, missed: set<int>, done: set<int>)
    requires forall d :: d in missed <==>
               d < asOf && OccursOn(habit, d) && !(d in records && records[d] in {Completed, Partial})
               && habit.start <= d
    requires forall d :: d in done <==>
               FirstDay(habit) <= d <= asOf && !PausedThen(habit, d) && d in records && records[d] == Completed
    ensures MissedIn(StatsOf(habit, records, asOf), habit, records, asOf) == |missed|
    ensures CompletedIn(StatsOf(habit, records, asOf)) == |done|
  {
    forall d { PauseMeans(habit, d); }
    forall d { OccurrenceMeans(habit, d); }
    DaysAreCountedOnce(habit, records, asOf);
    CountIsSize(habit.start, asOf, Missed(habit, records, asOf), missed);
    CountIsSize(FirstDay(habit), asOf + 1, CountsAsCompletion(habit, records, asOf), done);
  }

  // The backward scan, which stops at the first unmet period that matters.
  method CurrentStreak(stats: seq<Period>) returns (current: nat)
    ensures current == FinalRun(stats) && TrailingMet(Effective(stats), current)
  {
    current := 0;
    var i := |stats|;
    assert stats[..i] == stats;
    while i > 0
      invariant 0 <= i <= |stats|
      invariant FinalRun(stats) == current + FinalRun(stats[..i])
    {
      assert stats[..i][..i - 1] == stats[..i - 1];
      i := i - 1;
      if stats[i].Ignored() {
        continue;
      }
      if !stats[i].Met() {
        break;
      }
      current := current + 1;
    }
    RunIsTrailing(stats);
  }

  // The forward scan.
  method LongestStreak(stats: seq<Period>) returns (longest: nat)
    ensures longest == LongestRun(stats) && LongestMet(Effective(stats), longest)
  {
    var run := 0;
    longest := 0;
    for k := 0 to |stats|
      invariant run == FinalRun(stats[..k]) && longest == LongestRun(stats[..k])
    {
      assert stats[..k + 1][..k] == stats[..k];
      RunAtMostLongest(stats[..k]);
      if stats[k].Ignored() {
        continue;
      }
      run := if stats[k].Met() then run + 1 else 0;
      longest := Max(longest, run);
    }
    assert stats[..|stats|] == stats;
    LongestIsExact(stats);
  }

  // `compute_metrics`
  method ComputeMetrics(habit: Habit, records: map<int, Outcome>, asOf: int) returns (m: Metrics)
    ensures m.periods == StatsOf(habit, records, asOf)
    ensures TrailingMet(Effective(m.periods), m.current)
    ensures LongestMet(Effective(m.periods), m.longest)
    ensures m.current == FinalRun(m.periods) && m.longest == LongestRun(m.periods)
    ensures m.current <= m.longest
    ensures CountDays(habit.start, asOf, Scheduled(habit))
         == CountDays(habit.start, asOf, ScheduledWith(habit, records, Completed))
          + CountDays(habit.start, asOf, ScheduledWith(habit, records, Partial))
          + m.missed
    ensures m.totalCompletions == CountDays(FirstDay(habit), asOf + 1, CountsAsCompletion(habit, records, asOf))
    ensures m.partials == |set d | d in records && records[d] == Partial && d <= asOf|
  {
    var spans := Periods(habit, asOf);
    var stats := Stats(habit, records, asOf, spans);

    var current := CurrentStreak(stats);
    var longest := LongestStreak(stats);
    RunAtMostLongest(stats);
    DaysAreCountedOnce(habit, records, asOf);
    FinishedDaysAreConserved(habit, records, asOf, habit.start, asOf);
    m := Metrics(stats, current, longest, MissedIn(stats, habit, records, asOf),
                 |set d | d in records && records[d] == Partial && d <= asOf|, CompletedIn(stats));
  }
}
