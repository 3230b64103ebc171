// The Accountability Engine (backend/src/lifeos/domain/accountability.py): escalation levels 3-5 of one recurring
// source (a habit or a routine entry).
// Dates are day numbers. `outcomes` maps each scheduled, non-paused local date to what happened on it.
module Escalation {
  import opened Prelude
  import opened Actions

  const WINDOW_DAYS := 7
  const LOOKBACK_DAYS := 60
  const CHALLENGE_SKIPS := 3
  const REFLECTION_SKIPS := 5
  const PATTERN_RUN := 5
  const RECOVERY_DAYS := 3

  datatype Outcome = Done | Missed | Unresolved

  type Outcomes = map<int, Outcome>

  // ---------------------------------------------------------------- day outcomes

  // What one date amounts to, whatever order its occurrences were read in.
  function BestOf(day: int, occurrences: seq<(int, Status)>): Outcome {
    if (day, Completed) in occurrences then Done
    else if (day, Skipped) in occurrences then Missed
    else Unresolved
  }

  function OutcomesOf(occurrences: seq<(int, Status)>, pauses: seq<Pause>): Outcomes {
    map i | 0 <= i < |occurrences| && !PausedOn(pauses, occurrences[i].0)
      :: occurrences[i].0 := BestOf(occurrences[i].0, occurrences)
  }

  // One more occurrence: Completed beats Skipped, which beats unresolved.
  function Combine(current: Outcome, status: Status): Outcome {
    if status == Completed || current == Done then Done
    else if status == Skipped || current == Missed then Missed
    else Unresolved
  }

  lemma BestOfSnoc(d: int, prefix: seq<(int, Status)>, day: int, status: Status)
    ensures BestOf(d, prefix + [(day, status)])
         == if d == day then Combine(BestOf(d, prefix), status) else BestOf(d, prefix)
  {
    var longer := prefix + [(day, status)];
    assert longer[|prefix|] == (day, status);
    assert forall s :: (d, s) in longer <==> (d, s) in prefix || (d == day && s == status);
  }

  lemma OutcomesSnoc(prefix: seq<(int, Status)>, day: int, status: Status, pauses: seq<Pause>)
    ensures OutcomesOf(prefix + [(day, status)], pauses)
         == (var before := OutcomesOf(prefix, pauses);
             if PausedOn(pauses, day) then before
             else before[day := Combine(if day in before then before[day] else Unresolved, status)])
  {
    var before, longer := OutcomesOf(prefix, pauses), prefix + [(day, status)];
    var after := OutcomesOf(longer, pauses);
    DatesSnoc(prefix, day, status, pauses);
    forall d | d in after ensures after[d] == BestOf(d, longer) {}
    forall d | d in before ensures before[d] == BestOf(d, prefix) {}
    forall d ensures BestOf(d, longer) == if d == day then Combine(BestOf(d, prefix), status) else BestOf(d, prefix) {
      BestOfSnoc(d, prefix, day, status);
    }
  }

  lemma DatesSnoc(prefix: seq<(int, Status)>, day: int, status: Status, pauses: seq<Pause>)
    ensures forall d :: d in OutcomesOf(prefix + [(day, status)], pauses) <==>
                          d in OutcomesOf(prefix, pauses) || (d == day && !PausedOn(pauses, day))
    ensures day !in OutcomesOf(prefix, pauses) && !PausedOn(pauses, day) ==> BestOf(day, prefix) == Unresolved
  {
    var before, longer := OutcomesOf(prefix, pauses), prefix + [(day, status)];
    assert longer[|prefix|] == (day, status);
    assert forall i :: 0 <= i < |prefix| ==> longer[i] == prefix[i];
    forall d ensures d in OutcomesOf(longer, pauses) <==> d in before || (d == day && !PausedOn(pauses, day)) {
      if d in before {
        var i :| 0 <= i < |prefix| && prefix[i].0 == d && !PausedOn(pauses, prefix[i].0);
        assert longer[i].0 == d;
      }
      if d == day && !PausedOn(pauses, day) {
        assert longer[|prefix|].0 == d;
      }
    }
  }

  method DayOutcomes(occurrences: seq<(int, Status)>, pauses: seq<Pause>) returns (outcomes: Outcomes)
    ensures outcomes == OutcomesOf(occurrences, pauses)
  {
    outcomes := map[];
    for i := 0 to |occurrences|
      invariant outcomes == OutcomesOf(occurrences[..i], pauses)
    {
      var (day, status) := occurrences[i];
      OutcomesSnoc(occurrences[..i], day, status, pauses);
      assert occurrences[..i + 1] == occurrences[..i] + [(day, status)];
      if !PausedOn(pauses, day) {
        var current := if day in outcomes then outcomes[day] else Unresolved;
        if status == Completed || current == Done {
          outcomes := outcomes[day := Done];
        } else if status == Skipped || current == Missed {
          outcomes := outcomes[day := Missed];
        } else {
          outcomes := outcomes[day := Unresolved];
        }
      }
    }
    assert occurrences[..|occurrences|] == occurrences;
  }

  // ---------------------------------------------------------------- skip patterns

  // The skips that no completion follows: the run of Skipped resolved dates ending at the latest resolved one.
  function TrailingSkips(outcomes: Outcomes): set<int> {
    set d | d in outcomes && outcomes[d] == Missed
            && (forall e | e in outcomes :: outcomes[e] == Done ==> e < d)
  }

  method SortedDescending(days: set<int>) returns (q: seq<int>)
    ensures forall d :: d in q <==> d in days
    ensures forall i, j :: 0 <= i < j < |q| ==> q[i] > q[j]
  {
    var rest := days;
    q := [];
    while rest != {}
      invariant forall d :: d in days <==> d in rest || d in q
      invariant forall i, d :: 0 <= i < |q| && d in rest ==> q[i] > d
      invariant forall i, j :: 0 <= i < j < |q| ==> q[i] > q[j]
      decreases |rest|
    {
      var d := MaxOf(rest);
      rest, q := rest - {d}, q + [d];
    }
  }

  ghost predicate ResolvedDescending(outcomes: Outcomes, resolved: seq<int>) {
    && (forall d :: d in resolved <==> d in outcomes && outcomes[d] != Unresolved)
    && (forall i, j :: 0 <= i < j < |resolved| ==> resolved[i] > resolved[j])
  }

  // The run is the longest all-Skipped prefix of the resolved dates, latest first.
  lemma TrailingIsPrefix(outcomes: Outcomes, resolved: seq<int>, run: nat)
    requires ResolvedDescending(outcomes, resolved) && run <= |resolved|
    requires forall d :: d in resolved[..run] ==> d in outcomes && outcomes[d] == Missed
    requires run < |resolved| ==> resolved[run] in outcomes && outcomes[resolved[run]] == Done
    ensures TrailingSkips(outcomes) == Elements(resolved[..run])
    ensures |TrailingSkips(outcomes)| == run
  {
    assert forall i :: 0 <= i < run ==> resolved[i] in resolved[..run];
    forall d | d in resolved[..run] ensures d in TrailingSkips(outcomes) {
      var k :| 0 <= k < run && resolved[k] == d;
      forall e | e in outcomes && outcomes[e] == Done ensures e < d {
        assert e in resolved;
        var j :| 0 <= j < |resolved| && resolved[j] == e;
      }
    }
    forall d | d in TrailingSkips(outcomes) ensures d in resolved[..run] {
      assert d in resolved;
      var k :| 0 <= k < |resolved| && resolved[k] == d;
      assert k < run;
      assert resolved[..run][k] == d;
    }
    DistinctSize(resolved[..run]);
  }

  method TrailingSkipRun(outcomes: Outcomes) returns (run: nat, latest: Option<int>)
    ensures run == |TrailingSkips(outcomes)|
    ensures latest.Some? <==> run > 0
    ensures latest.Some? ==> latest.value in TrailingSkips(outcomes)
    ensures latest.Some? ==> forall d :: d in TrailingSkips(outcomes) ==> d <= latest.value
  {
    var resolved := SortedDescending(set d | d in outcomes && outcomes[d] != Unresolved);
    assert ResolvedDescending(outcomes, resolved);
    assert forall k :: 0 <= k < |resolved| ==> resolved[k] in resolved;
    run := 0;
    while run < |resolved| && outcomes[resolved[run]] == Missed
      invariant run <= |resolved|
      invariant forall d :: d in resolved[..run] ==> d in outcomes && outcomes[d] == Missed
    {
      assert resolved[..run + 1] == resolved[..run] + [resolved[run]];
      run := run + 1;
    }
    TrailingIsPrefix(outcomes, resolved, run);
    latest := if run > 0 then Some(resolved[0]) else None;
    assert run > 0 ==> resolved[..run][0] == resolved[0];
  }

  function WindowStart(today: int): int { today - (WINDOW_DAYS - 1) }

  predicate After(day: int, since: Option<int>) { since.None? || day > since.value }

  function Considered(outcomes: Outcomes, today: int, since: Option<int>): Outcomes {
    map d | d in outcomes && d <= today && After(d, since) :: outcomes[d]
  }

  function WindowSkips(considered: Outcomes, today: int): set<int> {
    set d | d in considered && considered[d] == Missed && d >= WindowStart(today)
  }

  // The source level implied by the skips on or before `today` and after the recovery anchor.
  function PatternLevel(outcomes: Outcomes, today: int, since: Option<int>): int {
    var considered := Considered(outcomes, today, since);
    var run := TrailingSkips(considered);
    var skips := |WindowSkips(considered, today)|;
    if |run| >= PATTERN_RUN && exists d | d in run :: d >= WindowStart(today) then 5
    else if skips >= REFLECTION_SKIPS then 4
    else if skips >= CHALLENGE_SKIPS then 3
    else 1
  }

  method ComputePatternLevel(outcomes: Outcomes, today: int, since: Option<int>) returns (level: int)
    ensures level == PatternLevel(outcomes, today, since)
  {
    var considered := Considered(outcomes, today, since);
    var skipDays := |WindowSkips(considered, today)|;
    var run, latest := TrailingSkipRun(considered);
    if run >= PATTERN_RUN && latest.Some? && latest.value >= WindowStart(today) {
      return 5;
    }
    if skipDays >= REFLECTION_SKIPS {
      return 4;
    }
    if skipDays >= CHALLENGE_SKIPS {
      return 3;
    }
    return 1;
  }

  function RecoveryDates(outcomes: Outcomes, today: int, since: Option<int>): set<int> {
    set d | d in outcomes && outcomes[d] == Done && WindowStart(today) <= d <= today && After(d, since)
  }

  // ---------------------------------------------------------------- the state machine

  datatype SourceState = SourceState(level: int, required: bool, done: bool, anchor: Option<int>)

  const BASELINE := SourceState(1, false, false, None)

  datatype Evaluation = Evaluation(level: int, required: bool, anchor: Option<int>, newEpisode: bool, reduced: bool)

  // Escalation wins over recovery; a pending reflection blocks recovery; recovery lowers the level by one.
  function Evaluate(state: SourceState, outcomes: Outcomes, today: int): Evaluation {
    var pattern := PatternLevel(outcomes, today, state.anchor);
    var completions := RecoveryDates(outcomes, today, state.anchor);
    if pattern > state.level then
      var newEpisode := state.level == 1;
      var done := state.done && !newEpisode;
      Evaluation(pattern, state.required || (pattern >= 4 && !done), state.anchor, newEpisode, false)
    else if state.level == 1 || state.required || |completions| < RECOVERY_DAYS then
      Evaluation(state.level, state.required, state.anchor, false, false)
    else
      Evaluation(state.level - 1, false, Some(MaxOf(completions)), false, true)
  }

  // The row after the decision has been written back and read again.
  function Written(state: SourceState, decision: Evaluation): SourceState {
    SourceState(decision.level, decision.required, state.done && !decision.newEpisode, decision.anchor)
  }

  function Step(state: SourceState, outcomes: Outcomes, today: int): SourceState {
    Written(state, Evaluate(state, outcomes, today))
  }

  // ---------------------------------------------------------------- convergence for fixed outcomes and today

  predicate NoLater(a: Option<int>, b: Option<int>) {
    a.None? || (b.Some? && a.value <= b.value)
  }

  lemma PatternAntitone(outcomes: Outcomes, today: int, a: Option<int>, b: Option<int>)
    requires NoLater(a, b)
    ensures PatternLevel(outcomes, today, b) <= PatternLevel(outcomes, today, a)
  {
    var early, late := Considered(outcomes, today, a), Considered(outcomes, today, b);
    assert TrailingSkips(late) <= TrailingSkips(early);
    assert WindowSkips(late, today) <= WindowSkips(early, today);
    SubsetSize(TrailingSkips(late), TrailingSkips(early));
    SubsetSize(WindowSkips(late, today), WindowSkips(early, today));
  }

  // Three completion dates in a seven-day window leave at most four days after the last of them.
  lemma SkipsAfterRecovery(outcomes: Outcomes, today: int, since: Option<int>)
    requires |RecoveryDates(outcomes, today, since)| >= RECOVERY_DAYS
    ensures PatternLevel(outcomes, today, Some(MaxOf(RecoveryDates(outcomes, today, since)))) <= 3
    ensures RecoveryDates(outcomes, today, Some(MaxOf(RecoveryDates(outcomes, today, since)))) == {}
    ensures NoLater(since, Some(MaxOf(RecoveryDates(outcomes, today, since))))
  {
    var used := RecoveryDates(outcomes, today, since);
    var last := MaxOf(used);
    SubsetSize(used, Range(WindowStart(today), last + 1));
    var considered := Considered(outcomes, today, Some(last));
    SubsetSize(TrailingSkips(considered), Range(last + 1, today + 1));
    SubsetSize(WindowSkips(considered, today), Range(last + 1, today + 1));
  }

  function Iterate(state: SourceState, outcomes: Outcomes, today: int, n: nat): SourceState {
    if n == 0 then state else Step(Iterate(state, outcomes, today, n - 1), outcomes, today)
  }

  predicate Reduces(state: SourceState, outcomes: Outcomes, today: int) {
    Evaluate(state, outcomes, today).reduced
  }

  function Reductions(state: SourceState, outcomes: Outcomes, today: int, n: nat): nat {
    if n == 0 then 0
    else Reductions(state, outcomes, today, n - 1)
         + if Reduces(Iterate(state, outcomes, today, n - 1), outcomes, today) then 1 else 0
  }

  // After a reduction nothing but one re-escalation, from 2 back to 3, can follow, and then nothing at all.
  lemma AfterReduction(state: SourceState, outcomes: Outcomes, today: int)
    requires Reduces(state, outcomes, today)
    ensures var next := Step(state, outcomes, today);
            && PatternLevel(outcomes, today, next.anchor) <= 3
            && !Reduces(next, outcomes, today)
            && (PatternLevel(outcomes, today, next.anchor) > next.level ==>
                  next.level == 2 && Step(next, outcomes, today) == next.(level := 3))
            && Step(Step(next, outcomes, today), outcomes, today) == Step(next, outcomes, today)
            && !Reduces(Step(next, outcomes, today), outcomes, today)
  {
    SkipsAfterRecovery(outcomes, today, state.anchor);
    var next := Step(state, outcomes, today);
    PatternAntitone(outcomes, today, state.anchor, next.anchor);
  }

  lemma AfterEscalation(state: SourceState, outcomes: Outcomes, today: int)
    requires PatternLevel(outcomes, today, state.anchor) > state.level
    ensures var next := Step(state, outcomes, today);
            next.anchor == state.anchor && next.level == PatternLevel(outcomes, today, next.anchor)
  {
  }

  lemma {:induction false} FixpointStays(state: SourceState, outcomes: Outcomes, today: int, n: nat, m: nat)
    requires n <= m && Step(Iterate(state, outcomes, today, n), outcomes, today) == Iterate(state, outcomes, today, n)
    requires !Reduces(Iterate(state, outcomes, today, n), outcomes, today)
    ensures Iterate(state, outcomes, today, m) == Iterate(state, outcomes, today, n)
    ensures Reductions(state, outcomes, today, m) == Reductions(state, outcomes, today, n)
    decreases m
  {
    if n < m {
      FixpointStays(state, outcomes, today, n, m - 1);
    }
  }

  lemma ThreeSteps(state: SourceState, outcomes: Outcomes, today: int)
    ensures var last := Iterate(state, outcomes, today, 3);
            Step(last, outcomes, today) == last && !Reduces(last, outcomes, today)
    ensures Reductions(state, outcomes, today, 3) <= 1
  {
    var s0 := state;
    var s1 := Step(s0, outcomes, today);
    var s2 := Step(s1, outcomes, today);
    var s3 := Step(s2, outcomes, today);
    assert Iterate(state, outcomes, today, 0) == s0;
    assert Iterate(state, outcomes, today, 1) == s1;
    assert Iterate(state, outcomes, today, 2) == s2;
    assert Iterate(state, outcomes, today, 3) == s3;
    assert Reductions(state, outcomes, today, 1) == if Reduces(s0, outcomes, today) then 1 else 0;
    assert Reductions(state, outcomes, today, 2)
        == Reductions(state, outcomes, today, 1) + if Reduces(s1, outcomes, today) then 1 else 0;
    if Reduces(s0, outcomes, today) {
      AfterReduction(s0, outcomes, today);
    } else if Reduces(s1, outcomes, today) {
      AfterReduction(s1, outcomes, today);
    } else if PatternLevel(outcomes, today, s0.anchor) > s0.level {
      AfterEscalation(s0, outcomes, today);
      assert s2 == s1;
    } else {
      assert s1 == s0;
    }
  }

  // Whatever state evaluation starts from, it changes the state at most three times, reduces at most once,
  // and is then at a fixpoint for good.
  lemma Converges(state: SourceState, outcomes: Outcomes, today: int, n: nat)
    ensures n >= 3 ==> Iterate(state, outcomes, today, n) == Iterate(state, outcomes, today, 3)
    ensures Reductions(state, outcomes, today, n) <= 1
  {
    ThreeSteps(state, outcomes, today);
    if n >= 3 {
      FixpointStays(state, outcomes, today, 3, n);
    } else {
      ReductionsGrow(state, outcomes, today, n, 3);
    }
  }

  lemma {:induction false} ReductionsGrow(state: SourceState, outcomes: Outcomes, today: int, n: nat, m: nat)
    requires n <= m
    ensures Reductions(state, outcomes, today, n) <= Reductions(state, outcomes, today, m)
    decreases m
  {
    if n < m {
      ReductionsGrow(state, outcomes, today, n, m - 1);
    }
  }

  // Evaluating twice changes nothing the second time, except in two cases a caller can see beforehand:
  // an ungated escalation that leaves enough recovery dates behind, or a reduction from level 3 with
  // three skips after the last recovery date.
  lemma IdempotentExactly(state: SourceState, outcomes: Outcomes, today: int)
    requires 1 <= state.level <= 5
    ensures
      var pattern := PatternLevel(outcomes, today, state.anchor);
      var completions := RecoveryDates(outcomes, today, state.anchor);
      var gated := state.required || (pattern >= 4 && (state.level == 1 || !state.done));
      var once := Step(state, outcomes, today);
      Step(once, outcomes, today) != once <==>
        && |completions| >= RECOVERY_DAYS
        && (if pattern > state.level then !gated
            else state.level == 3 && !state.required
                 && |WindowSkips(Considered(outcomes, today, Some(MaxOf(completions))), today)| >= CHALLENGE_SKIPS)
  {
    if Reduces(state, outcomes, today) {
      AfterReduction(state, outcomes, today);
      SkipsAfterRecovery(outcomes, today, state.anchor);
    }
  }

  // The one-step idempotence the module comment promises fails on three skips and three completions
  // alternating within a week: the first evaluation raises the source to 3, the second lowers it to 2.
  lemma AlternatingWeekIsNotIdempotent()
    ensures var week := map[1 := Missed, 2 := Done, 3 := Missed, 4 := Done, 5 := Missed, 6 := Done];
            && Step(BASELINE, week, 7).level == 3
            && Step(Step(BASELINE, week, 7), week, 7).level == 2
  {
    var week := map[1 := Missed, 2 := Done, 3 := Missed, 4 := Done, 5 := Missed, 6 := Done];
    var considered := Considered(week, 7, None);
    assert considered == week;
    assert TrailingSkips(week) == {} by {
      assert 6 in week && week[6] == Done;
    }
    assert WindowStart(7) == 1;
    assert WindowSkips(week, 7) == {1, 3, 5} by {
      forall d ensures d in WindowSkips(week, 7) <==> d in {1, 3, 5} {}
    }
    assert RecoveryDates(week, 7, None) == {2, 4, 6};
  }

  // ---------------------------------------------------------------- all runs of one source

  // A source with its whole past: the episodes that had a reflection and the completion dates each
  // reduction used up. `persisted` is false until the source first reaches level 3.
  datatype Source = Source(
    persisted: bool, state: SourceState, episode: nat, nextEpisode: nat,
    reflections: seq<nat>, paid: seq<set<int>>)

  const FRESH := Source(false, BASELINE, 0, 1, [], [])

  datatype Op =
    | Evaluated(outcomes: Outcomes, today: int)
    | Reflected(outcomes: Outcomes, today: int)

  function AfterEvaluation(e: Source, outcomes: Outcomes, today: int): Source {
    AfterDecision(e, Evaluate(e.state, outcomes, today), RecoveryDates(outcomes, today, e.state.anchor))
  }

  function AfterDecision(e: Source, decision: Evaluation, completions: set<int>): Source {
    if !e.persisted && decision.level < 3 then e
    else e.(
      persisted := true,
      state := Written(e.state, decision),
      episode := if decision.newEpisode then e.nextEpisode else e.episode,
      nextEpisode := if decision.newEpisode then e.nextEpisode + 1 else e.nextEpisode,
      paid := if decision.reduced then e.paid + [completions] else e.paid)
  }

  // An accepted reflection opens the gate and is evaluated in the same transaction; any other is refused.
  function Next(e: Source, op: Op): Source {
    match op
    case Evaluated(outcomes, today) => AfterEvaluation(e, outcomes, today)
    case Reflected(outcomes, today) =>
      if !e.persisted || !e.state.required then e
      else AfterEvaluation(
        e.(state := e.state.(required := false, done := true), reflections := e.reflections + [e.episode]),
        outcomes, today)
  }

  function Run(e: Source, ops: seq<Op>): Source {
    if ops == [] then e else Next(Run(e, ops[..|ops| - 1]), ops[|ops| - 1])
  }

  ghost predicate GateInvariant(e: Source) {
    && 1 <= e.state.level <= 5
    && (!e.persisted ==> e.state == BASELINE)
    && (e.state.required ==> e.state.level >= 4)
    && (e.state.level >= 4 ==> e.state.required != e.state.done)
    && (e.state.required ==> !e.state.done)
  }

  ghost predicate ReflectionInvariant(e: Source) {
    && e.episode < e.nextEpisode
    && (forall i :: 0 <= i < |e.reflections| ==> e.reflections[i] < e.nextEpisode)
    && (e.state.done <==> e.episode in e.reflections)
    && Distinct(e.reflections)
  }

  ghost predicate PaidInvariant(e: Source) {
    && (e.paid != [] ==> e.state.anchor.Some?)
    && (forall i, d :: 0 <= i < |e.paid| && d in e.paid[i] ==> d <= e.state.anchor.value)
    && (forall i :: 0 <= i < |e.paid| ==> |e.paid[i]| >= RECOVERY_DAYS)
    && (forall i, j :: 0 <= i < j < |e.paid| ==> e.paid[i] !! e.paid[j])
  }

  ghost predicate Invariant(e: Source) {
    GateInvariant(e) && ReflectionInvariant(e) && PaidInvariant(e)
  }

  lemma EvaluationKeepsReflections(e: Source, outcomes: Outcomes, today: int)
    requires GateInvariant(e) && ReflectionInvariant(e)
    ensures ReflectionInvariant(AfterEvaluation(e, outcomes, today))
  {
  }

  lemma EvaluationKeepsPaid(e: Source, outcomes: Outcomes, today: int)
    requires PaidInvariant(e)
    ensures PaidInvariant(AfterEvaluation(e, outcomes, today))
  {
    var after := AfterEvaluation(e, outcomes, today);
    if after.paid != e.paid {
      var used := RecoveryDates(outcomes, today, e.state.anchor);
      forall i | 0 <= i < |e.paid| ensures e.paid[i] !! used {
        assert forall d :: d in e.paid[i] ==> d !in used;
      }
    }
  }

  lemma NextKeepsInvariant(e: Source, op: Op)
    requires Invariant(e)
    ensures Invariant(Next(e, op))
  {
    var from := e;
    if op.Reflected? && e.persisted && e.state.required {
      from := e.(state := e.state.(required := false, done := true), reflections := e.reflections + [e.episode]);
    }
    if op.Evaluated? || from != e {
      EvaluationKeepsReflections(from, op.outcomes, op.today);
      EvaluationKeepsPaid(from, op.outcomes, op.today);
    }
  }

  // Over every run: the level stays in 1..5, a pending reflection means level 4 or 5, level 4 or 5 means
  // exactly one of pending and done, and no episode accepts two reflections.
  lemma {:induction false} RunKeepsInvariant(ops: seq<Op>)
    ensures Invariant(Run(FRESH, ops))
  {
    if ops != [] {
      RunKeepsInvariant(ops[..|ops| - 1]);
      NextKeepsInvariant(Run(FRESH, ops[..|ops| - 1]), ops[|ops| - 1]);
    }
  }

  // Whichever operation lowers the level, an evaluation or the one an accepted reflection runs in the same step: it
  // falls by exactly one; an evaluation does so only ungated, a reflection only by taking the pending gate down; and
  // the anchor moves strictly forward to a completion no earlier reduction used.
  lemma ReductionIsPaidFor(ops: seq<Op>, op: Op)
    ensures
      var e := Run(FRESH, ops);
      var after := Next(e, op);
      after.state.level < e.state.level ==>
        && after.state.level == e.state.level - 1
        && (op.Evaluated? ==> !e.state.required && after.reflections == e.reflections)
        && (op.Reflected? ==> e.state.required && after.reflections == e.reflections + [e.episode])
        && !after.state.required
        && after.state.anchor.Some? && After(after.state.anchor.value, e.state.anchor)
        && |after.paid| == |e.paid| + 1
        && after.state.anchor.value in after.paid[|e.paid|]
        && (forall i :: 0 <= i < |e.paid| ==> after.paid[|e.paid|] !! e.paid[i])
  {
    RunKeepsInvariant(ops);
    RunKeepsInvariant(ops + [op]);
    assert (ops + [op])[..|ops|] == ops;
  }

  function Union(sets: seq<set<int>>): set<int> {
    if sets == [] then {} else Union(sets[..|sets| - 1]) + sets[|sets| - 1]
  }

  lemma {:induction false} InUnion(sets: seq<set<int>>, d: int)
    requires d in Union(sets)
    ensures exists i :: 0 <= i < |sets| && d in sets[i]
  {
    if d !in sets[|sets| - 1] {
      InUnion(sets[..|sets| - 1], d);
    }
  }

  lemma {:induction false} DisjointUnionSize(sets: seq<set<int>>)
    requires forall i :: 0 <= i < |sets| ==> |sets[i]| >= RECOVERY_DAYS
    requires forall i, j :: 0 <= i < j < |sets| ==> sets[i] !! sets[j]
    ensures |Union(sets)| >= RECOVERY_DAYS * |sets|
  {
    if sets != [] {
      var init, last := sets[..|sets| - 1], sets[|sets| - 1];
      DisjointUnionSize(init);
      forall d | d in Union(init) ensures d !in last {
        InUnion(init, d);
        var i :| 0 <= i < |init| && d in init[i];
        assert sets[i] !! sets[|sets| - 1];
      }
      assert Union(init) !! last;
    }
  }

  // k reductions over any run have used at least 3k distinct completion dates.
  lemma ReductionsUseDistinctDates(ops: seq<Op>)
    ensures var paid := Run(FRESH, ops).paid; |Union(paid)| >= RECOVERY_DAYS * |paid|
  {
    RunKeepsInvariant(ops);
    DisjointUnionSize(Run(FRESH, ops).paid);
  }

  // ---------------------------------------------------------------- exactly when, and with what effect

  // The dates through today, after the recovery anchor, that came out that way.
  ghost predicate CameOut(outcomes: Outcomes, today: int, since: Option<int>, d: int, outcome: Outcome) {
    d in outcomes && outcomes[d] == outcome && d <= today && (since.Some? ==> since.value < d)
  }

  ghost function OfTheWeek(outcomes: Outcomes, today: int, since: Option<int>, outcome: Outcome): set<int> {
    set d | d in outcomes && CameOut(outcomes, today, since, d, outcome) && today - 7 < d
  }

  // The skipped dates with no completed date after them.
  ghost function Unanswered(outcomes: Outcomes, today: int, since: Option<int>): set<int> {
    set d | d in outcomes && CameOut(outcomes, today, since, d, Missed)
            && !exists e :: CameOut(outcomes, today, since, e, Done) && d <= e
  }

  // Level 5 for five unanswered skips reaching into the last seven days, otherwise 4 for five skips and 3 for three
  // within the last seven days, otherwise 1.
  lemma LevelExactly(outcomes: Outcomes, today: int, since: Option<int>)
    ensures var unanswered := Unanswered(outcomes, today, since);
            var skips := |OfTheWeek(outcomes, today, since, Missed)|;
            PatternLevel(outcomes, today, since) ==
              if |unanswered| >= 5 && exists d :: d in unanswered && today - 7 < d then 5
              else if skips >= 5 then 4 else if skips >= 3 then 3 else 1
  {
    var considered := Considered(outcomes, today, since);
    forall d, outcome
      ensures CameOut(outcomes, today, since, d, outcome) <==> d in considered && considered[d] == outcome
    {}
    forall d
      ensures d in TrailingSkips(considered) <==> d in Unanswered(outcomes, today, since)
      ensures d in WindowSkips(considered, today) <==> d in OfTheWeek(outcomes, today, since, Missed)
    {
      if d in Unanswered(outcomes, today, since) {
        forall e | e in considered && considered[e] == Done ensures e < d {
          assert CameOut(outcomes, today, since, e, Done);
        }
      }
    }
    assert TrailingSkips(considered) == Unanswered(outcomes, today, since);
    assert WindowSkips(considered, today) == OfTheWeek(outcomes, today, since, Missed);
  }

  // What an evaluation does with a source: nothing while it has no row and stays below level 3. Otherwise it rises to
  // the pattern level, a first rise opening a new episode and level 4 or 5 asking for a reflection unless this episode
  // has had one; or, with three completed dates in the last seven days after the anchor and nothing pending, it falls
  // by one and the latest of them becomes the anchor, and they are used up; or it stays.
  ghost predicate EvaluatedFrom(e: Source, after: Source, outcomes: Outcomes, today: int) {
    var pattern := PatternLevel(outcomes, today, e.state.anchor);
    var recovered := OfTheWeek(outcomes, today, e.state.anchor, Done);
    var s := e.state;
    if pattern > s.level then
      var first := s.level == 1;
      var done := s.done && !first;
      if !e.persisted && pattern < 3 then after == e
      else after == Source(true, SourceState(pattern, s.required || (pattern >= 4 && !done), done, s.anchor),
                           if first then e.nextEpisode else e.episode,
                           if first then e.nextEpisode + 1 else e.nextEpisode, e.reflections, e.paid)
    else if s.level > 1 && !s.required && |recovered| >= 3 then
      if !e.persisted && s.level - 1 < 3 then after == e
      else exists latest :: latest in recovered && (forall d :: d in recovered ==> d <= latest)
             && after == Source(true, SourceState(s.level - 1, false, s.done, Some(latest)),
                                e.episode, e.nextEpisode, e.reflections, e.paid + [recovered])
    else after == e.(persisted := e.persisted || s.level >= 3)
  }

  lemma EvaluationEffect(e: Source, outcomes: Outcomes, today: int)
    ensures EvaluatedFrom(e, AfterEvaluation(e, outcomes, today), outcomes, today)
  {
    var recovered := OfTheWeek(outcomes, today, e.state.anchor, Done);
    assert RecoveryDates(outcomes, today, e.state.anchor) == recovered by {
      forall d ensures d in RecoveryDates(outcomes, today, e.state.anchor) <==> d in recovered {}
    }
  }

  // Over every run, an evaluation has that effect, and a reflection is accepted exactly while one is pending: it is
  // recorded for the episode, the gate opens, and the source is evaluated at once.
  lemma StepExactly(ops: seq<Op>, op: Op)
    ensures var e, after := Run(FRESH, ops), Run(FRESH, ops + [op]);
            match op
            case Evaluated(outcomes, today) => EvaluatedFrom(e, after, outcomes, today)
            case Reflected(outcomes, today) =>
              if e.persisted && e.state.required then
                EvaluatedFrom(e.(state := SourceState(e.state.level, false, true, e.state.anchor),
                                 reflections := e.reflections + [e.episode]), after, outcomes, today)
              else after == e
  {
    assert (ops + [op])[..|ops|] == ops;
    var e := Run(FRESH, ops);
    EvaluationEffect(e, op.outcomes, op.today);
    EvaluationEffect(e.(state := SourceState(e.state.level, false, true, e.state.anchor),
                        reflections := e.reflections + [e.episode]), op.outcomes, op.today);
  }

  // ---------------------------------------------------------------- the stored row

  // The occurrences of the last sixty days.
  function LookedBack(rows: seq<(int, Status)>, today: int): seq<(int, Status)> {
    Filter(rows, (row: (int, Status)) => today - LOOKBACK_DAYS <= row.0 <= today)
  }

  // The outcomes an evaluation sees: of each date of the last sixty days that has an occurrence and is not paused,
  // completed if one of its occurrences is, otherwise skipped if one is, otherwise unresolved.
  lemma OutcomesExactly(rows: seq<(int, Status)>, pauses: seq<Pause>, today: int, d: int)
    ensures var outcomes := OutcomesOf(LookedBack(rows, today), pauses);
            && (d in outcomes <==>
                  today - 60 <= d <= today && !PausedOn(pauses, d) && exists status :: (d, status) in rows)
            && (d in outcomes ==>
                  outcomes[d] == if (d, Completed) in rows then Done
                                 else if (d, Skipped) in rows then Missed else Unresolved)
  {
    var keep := (row: (int, Status)) => today - LOOKBACK_DAYS <= row.0 <= today;
    var kept := Filter(rows, keep);
    FilterCounts(rows, keep);
    assert kept == LookedBack(rows, today);
    forall status ensures (d, status) in kept <==> (d, status) in rows && today - 60 <= d <= today {}
    if d in OutcomesOf(kept, pauses) {
      var i :| 0 <= i < |kept| && kept[i].0 == d && !PausedOn(pauses, kept[i].0);
      assert (d, kept[i].1) in kept;
    }
    if today - 60 <= d <= today && !PausedOn(pauses, d) {
      if status :| (d, status) in rows {
        var i :| 0 <= i < |kept| && kept[i] == (d, status);
        assert kept[i].0 in OutcomesOf(kept, pauses);
      }
    }
  }

  class EscalationRow {
    var persisted: bool
    var level: int
    var reflectionRequired: bool
    var reflectionCompletedAt: Option<int>
    var anchor: Option<int>
    var episode: nat
    var nextEpisode: nat
    var lastReducedAt: Option<int>
    var reflections: seq<nat>
    ghost var paid: seq<set<int>>

    ghost function Abstract(): Source
      reads this
    {
      Source(persisted, SourceState(level, reflectionRequired, reflectionCompletedAt.Some?, anchor),
             episode, nextEpisode, reflections, paid)
    }

    constructor ()
      ensures Abstract() == FRESH
    {
      persisted, level, reflectionRequired, reflectionCompletedAt := false, 1, false, None;
      anchor, episode, nextEpisode, lastReducedAt, reflections, paid := None, 0, 1, None, [], [];
    }

    method EvaluateSource(rows: seq<(int, Status)>, pauses: seq<Pause>, today: int, now: int)
      modifies this
      ensures Abstract()
           == AfterEvaluation(old(Abstract()), OutcomesOf(LookedBack(rows, today), pauses), today)
      ensures lastReducedAt == if |paid| > |old(paid)| then Some(now) else old(lastReducedAt)
      ensures |paid| > |old(paid)| <==> level < old(level)
    {
      var outcomes := DayOutcomes(LookedBack(rows, today), pauses);
      var state := SourceState(level, reflectionRequired, reflectionCompletedAt.Some?, anchor);
      WriteBack(Evaluate(state, outcomes, today), RecoveryDates(outcomes, today, anchor), now);
    }

    method WriteBack(decision: Evaluation, ghost completions: set<int>, now: int)
      modifies this
      ensures Abstract() == AfterDecision(old(Abstract()), decision, completions)
      ensures lastReducedAt == if |paid| > |old(paid)| then Some(now) else old(lastReducedAt)
    {
      if !persisted && decision.level < 3 {
        return;
      }
      persisted := true;
      if decision.newEpisode {
        episode, nextEpisode := nextEpisode, nextEpisode + 1;
        reflectionCompletedAt := None;
      }
      if decision.reduced {
        lastReducedAt := Some(now);
        paid := paid + [completions];
      }
      level, reflectionRequired, anchor := decision.level, decision.required, decision.anchor;
    }

    method SubmitReflection(rows: seq<(int, Status)>, pauses: seq<Pause>, today: int, now: int)
      returns (accepted: bool)
      modifies this
      ensures accepted == (old(persisted) && old(reflectionRequired))
      ensures Abstract()
           == Next(old(Abstract()), Reflected(OutcomesOf(LookedBack(rows, today), pauses), today))
      ensures lastReducedAt == if |paid| > |old(paid)| then Some(now) else old(lastReducedAt)
      ensures |paid| > |old(paid)| <==> level < old(level)
    {
      if !persisted || !reflectionRequired {
        return false;
      }
      reflectionRequired := false;
      reflectionCompletedAt := Some(now);
      reflections := reflections + [episode];
      EvaluateSource(rows, pauses, today, now);
      return true;
    }
  }
}
