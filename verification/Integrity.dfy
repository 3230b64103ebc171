// Integrity (backend/src/lifeos/domain/integrity.py): the day's snapshot row against a fresh count over the ledger, and
// the score computed from its counts.
module Integrity {
  import opened Prelude
  import opened Commitments
  import opened Ledger
  import LedgerEffects

  // The operation left the ledger's commitments alone, or wrote today's row last.
  ghost predicate EndsRefreshed(s: State, t: State, cal: Calendar) {
    && t.now == s.now
    && (var today := cal.dayOf(s.now);
        || (t.commitments == s.commitments && t.snapshots == s.snapshots)
        || t.snapshots == s.snapshots[today := Count(t.commitments, cal, today)])
  }

  lemma EndsRefreshedIsCurrent(s: State, t: State, cal: Calendar)
    requires SnapshotCurrent(s, cal) && EndsRefreshed(s, t, cal)
    ensures SnapshotCurrent(t, cal)
  {
  }

  lemma ClosingOpsRefresh(s: State, cal: Calendar, op: Op)
    requires op.Keep? || op.Cancel? || op.Postpone? || op.EvaluateDeadlines? || op.RefreshIntegrity?
    ensures EndsRefreshed(s, Next(s, cal, op), cal)
  {
  }

  lemma ActionOpsRefresh(s: State, cal: Calendar, op: Op)
    requires op.NewAction? || op.SetActionStatus? || op.UserCancel? || op.SystemCancel?
    ensures EndsRefreshed(s, Next(s, cal, op), cal)
  {
  }

  lemma TickKeepsSnapshot(s: State, cal: Calendar, instant: int)
    requires Consistent(cal) && SnapshotCurrent(s, cal) && instant >= s.now
    ensures SnapshotCurrent(s.(now := instant), cal)
  {
    assert instant < cal.dayEnd(cal.dayOf(instant));
    assert cal.dayOf(s.now) <= cal.dayOf(instant);
  }

  lemma StepKeepsSnapshot(s: State, cal: Calendar, op: Op)
    requires Consistent(cal) && Invariant(s) && SnapshotCurrent(s, cal)
    ensures SnapshotCurrent(Next(s, cal, op), cal)
  {
    if op.Tick? {
      if op.instant >= s.now {
        TickKeepsSnapshot(s, cal, op.instant);
      }
    } else if op.NewCommitment? {
      if Attempt(s, cal, op).Ok? {
        CreateKeeps(s, cal, op.due, op.targets, op.requested, op.known);
      }
    } else if op.SubmitExplanation? {
      if Attempt(s, cal, op).Ok? {
        ExplainKeeps(s, cal, op.id, op.length);
      }
    } else {
      if op.NewAction? || op.SetActionStatus? || op.UserCancel? || op.SystemCancel? {
        ActionOpsRefresh(s, cal, op);
      } else {
        ClosingOpsRefresh(s, cal, op);
      }
      EndsRefreshedIsCurrent(s, Next(s, cal, op), cal);
    }
  }

  // Once today's integrity row is written, no sequence of operations on the same day leaves it different
  // from a fresh count over the ledger, as long as the time zone stays the same.
  lemma {:induction false} SnapshotAgreesWithRecount(start: int, cal: Calendar, calls: seq<Call>)
    requires Consistent(cal) && forall k :: 0 <= k < |calls| ==> calls[k].cal == cal
    ensures SnapshotCurrent(Run(Init(start), calls), cal)
  {
    if calls != [] {
      var last := calls[|calls| - 1];
      SnapshotAgreesWithRecount(start, cal, calls[..|calls| - 1]);
      RunKeepsInvariant(start, calls[..|calls| - 1]);
      StepKeepsSnapshot(Run(Init(start), calls[..|calls| - 1]), cal, last.op);
    }
  }

  // ---------------------------------------------------------------- the counts and the event logs

  ghost predicate EndsWith(c: Commitment, kind: EventKind) {
    c.log != [] && c.log[|c.log| - 1].kind == kind
  }

  // A closed commitment's log ends with the event that closed it, at the stored instant.
  ghost predicate Stamped(c: Commitment) {
    && (c.status == Kept <==> EndsWith(c, KeptEvent))
    && (c.status == Broken <==> EndsWith(c, BrokenEvent))
    && (c.status == Kept ==> c.keptAt == Some(c.log[|c.log| - 1].at))
    && (c.status == Broken ==> c.brokenAt == Some(c.log[|c.log| - 1].at))
  }

  ghost predicate AllStamped(s: State) {
    forall id :: id in s.commitments ==> Stamped(s.commitments[id])
  }

  lemma DeadlineStamps(c: Commitment, cal: Calendar, now: int)
    requires Stamped(c)
    ensures Stamped(LedgerEffects.AtDeadline(c, cal, now))
  {
  }

  lemma SettlingStamps(c: Commitment, actions: map<int, Action>, cal: Calendar, now: int)
    requires Stamped(c)
    ensures Stamped(LedgerEffects.Settled(c, actions, cal, now))
  {
    DeadlineStamps(c, cal, now);
  }

  lemma UnlinkingStamps(c: Commitment, gone: set<int>, actions: map<int, Action>, now: int)
    requires Stamped(c) && c.status in {Open, Deferred}
    ensures Stamped(LedgerEffects.WithoutLinks(c, gone, actions, now))
  {
  }

  lemma KeepStamps(s: State, cal: Calendar, id: int)
    requires AllStamped(s)
    ensures AllStamped(Next(s, cal, Keep(id)))
  {
    LedgerEffects.KeepEffect(s, cal, id);
  }

  lemma CancelStamps(s: State, cal: Calendar, id: int)
    requires AllStamped(s)
    ensures AllStamped(Next(s, cal, Cancel(id)))
  {
    LedgerEffects.CancelEffect(s, cal, id);
  }

  lemma DeferralStamps(s: State, cal: Calendar, op: Op)
    requires AllStamped(s) && op.Postpone?
    ensures AllStamped(Next(s, cal, op))
  {
    if op.id in s.commitments {
      DeadlineStamps(s.commitments[op.id], cal, s.now);
      LedgerEffects.DeferralEffect(s, cal, op.id, op.newDue, op.acknowledged);
    }
  }

  lemma ExplanationStamps(s: State, cal: Calendar, op: Op)
    requires AllStamped(s) && op.SubmitExplanation?
    ensures AllStamped(Next(s, cal, op))
  {
    if op.id in s.commitments {
      DeadlineStamps(s.commitments[op.id], cal, s.now);
      LedgerEffects.ExplanationEffect(s, cal, op.id, op.length);
    }
  }

  lemma CancellationStamps(s: State, t: State, cal: Calendar, gone: set<int>)
    requires AllStamped(s) && LedgerEffects.Withdrawn(s, t, cal, gone)
    ensures AllStamped(t)
  {
    forall id | id in t.commitments ensures Stamped(t.commitments[id]) {
      var c := s.commitments[id];
      if LedgerEffects.Touches(c, gone) {
        UnlinkingStamps(c, gone, t.actions, s.now);
        SettlingStamps(LedgerEffects.WithoutLinks(c, gone, t.actions, s.now), t.actions, cal, s.now);
      }
    }
  }

  lemma CheckInStamps(s: State, cal: Calendar, op: Op)
    requires AllStamped(s) && op.SetActionStatus?
    ensures AllStamped(Next(s, cal, op))
  {
    var t := Next(s, cal, op);
    LedgerEffects.CheckInEffect(s, cal, op.action, op.next, op.note, op.archived);
    forall id | id in t.commitments && id in s.commitments ensures Stamped(t.commitments[id]) {
      SettlingStamps(s.commitments[id], t.actions, cal, s.now);
    }
  }

  lemma StepStamps(s: State, cal: Calendar, op: Op)
    requires AllStamped(s)
    ensures AllStamped(Next(s, cal, op))
  {
    match op {
      case UserCancel(a, archived) =>
        LedgerEffects.UserCancelEffect(s, cal, a, archived);
        if Attempt(s, cal, op).Ok? {
          CancellationStamps(s, Next(s, cal, op), cal, {a});
        }
      case SystemCancel(candidates) =>
        LedgerEffects.SystemCancelEffect(s, cal, candidates);
        CancellationStamps(s, Next(s, cal, op), cal, Cancellable(s, candidates));
      case SetActionStatus(_, _, _, _) => CheckInStamps(s, cal, op);
      case EvaluateDeadlines =>
        LedgerEffects.SweepEffect(s, cal);
        forall id | id in s.commitments ensures Stamped(Next(s, cal, op).commitments[id]) {
          DeadlineStamps(s.commitments[id], cal, s.now);
        }
      case Keep(id) => KeepStamps(s, cal, id);
      case Cancel(id) => CancelStamps(s, cal, id);
      case Postpone(_, _, _) => DeferralStamps(s, cal, op);
      case SubmitExplanation(_, _) => ExplanationStamps(s, cal, op);
      case _ =>
    }
  }

  lemma {:induction false} RunStamps(start: int, calls: seq<Call>)
    ensures AllStamped(Run(Init(start), calls))
  {
    if calls != [] {
      RunStamps(start, calls[..|calls| - 1]);
      StepStamps(Run(Init(start), calls[..|calls| - 1]), calls[|calls| - 1].cal, calls[|calls| - 1].op);
    }
  }

  // The commitments whose log ends with that event within the thirty local days through today.
  ghost function EndedLately(commitments: map<int, Commitment>, kind: EventKind, cal: Calendar, today: int): set<int> {
    set id | id in commitments && EndsWith(commitments[id], kind)
             && cal.dayEnd(today - 30) <= commitments[id].log[|commitments[id].log| - 1].at < cal.dayEnd(today)
  }

  // In every reachable ledger, what a recount counts as kept or broken is exactly what the event logs say was kept or
  // broken in those thirty days.
  lemma {:induction false} CountsTellTheLogs(start: int, calls: seq<Call>, cal: Calendar, today: int)
    ensures var commitments := Run(Init(start), calls).commitments;
            && Count(commitments, cal, today).kept == |EndedLately(commitments, KeptEvent, cal, today)|
            && Count(commitments, cal, today).broken == |EndedLately(commitments, BrokenEvent, cal, today)|
  {
    var commitments := Run(Init(start), calls).commitments;
    RunStamps(start, calls);
    forall id
      ensures id in KeptIds(commitments, cal, today) <==> id in EndedLately(commitments, KeptEvent, cal, today)
      ensures id in BrokenIds(commitments, cal, today) <==> id in EndedLately(commitments, BrokenEvent, cal, today)
    {
      if id in commitments {
        assert Stamped(commitments[id]);
      }
    }
    assert KeptIds(commitments, cal, today) == EndedLately(commitments, KeptEvent, cal, today);
    assert BrokenIds(commitments, cal, today) == EndedLately(commitments, BrokenEvent, cal, today);
  }

  // ---------------------------------------------------------------- the score

  // Kept over resolved, in tenths of a percent, rounded half up; none when nothing is resolved.
  function ScoreTenths(n: Counts): Option<nat> {
    var total := n.kept + n.broken + n.overdueDeferred;
    if total == 0 then None else Some(HalfUp(1000 * n.kept, total))
  }

  // The stored score is within 0.05 of the exact percentage, halves going up, and lies in 0..100.
  lemma {:induction false} ScoreIsRounded(n: Counts)
    requires n.kept + n.broken + n.overdueDeferred > 0
    ensures var total := n.kept + n.broken + n.overdueDeferred;
            var tenths := ScoreTenths(n).value;
            && 0 <= tenths <= 1000
            && -total <= 2 * (1000 * n.kept - tenths * total) < total
  {
    var total := n.kept + n.broken + n.overdueDeferred;
    HalfUpAtMost(1000 * n.kept, total, 1000);
  }
}
