// Two-phase idempotent execution of one mutation under one (user, key) pair
// (backend/src/lifeos/domain/idempotency.py).
// Each step below is one committed database transaction (the claim is two: its first look, and the
// conditional take-over), so workers interleave freely between steps. Instants are seconds.
module Idempotency {
  import opened Prelude

  const RETENTION := 24 * 60 * 60
  const STALE_AFTER := 60

  datatype RecordStatus = Processing | Completed | Failed

  datatype Record = Record(fp: int, status: RecordStatus, result: Option<int>, updatedAt: int, expiresAt: int)

  // ---------------------------------------------------------------- what one transaction does to the record

  function Claimed(fp: int, at: int): Record {
    Record(fp, Processing, None, at, at + RETENTION)
  }

  datatype Refusal = KeyReused | InProgress

  datatype Sight = Inserted | Replay(result: int) | Rejected(reason: Refusal) | MayTakeOver

  function Look(record: Option<Record>, fp: int, at: int): Sight {
    if record.None? then Inserted
    else
      var r := record.value;
      var expired := r.expiresAt <= at;
      if !expired && r.fp != fp then Rejected(KeyReused)
      else if !expired && r.status == Completed then Replay(if r.result.Some? then r.result.value else 0)
      else if !expired && r.status == Processing && r.updatedAt > at - STALE_AFTER then Rejected(InProgress)
      else MayTakeOver
  }

  predicate CanTakeOver(r: Record, at: int) {
    r.status == Failed || (r.status == Processing && r.updatedAt <= at - STALE_AFTER) || r.expiresAt <= at
  }

  function MarkedFailed(r: Record, now: int): Record {
    if r.status == Processing then r.(status := Failed, updatedAt := now) else r
  }

  // The shared row itself, with the four statements that overwrite it.
  class RecordRow {
    var present: bool
    var fingerprint: int
    var status: RecordStatus
    var result: Option<int>
    var updatedAt: int
    var expiresAt: int

    ghost function Abstract(): Option<Record>
      reads this
    {
      if present then Some(Record(fingerprint, status, result, updatedAt, expiresAt)) else None
    }

    constructor ()
      ensures Abstract() == None
    {
      present, fingerprint, status, result, updatedAt, expiresAt := false, 0, Failed, None, 0, 0;
    }

    method FirstLook(fp: int, at: int) returns (sight: Sight)
      modifies this
      ensures sight == Look(old(Abstract()), fp, at)
      ensures Abstract() == if sight.Inserted? then Some(Claimed(fp, at)) else old(Abstract())
    {
      if !present {
        present, fingerprint, status, result := true, fp, Processing, None;
        updatedAt, expiresAt := at, at + RETENTION;
        return Inserted;
      }
      var expired := expiresAt <= at;
      if !expired && fingerprint != fp {
        return Rejected(KeyReused);
      }
      if !expired && status == Completed {
        return Replay(if result.Some? then result.value else 0);
      }
      if !expired && status == Processing && updatedAt > at - STALE_AFTER {
        return Rejected(InProgress);
      }
      return MayTakeOver;
    }

    method Reclaim(fp: int, at: int) returns (won: bool)
      requires present
      modifies this
      ensures won == CanTakeOver(old(Abstract()).value, at)
      ensures Abstract() == if won then Some(Claimed(fp, at)) else old(Abstract())
    {
      won := status == Failed || (status == Processing && updatedAt <= at - STALE_AFTER) || expiresAt <= at;
      if won {
        fingerprint, status, result, updatedAt, expiresAt := fp, Processing, None, at, at + RETENTION;
      }
    }

    method Complete(r: int, now: int)
      requires present
      modifies this
      ensures Abstract()
           == Some(old(Abstract()).value.(status := Completed, result := Some(r), updatedAt := now))
    {
      status, result, updatedAt := Completed, Some(r), now;
    }

    method MarkFailed(now: int)
      requires present
      modifies this
      ensures Abstract() == Some(MarkedFailed(old(Abstract()).value, now))
    {
      if status == Processing {
        status, updatedAt := Failed, now;
      }
    }
  }

  // ---------------------------------------------------------------- concurrent workers

  datatype Reply = Executed(result: int) | Replayed(result: int) | Refused(reason: Refusal) | Raised

  // `at` is the instant the worker read the clock for its claim. `landed` records, for the proof only,
  // whether the commit that was reported as an error had in fact gone through.
  datatype Worker =
    | Idle
    | TakingOver(fp: int, at: int)
    | Running(fp: int, at: int)
    | Marking(at: int, landed: bool)
    | Finished(reply: Reply)
    | Crashed

  datatype Commit = Commit(fp: int, result: int)

  // `commits` are the operations committed since the record was last claimed as new or expired.
  datatype World = World(now: int, record: Option<Record>, workers: map<int, Worker>, commits: seq<Commit>)

  datatype Step =
    | Tick(instant: int)
    | Arrive(w: int)
    | StartClaim(w: int, fp: int, at: int)
    | TakeOver(w: int)
    | CommitOperation(w: int, result: int, reportedAsError: bool)
    | OperationRaises(w: int)
    | MarkFailure(w: int)
    | Crash(w: int)

  function Init(now: int): World {
    World(now, None, map[], [])
  }

  predicate At(s: World, w: int) { w in s.workers }

  function Put(s: World, w: int, worker: Worker): World {
    s.(workers := s.workers[w := worker])
  }

  // A step that is not enabled leaves the world as it is.
  function Next(s: World, step: Step): World {
    match step
    case Tick(instant) => if instant >= s.now then s.(now := instant) else s
    case Arrive(w) => if At(s, w) then s else Put(s, w, Idle)
    case StartClaim(w, fp, at) =>
      if !At(s, w) || !s.workers[w].Idle? || at > s.now then s
      else (
        match Look(s.record, fp, at)
        case Inserted => Put(s, w, Running(fp, at)).(record := Some(Claimed(fp, at)), commits := [])
        case Replay(result) => Put(s, w, Finished(Replayed(result)))
        case Rejected(reason) => Put(s, w, Finished(Refused(reason)))
        case MayTakeOver => Put(s, w, TakingOver(fp, at)))
    case TakeOver(w) =>
      if !At(s, w) || !s.workers[w].TakingOver? || s.record.None? then s
      else
        var fp, at := s.workers[w].fp, s.workers[w].at;
        if !CanTakeOver(s.record.value, at) then Put(s, w, Finished(Refused(InProgress)))
        else Put(s, w, Running(fp, at)).(
          record := Some(Claimed(fp, at)),
          commits := if s.record.value.expiresAt <= at then [] else s.commits)
    case CommitOperation(w, result, reportedAsError) =>
      if !At(s, w) || !s.workers[w].Running? || s.record.None? then s
      else
        var worker := s.workers[w];
        Put(s, w, if reportedAsError then Marking(worker.at, true) else Finished(Executed(result))).(
          record := Some(s.record.value.(status := Completed, result := Some(result), updatedAt := s.now)),
          commits := s.commits + [Commit(worker.fp, result)])
    case OperationRaises(w) =>
      if !At(s, w) || !s.workers[w].Running? then s else Put(s, w, Marking(s.workers[w].at, false))
    case MarkFailure(w) =>
      if !At(s, w) || !s.workers[w].Marking? || s.record.None? then s
      else Put(s, w, Finished(Raised)).(record := Some(MarkedFailed(s.record.value, s.now)))
    case Crash(w) =>
      if !At(s, w) || s.workers[w].Finished? then s else Put(s, w, Crashed)
  }

  // A worker's closing step (its commit, or its mark-failed) comes less than `bound` after its claim.
  predicate Timely(s: World, step: Step, bound: int) {
    match step
    case CommitOperation(w, _, _) =>
      At(s, w) && s.workers[w].Running? ==> s.now < s.workers[w].at + bound
    case MarkFailure(w) =>
      At(s, w) && s.workers[w].Marking? ==> s.now < s.workers[w].at + bound
    case _ => true
  }

  function Run(s: World, steps: seq<Step>): World {
    if steps == [] then s else Next(Run(s, steps[..|steps| - 1]), steps[|steps| - 1])
  }

  predicate TimelyRun(s: World, steps: seq<Step>, bound: int) {
    steps == []
    || (TimelyRun(s, steps[..|steps| - 1], bound)
        && Timely(Run(s, steps[..|steps| - 1]), steps[|steps| - 1], bound))
  }

  // ---------------------------------------------------------------- the invariant

  // Still allowed to close, and nothing of it has been committed: the one worker the record belongs to.
  ghost predicate Owns(s: World, w: int) {
    && At(s, w)
    && ((s.workers[w].Running? && s.now < s.workers[w].at + STALE_AFTER)
        || (s.workers[w].Marking? && !s.workers[w].landed && s.now < s.workers[w].at + STALE_AFTER))
  }

  ghost predicate Landed(s: World, w: int) {
    At(s, w) && s.workers[w].Marking? && s.workers[w].landed && s.now < s.workers[w].at + STALE_AFTER
  }

  ghost predicate ClocksPast(s: World) {
    forall w :: At(s, w) && (s.workers[w].TakingOver? || s.workers[w].Running? || s.workers[w].Marking?) ==>
      s.workers[w].at <= s.now && s.record.Some?
  }

  ghost predicate CountMatches(s: World) {
    |s.commits| == if s.record.Some? && s.record.value.status == Completed then 1 else 0
  }

  ghost predicate StoredMatches(s: World) {
    s.record.Some? && s.record.value.status == Completed ==>
      s.record.value.result.Some? && s.commits == [Commit(s.record.value.fp, s.record.value.result.value)]
  }

  ghost predicate OwnerHolds(s: World) {
    forall w :: Owns(s, w) ==>
      && s.record.Some?
      && s.record.value.status == Processing
      && s.record.value.updatedAt == s.workers[w].at
      && s.record.value.expiresAt == s.workers[w].at + RETENTION
      && (s.workers[w].Running? ==> s.record.value.fp == s.workers[w].fp)
  }

  ghost predicate LandedHolds(s: World) {
    forall w :: Landed(s, w) ==>
      && s.record.Some?
      && s.record.value.status == Completed
      && s.record.value.expiresAt == s.workers[w].at + RETENTION
  }

  ghost predicate OneOwner(s: World) {
    forall v, w :: Owns(s, v) && Owns(s, w) ==> v == w
  }

  ghost predicate Invariant(s: World) {
    ClocksPast(s) && CountMatches(s) && StoredMatches(s) && OwnerHolds(s) && LandedHolds(s) && OneOwner(s)
  }

  lemma TakeOverFindsNoOwner(s: World, at: int)
    requires Invariant(s) && s.record.Some? && at <= s.now && CanTakeOver(s.record.value, at)
    ensures forall w :: !Owns(s, w) && !Landed(s, w)
  {
  }

  // After a closing step nobody owns the record; after a claim only the claimer can.
  lemma NextKeepsOneOwner(s: World, step: Step)
    requires Invariant(s) && Timely(s, step, STALE_AFTER)
    ensures OneOwner(Next(s, step))
  {
    OthersUnchanged(s, step);
    var t := Next(s, step);
    if step.StartClaim? && t.record != s.record {
      assert forall v :: !Owns(s, v);
    } else if step.TakeOver? && t.record != s.record {
      TakeOverFindsNoOwner(s, s.workers[step.w].at);
    } else if !step.Tick? && Owns(t, step.w) {
      assert Owns(s, step.w);
    }
  }

  lemma TakeOverKeeps(s: World, w: int)
    requires Invariant(s)
    ensures OwnerHolds(Next(s, TakeOver(w))) && LandedHolds(Next(s, TakeOver(w)))
  {
    OthersUnchanged(s, TakeOver(w));
    if At(s, w) && s.workers[w].TakingOver? && s.record.Some? && CanTakeOver(s.record.value, s.workers[w].at) {
      TakeOverFindsNoOwner(s, s.workers[w].at);
    }
  }

  lemma ClosingKeeps(s: World, step: Step)
    requires Invariant(s) && Timely(s, step, STALE_AFTER)
    requires step.CommitOperation? || step.MarkFailure?
    ensures var t := Next(s, step);
            OwnerHolds(t) && LandedHolds(t) && CountMatches(t) && StoredMatches(t)
  {
    OthersUnchanged(s, step);
    var t := Next(s, step);
    if t != s {
      assert Owns(s, step.w) || Landed(s, step.w);
      if Owns(s, step.w) {
        assert !Owns(t, step.w);
        assert forall v :: !Owns(t, v);
      }
    }
  }

  lemma StartClaimKeeps(s: World, step: Step)
    requires Invariant(s) && step.StartClaim?
    ensures var t := Next(s, step);
            ClocksPast(t) && OwnerHolds(t) && LandedHolds(t) && CountMatches(t) && StoredMatches(t)
  {
    OthersUnchanged(s, step);
  }

  lemma NextKeepsInvariant(s: World, step: Step)
    requires Invariant(s) && Timely(s, step, STALE_AFTER)
    ensures Invariant(Next(s, step))
  {
    NextKeepsOneOwner(s, step);
    OthersUnchanged(s, step);
    if step.StartClaim? {
      StartClaimKeeps(s, step);
    } else if step.TakeOver? {
      TakeOverKeeps(s, step.w);
    } else if step.CommitOperation? || step.MarkFailure? {
      ClosingKeeps(s, step);
    }
  }

  // Only the stepping worker's program counter moves, and time never makes anyone an owner.
  lemma OthersUnchanged(s: World, step: Step)
    ensures var t := Next(s, step);
            && t.now >= s.now
            && (forall v :: At(s, v) ==> At(t, v))
            && (forall v :: (step.Tick? || v != step.w) && At(t, v) ==> At(s, v) && t.workers[v] == s.workers[v])
            && (forall v :: (step.Tick? || v != step.w) && Owns(t, v) ==> Owns(s, v))
            && (forall v :: (step.Tick? || v != step.w) && Landed(t, v) ==> Landed(s, v))
  {
  }

  lemma {:induction false} TimelyRunKeepsInvariant(start: int, steps: seq<Step>)
    requires TimelyRun(Init(start), steps, STALE_AFTER)
    ensures Invariant(Run(Init(start), steps))
  {
    if steps != [] {
      TimelyRunKeepsInvariant(start, steps[..|steps| - 1]);
      NextKeepsInvariant(Run(Init(start), steps[..|steps| - 1]), steps[|steps| - 1]);
    }
  }

  // ---------------------------------------------------------------- exactly once

  // Any interleaving, any crashes, any commit reported as an error: while closing steps come within 60 s of
  // their claim, one operation has been committed since the last new or expired claim when the record says
  // completed, and none otherwise.
  lemma ExactlyOnce(start: int, steps: seq<Step>)
    requires TimelyRun(Init(start), steps, STALE_AFTER)
    ensures CountMatches(Run(Init(start), steps))
  {
    TimelyRunKeepsInvariant(start, steps);
  }

  // What the first transaction of a claim answers, in terms of the stored record: nothing stored is claimed at once; an
  // unexpired record of another request refuses the key, a completed one is replayed, one less than 60 s in progress
  // refuses; a failed, stale or expired one may be taken over. The record is written only when there was none.
  lemma ClaimAnswersExactly(start: int, steps: seq<Step>, w: int, fp: int, at: int)
    requires TimelyRun(Init(start), steps, STALE_AFTER)
    requires var s := Run(Init(start), steps); w in s.workers && s.workers[w] == Idle && at <= s.now
    ensures var s := Run(Init(start), steps);
            var t := Next(s, StartClaim(w, fp, at));
            w in t.workers && t.now == s.now
            && match s.record
               case None =>
                 && t.workers[w] == Running(fp, at)
                 && t.record == Some(Record(fp, Processing, None, at, at + 24 * 60 * 60)) && t.commits == []
               case Some(r) =>
                 && t.record == s.record && t.commits == s.commits
                 && (forall x :: t.workers[w] == Finished(Replayed(x)) <==>
                       at < r.expiresAt && r.fp == fp && r.status == Completed && r.result == Some(x))
                 && (t.workers[w] == Finished(Refused(KeyReused)) <==> at < r.expiresAt && r.fp != fp)
                 && (t.workers[w] == Finished(Refused(InProgress)) <==>
                       at < r.expiresAt && r.fp == fp && r.status == Processing && at - r.updatedAt < 60)
                 && (t.workers[w] == TakingOver(fp, at) <==>
                       || r.expiresAt <= at
                       || (r.fp == fp && (r.status == Failed || (r.status == Processing && 60 <= at - r.updatedAt))))
  {
    TimelyRunKeepsInvariant(start, steps);
  }

  // The conditional take-over: won exactly if the record is still failed, stale or expired, and then written whole.
  lemma TakeOverAnswersExactly(s: World, w: int, fp: int, at: int, r: Record)
    requires w in s.workers && s.workers[w] == TakingOver(fp, at) && s.record == Some(r)
    ensures var t := Next(s, TakeOver(w));
            w in t.workers && t.now == s.now
            && if r.status == Failed || (r.status == Processing && 60 <= at - r.updatedAt) || r.expiresAt <= at then
                 && t.workers[w] == Running(fp, at)
                 && t.record == Some(Record(fp, Processing, None, at, at + 24 * 60 * 60))
                 && t.commits == (if r.expiresAt <= at then [] else s.commits)
               else
                 t.workers[w] == Finished(Refused(InProgress)) && t.record == s.record && t.commits == s.commits
  {
  }

  // How a claim ends: with the result stored and answered, with a commit that went through but is reported as an error,
  // or with an exception; after an exception only a record still processing is marked failed.
  lemma ClosingAnswersExactly(s: World, w: int, r: Record, result: int)
    requires w in s.workers && s.record == Some(r)
    ensures s.workers[w].Running? ==>
              var worker := s.workers[w];
              var answered := Next(s, CommitOperation(w, result, false));
              var reported := Next(s, CommitOperation(w, result, true));
              && w in answered.workers && answered.workers[w] == Finished(Executed(result))
              && w in reported.workers && reported.workers[w] == Marking(worker.at, true)
              && answered.record == reported.record == Some(Record(r.fp, Completed, Some(result), s.now, r.expiresAt))
              && answered.commits == reported.commits == s.commits + [Commit(worker.fp, result)]
    ensures s.workers[w].Running? ==>
              var raised := Next(s, OperationRaises(w));
              && w in raised.workers && raised.workers[w] == Marking(s.workers[w].at, false)
              && raised.record == s.record && raised.commits == s.commits
    ensures s.workers[w].Marking? ==>
              var marked := Next(s, MarkFailure(w));
              && w in marked.workers && marked.workers[w] == Finished(Raised)
              && marked.record ==
                   Some(if r.status == Processing then Record(r.fp, Failed, r.result, s.now, r.expiresAt) else r)
              && marked.commits == s.commits
  {
  }

  // The outside world: the clock moves on, a worker comes, or one that has not answered yet is lost.
  lemma OutsideExactly(s: World, instant: int, w: int)
    ensures instant >= s.now ==> Next(s, Tick(instant)) == World(instant, s.record, s.workers, s.commits)
    ensures w !in s.workers ==> Next(s, Arrive(w)) == World(s.now, s.record, s.workers[w := Idle], s.commits)
    ensures w in s.workers && !s.workers[w].Finished? ==>
              Next(s, Step.Crash(w)) == World(s.now, s.record, s.workers[w := Crashed], s.commits)
  {
  }

  // A worker that is elsewhere in its own steps does none of the others.
  lemma OutOfTurnNothing(s: World, w: int, fp: int, at: int, result: int, reportedAsError: bool)
    ensures w !in s.workers || !s.workers[w].Idle? || at > s.now ==> Next(s, StartClaim(w, fp, at)) == s
    ensures w !in s.workers || !s.workers[w].TakingOver? ==> Next(s, TakeOver(w)) == s
    ensures w !in s.workers || !s.workers[w].Running? ==>
              Next(s, CommitOperation(w, result, reportedAsError)) == s == Next(s, OperationRaises(w))
    ensures w !in s.workers || !s.workers[w].Marking? ==> Next(s, MarkFailure(w)) == s
    ensures w in s.workers ==> Next(s, Arrive(w)) == s
    ensures w !in s.workers || s.workers[w].Finished? ==> Next(s, Step.Crash(w)) == s
  {
  }

  // The record holds a finished execution that has not expired.
  ghost predicate Stored(s: World, fp: int, result: int, expiresAt: int) {
    && s.record.Some? && s.record.value.fp == fp && s.record.value.status == Completed
    && s.record.value.result == Some(result) && s.record.value.expiresAt == expiresAt
  }

  lemma StoredStays(s: World, step: Step, fp: int, result: int, expiresAt: int)
    requires Invariant(s) && Timely(s, step, STALE_AFTER) && Stored(s, fp, result, expiresAt) && s.now < expiresAt
    ensures Stored(Next(s, step), fp, result, expiresAt)
  {
    assert forall w :: !Owns(s, w);
  }

  lemma {:induction false} StoredThroughout(
    start: int, before: seq<Step>, after: seq<Step>, fp: int, result: int, expiresAt: int)
    requires TimelyRun(Init(start), before + after, STALE_AFTER)
    requires Stored(Run(Init(start), before), fp, result, expiresAt)
    requires Run(Init(start), before + after).now < expiresAt
    ensures Stored(Run(Init(start), before + after), fp, result, expiresAt)
    decreases |after|
  {
    if after == [] {
      assert before + after == before;
    } else {
      var steps := before + after[..|after| - 1];
      assert (before + after)[..|before + after| - 1] == steps;
      OthersUnchanged(Run(Init(start), steps), after[|after| - 1]);
      StoredThroughout(start, before, after[..|after| - 1], fp, result, expiresAt);
      TimelyRunKeepsInvariant(start, steps);
      StoredStays(Run(Init(start), steps), after[|after| - 1], fp, result, expiresAt);
    }
  }

  lemma {:induction false} TimelyBefore(s: World, before: seq<Step>, after: seq<Step>, bound: int)
    requires TimelyRun(s, before + after, bound)
    ensures TimelyRun(s, before, bound)
    decreases |after|
  {
    if after == [] {
      assert before + after == before;
    } else {
      assert (before + after)[..|before + after| - 1] == before + after[..|after| - 1];
      TimelyBefore(s, before, after[..|after| - 1], bound);
    }
  }

  // Once an operation has committed, and for the 24 hours after its claim, every claim of its key is answered with its
  // result, or refused if it comes from a different request, whatever else happens in between.
  lemma {:induction false} CommittedIsReplayed(
    start: int, before: seq<Step>, w: int, result: int, reportedAsError: bool, after: seq<Step>,
    v: int, fp: int, at: int)
    requires var s := Run(Init(start), before);
             w in s.workers && s.workers[w].Running? && s.record.Some?
    requires TimelyRun(Init(start), before + [CommitOperation(w, result, reportedAsError)] + after, STALE_AFTER)
    requires var u := Run(Init(start), before + [CommitOperation(w, result, reportedAsError)] + after);
             && u.now < Run(Init(start), before).workers[w].at + 24 * 60 * 60
             && v in u.workers && u.workers[v] == Idle && at <= u.now
    ensures var u := Run(Init(start), before + [CommitOperation(w, result, reportedAsError)] + after);
            var t := Next(u, StartClaim(v, fp, at));
            v in t.workers
            && t.workers[v] == Finished(if fp == Run(Init(start), before).workers[w].fp then Replayed(result)
                                        else Refused(KeyReused))
  {
    var s := Run(Init(start), before);
    var commit := CommitOperation(w, result, reportedAsError);
    var committed := before + [commit];
    TimelyBefore(Init(start), committed, after, STALE_AFTER);
    assert committed[..|committed| - 1] == before;
    TimelyRunKeepsInvariant(start, before);
    assert Owns(s, w);
    StoredThroughout(start, committed, after, s.workers[w].fp, result, s.workers[w].at + RETENTION);
  }

  // A replay is the stored result of that one commit, made for the same request, and executes nothing.
  lemma ReplayIsTheCommittedResult(start: int, steps: seq<Step>, w: int, fp: int, at: int)
    requires TimelyRun(Init(start), steps, STALE_AFTER)
    ensures
      var s := Run(Init(start), steps);
      var t := Next(s, StartClaim(w, fp, at));
      At(s, w) && s.workers[w].Idle? && t.workers[w].Finished? && t.workers[w].reply.Replayed? ==>
        && s.commits == [Commit(fp, t.workers[w].reply.result)]
        && t.commits == s.commits && t.record == s.record
  {
    TimelyRunKeepsInvariant(start, steps);
  }

  // Workers whose own claim has not gone stale are never two at a time.
  lemma OneRunnerAtATime(start: int, steps: seq<Step>, v: int, w: int)
    requires TimelyRun(Init(start), steps, STALE_AFTER)
    requires Owns(Run(Init(start), steps), v) && Owns(Run(Init(start), steps), w)
    ensures v == w
  {
    TimelyRunKeepsInvariant(start, steps);
  }

  ghost predicate Safe(bound: int) {
    forall start, steps :: TimelyRun(Init(start), steps, bound) ==> CountMatches(Run(Init(start), steps))
  }

  lemma {:induction false} TighterBound(s: World, steps: seq<Step>, a: int, b: int)
    requires a <= b && TimelyRun(s, steps, a)
    ensures TimelyRun(s, steps, b)
  {
    if steps != [] {
      TighterBound(s, steps[..|steps| - 1], a, b);
    }
  }

  lemma Snoc(s: World, steps: seq<Step>, step: Step, bound: int)
    requires TimelyRun(s, steps, bound) && Timely(Run(s, steps), step, bound)
    ensures TimelyRun(s, steps + [step], bound)
    ensures Run(s, steps + [step]) == Next(Run(s, steps), step)
  {
    assert (steps + [step])[..|steps|] == steps;
  }

  // Neither phase 2 nor the failure marker checks that the worker still owns the claim: one commit exactly
  // 60 s late, after the stale claim was taken over, executes the operation twice.
  lemma LateCommitExecutesTwice(bound: int) returns (steps: seq<Step>)
    requires bound > STALE_AFTER
    ensures TimelyRun(Init(0), steps, bound)
    ensures |Run(Init(0), steps).commits| == 2
  {
    var s0 := Init(0);
    steps := [];
    Snoc(s0, steps, Arrive(1), bound);
    steps := steps + [Arrive(1)];
    Snoc(s0, steps, Arrive(2), bound);
    steps := steps + [Arrive(2)];
    Snoc(s0, steps, StartClaim(1, 7, 0), bound);
    steps := steps + [StartClaim(1, 7, 0)];
    Snoc(s0, steps, Tick(60), bound);
    steps := steps + [Tick(60)];
    Snoc(s0, steps, StartClaim(2, 7, 60), bound);
    steps := steps + [StartClaim(2, 7, 60)];
    Snoc(s0, steps, TakeOver(2), bound);
    steps := steps + [TakeOver(2)];
    Snoc(s0, steps, CommitOperation(2, 20, false), bound);
    steps := steps + [CommitOperation(2, 20, false)];
    Snoc(s0, steps, CommitOperation(1, 10, false), bound);
    steps := steps + [CommitOperation(1, 10, false)];
  }

  // 60 s is exactly the guarantee the code needs from its callers.
  lemma SafeExactlyWithinStaleAfter(bound: int)
    ensures Safe(bound) <==> bound <= STALE_AFTER
  {
    if bound <= STALE_AFTER {
      forall start, steps | TimelyRun(Init(start), steps, bound)
        ensures CountMatches(Run(Init(start), steps))
      {
        TighterBound(Init(start), steps, bound, STALE_AFTER);
        ExactlyOnce(start, steps);
      }
    } else {
      var steps := LateCommitExecutesTwice(bound);
      assert !CountMatches(Run(Init(0), steps));
    }
  }
}
