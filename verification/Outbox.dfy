// The outbox consumer (backend/src/lifeos/events/consumer.py): claim an event, run its handlers and mark it
// processed in one transaction; record a failure, with backoff or a dead letter, in another. Instants are seconds.
module Outbox {
  import opened Prelude

  const MAX_ATTEMPTS := 10
  const MAX_BACKOFF := 60 * 60

  function Pow2(n: nat): (r: int)
    ensures r >= n + 1
  {
    if n == 0 then 1 else 2 * Pow2(n - 1)
  }

  lemma {:induction false} Pow2Grows(n: nat, m: nat)
    requires n <= m
    ensures Pow2(n) <= Pow2(m)
    decreases m
  {
    if n < m {
      Pow2Grows(n, m - 1);
    }
  }

  lemma ElevenIsTheLast()
    ensures Pow2(11) == 2048 && Pow2(12) == 4096
  {
    assert Pow2(4) == 16 && Pow2(8) == 256;
  }

  // 2^attempts seconds, capped at one hour: the cap is reached at twelve attempts.
  function Backoff(attempts: nat): (seconds: int)
    ensures 0 < seconds <= MAX_BACKOFF
    ensures attempts <= 11 ==> seconds == Pow2(attempts)
    ensures attempts >= 12 ==> seconds == MAX_BACKOFF
  {
    ElevenIsTheLast();
    if attempts <= 11 then Pow2Grows(attempts, 11); Min(Pow2(attempts), MAX_BACKOFF)
    else Pow2Grows(12, attempts); Min(Pow2(attempts), MAX_BACKOFF)
  }

  datatype Event = Event(processedAt: Option<int>, attempts: nat, availableAt: int, deadAt: Option<int>)

  type Events = map<int, Event>

  predicate Pending(e: Event) { e.processedAt.None? && e.deadAt.None? }

  function Available(events: Events, now: int): set<int> {
    set id | id in events && Pending(events[id]) && events[id].availableAt <= now
  }

  function Processed(e: Event, now: int): Event {
    e.(processedAt := Some(now))
  }

  // The row after a failure record of an exception at `at`, from the number of attempts read before.
  function Recorded(e: Event, attempts: nat, at: int): Event {
    if attempts + 1 >= MAX_ATTEMPTS then e.(attempts := attempts + 1, deadAt := Some(at))
    else e.(attempts := attempts + 1, availableAt := at + Backoff(attempts + 1))
  }

  function Failed(e: Event, now: int): Event {
    Recorded(e, e.attempts, now)
  }

  // ---------------------------------------------------------------- any number of consumers

  // A consumer that caught an exception does not know whether its commit went through (`landed`). It reads the row
  // without a lock, and then writes what it computed from it.
  datatype Consumer =
    | Idle
    | Holding(event: int, at: int)   // transaction open, row locked
    | Failing(event: int, landed: bool)
    | Recording(event: int, landed: bool, attempts: nat, at: int)
    | Crashed

  // `effects` counts the committed handler effects of each event.
  datatype World = World(now: int, events: Events, consumers: map<int, Consumer>, effects: map<int, nat>)

  // A commit reported as an error has gone through all the same; one that did not go through is a `Raise`. An exception
  // while recording a failure leaves `process_one`: it is a `Crash`, before the record or after it.
  datatype Step =
    | Tick(instant: int)
    | Publish(id: int, availableAt: int)
    | Start(c: int)
    | Claim(c: int)
    | Commit(c: int, reportedAsError: bool)
    | Raise(c: int)
    | Read(c: int)
    | RecordFailure(c: int)
    | Crash(c: int)

  ghost predicate Locked(s: World, id: int) {
    exists c :: c in s.consumers && s.consumers[c].Holding? && s.consumers[c].event == id
  }

  ghost function Claimable(s: World): set<int> {
    set id | id in Available(s.events, s.now) && !Locked(s, id)
  }

  ghost function Move(s: World, c: int, consumer: Consumer): World {
    s.(consumers := s.consumers[c := consumer])
  }

  // A step that is not enabled (including a failure record waiting for a row lock) changes nothing.
  ghost function Next(s: World, step: Step): World {
    match step
    case Tick(instant) => if instant >= s.now then s.(now := instant) else s
    case Publish(id, availableAt) =>
      if id in s.events then s
      else s.(events := s.events[id := Event(None, 0, availableAt, None)], effects := s.effects[id := 0])
    case Start(c) => if c in s.consumers && !s.consumers[c].Crashed? then s else Move(s, c, Idle)
    case Claim(c) =>
      if c !in s.consumers || !s.consumers[c].Idle? || Claimable(s) == {} then s
      else Move(s, c, Holding(MinOf(Claimable(s)), s.now))
    case Commit(c, reportedAsError) =>
      if c !in s.consumers || !s.consumers[c].Holding? || s.consumers[c].event !in s.events
         || s.consumers[c].event !in s.effects then s
      else
        var id := s.consumers[c].event;
        Move(s, c, if reportedAsError then Failing(id, true) else Idle).(
          events := s.events[id := Processed(s.events[id], s.consumers[c].at)],
          effects := s.effects[id := s.effects[id] + 1])
    case Raise(c) =>
      if c !in s.consumers || !s.consumers[c].Holding? then s else Move(s, c, Failing(s.consumers[c].event, false))
    case Read(c) =>
      if c !in s.consumers || !s.consumers[c].Failing? || s.consumers[c].event !in s.events then s
      else
        var id := s.consumers[c].event;
        Move(s, c, Recording(id, s.consumers[c].landed, s.events[id].attempts, s.now))
    case RecordFailure(c) =>
      if c !in s.consumers || !s.consumers[c].Recording? || s.consumers[c].event !in s.events
         || Locked(s, s.consumers[c].event) then s
      else
        var id := s.consumers[c].event;
        Move(s, c, Idle).(
          events := s.events[id := Recorded(s.events[id], s.consumers[c].attempts, s.consumers[c].at)])
    case Crash(c) =>
      if c !in s.consumers then s else Move(s, c, Crashed)
  }

  ghost function Run(s: World, steps: seq<Step>): World {
    if steps == [] then s else Next(Run(s, steps[..|steps| - 1]), steps[|steps| - 1])
  }

  function Init(now: int): World {
    World(now, map[], map[], map[])
  }

  ghost predicate EffectsMatch(s: World) {
    && s.effects.Keys == s.events.Keys
    && forall id :: id in s.events ==> s.effects[id] == if s.events[id].processedAt.Some? then 1 else 0
  }

  ghost predicate LocksHold(s: World) {
    forall c :: c in s.consumers && s.consumers[c].Holding? ==>
      s.consumers[c].event in s.events && Pending(s.events[s.consumers[c].event])
  }

  ghost predicate LocksExclude(s: World) {
    forall c, d ::
      (c in s.consumers && d in s.consumers && s.consumers[c].Holding? && s.consumers[d].Holding?
       && s.consumers[c].event == s.consumers[d].event) ==> c == d
  }

  ghost predicate Invariant(s: World) {
    EffectsMatch(s) && LocksHold(s) && LocksExclude(s)
  }

  lemma NextKeepsInvariant(s: World, step: Step)
    requires Invariant(s)
    ensures Invariant(Next(s, step))
  {
    var t := Next(s, step);
    if step.Claim? && t != s {
      var id := MinOf(Claimable(s));
      assert id in Claimable(s);
    }
    if step.Commit? && t != s {
      var id := s.consumers[step.c].event;
      assert s.events[id].processedAt.None?;
    }
  }

  lemma {:induction false} RunKeepsInvariant(start: int, steps: seq<Step>)
    ensures Invariant(Run(Init(start), steps))
  {
    if steps != [] {
      RunKeepsInvariant(start, steps[..|steps| - 1]);
      NextKeepsInvariant(Run(Init(start), steps[..|steps| - 1]), steps[|steps| - 1]);
    }
  }

  // Whatever the interleaving and the crashes, an event's handler effects commit at most once, and exactly
  // when it becomes processed.
  lemma EffectsCommitAtMostOnce(start: int, steps: seq<Step>, id: int)
    requires id in Run(Init(start), steps).events
    ensures var s := Run(Init(start), steps);
            && id in s.effects
            && s.effects[id] <= 1
            && (s.effects[id] == 1 <==> s.events[id].processedAt.Some?)
  {
    RunKeepsInvariant(start, steps);
  }

  lemma ClosedStaysClosed(s: World, step: Step, id: int)
    requires Invariant(s) && id in s.events && !Pending(s.events[id])
    ensures var t := Next(s, step);
            && id in t.events && !Pending(t.events[id])
            && t.events[id].processedAt == s.events[id].processedAt
            && t.effects[id] == s.effects[id]
            && !Locked(t, id)
  {
    NextKeepsInvariant(s, step);
    var t := Next(s, step);
    assert !Locked(s, id);
  }

  // A processed or dead-lettered event is never claimed again, and nothing more is ever committed for it.
  lemma {:induction false} ClosedIsNeverClaimed(start: int, before: seq<Step>, after: seq<Step>, id: int)
    requires id in Run(Init(start), before).events && !Pending(Run(Init(start), before).events[id])
    ensures var s := Run(Init(start), before);
            var t := Run(s, after);
            && Invariant(t)
            && id in s.effects && id in t.effects && t.effects[id] == s.effects[id]
            && id in t.events && t.events[id].processedAt == s.events[id].processedAt
            && !Pending(t.events[id])
            && !Locked(t, id)
    decreases |after|
  {
    RunKeepsInvariant(start, before);
    var s := Run(Init(start), before);
    if after == [] {
      assert !Locked(s, id);
    } else {
      ClosedIsNeverClaimed(start, before, after[..|after| - 1], id);
      var u := Run(s, after[..|after| - 1]);
      NextKeepsInvariant(u, after[|after| - 1]);
      ClosedStaysClosed(u, after[|after| - 1], id);
    }
  }

  // ---------------------------------------------------------------- when an event is due, and what each step writes

  // The instant an event is due: as published, and after its nth recorded failure, the ninth at most, 2^n seconds after
  // the row was read for the record.
  ghost function DueAt(start: int, steps: seq<Step>, id: int): int {
    if steps == [] then start
    else
      var before, last := steps[..|steps| - 1], steps[|steps| - 1];
      var s := Run(Init(start), before);
      if last.Publish? && last.id == id && id !in s.events then last.availableAt
      else if last.RecordFailure? && last.c in s.consumers && Writes(s, s.consumers[last.c], id) then
        s.consumers[last.c].at + Pow2(s.consumers[last.c].attempts + 1)
      else DueAt(start, before, id)
  }

  // The failure record that the consumer is about to write puts the event off.
  ghost predicate Writes(s: World, consumer: Consumer, id: int) {
    && consumer.Recording? && consumer.event == id && consumer.attempts + 1 < 10
    && id in s.events && !Locked(s, id)
  }

  lemma BackoffBelowTheLast(n: nat)
    requires n < MAX_ATTEMPTS
    ensures Backoff(n) == Pow2(n)
  {
  }

  // A failure record counts one attempt more than was read; below ten it puts the event off by 2^attempts seconds from
  // the reading, and the tenth dead-letters it instead. Nothing else of the row changes.
  lemma RecordEffect(s: World, c: int)
    requires c in s.consumers && s.consumers[c].Recording?
    requires s.consumers[c].event in s.events && !Locked(s, s.consumers[c].event)
    ensures var t := Next(s, RecordFailure(c));
            var id, n, at := s.consumers[c].event, s.consumers[c].attempts + 1, s.consumers[c].at;
            var e := s.events[id];
            && t.events == s.events[id :=
                 if n < 10 then Event(e.processedAt, n, at + Pow2(n), e.deadAt)
                 else Event(e.processedAt, n, e.availableAt, Some(at))]
            && t.consumers == s.consumers[c := Idle] && t.now == s.now && t.effects == s.effects
  {
    if s.consumers[c].attempts + 1 < MAX_ATTEMPTS {
      BackoffBelowTheLast(s.consumers[c].attempts + 1);
    }
  }

  // A commit marks the event as processed when it was claimed, counts its effects and changes nothing else; the reading
  // for a record takes the attempts of the row and the instant; raising and crashing leave every row alone.
  lemma HandlingEffects(s: World, c: int, reportedAsError: bool)
    requires c in s.consumers
    ensures s.consumers[c].Holding? && s.consumers[c].event in s.events && s.consumers[c].event in s.effects ==>
              var id, t := s.consumers[c].event, Next(s, Commit(c, reportedAsError));
              var e := s.events[id];
              && t.events == s.events[id := Event(Some(s.consumers[c].at), e.attempts, e.availableAt, e.deadAt)]
              && t.effects == s.effects[id := s.effects[id] + 1] && t.now == s.now
              && t.consumers == s.consumers[c := if reportedAsError then Failing(id, true) else Idle]
    ensures s.consumers[c].Holding? ==>
              Next(s, Raise(c)) == s.(consumers := s.consumers[c := Failing(s.consumers[c].event, false)])
    ensures s.consumers[c].Failing? && s.consumers[c].event in s.events ==>
              var id := s.consumers[c].event;
              Next(s, Read(c)) == s.(consumers :=
                s.consumers[c := Recording(id, s.consumers[c].landed, s.events[id].attempts, s.now)])
    ensures Next(s, Crash(c)) == s.(consumers := s.consumers[c := Crashed])
  {
  }

  // A consumer out of turn, a record waiting for a lock, and a second publication do nothing; time only moves on.
  lemma OutOfTurnNothing(s: World, c: int, reportedAsError: bool, id: int, availableAt: int, instant: int)
    ensures Next(s, Tick(instant)) == s.(now := Max(s.now, instant))
    ensures c !in s.consumers || !s.consumers[c].Idle? ==> Next(s, Claim(c)) == s
    ensures c !in s.consumers || !s.consumers[c].Holding? ==>
              Next(s, Commit(c, reportedAsError)) == s == Next(s, Raise(c))
    ensures c !in s.consumers || !s.consumers[c].Failing? ==> Next(s, Read(c)) == s
    ensures c !in s.consumers || !s.consumers[c].Recording? || Locked(s, s.consumers[c].event) ==>
              Next(s, RecordFailure(c)) == s
    ensures c in s.consumers && !s.consumers[c].Crashed? ==> Next(s, Start(c)) == s
    ensures c !in s.consumers ==> Next(s, Crash(c)) == s
    ensures c !in s.consumers || s.consumers[c].Crashed? ==>
              Next(s, Start(c)) == s.(consumers := s.consumers[c := Idle])
    ensures Next(s, Publish(id, availableAt)) ==
              if id in s.events then s
              else s.(events := s.events[id := Event(None, 0, availableAt, None)], effects := s.effects[id := 0])
  {
  }

  // The row tells when the event is due, for any number of consumers, unless it has been given up.
  ghost predicate RowTellsDue(s: World, due: int, id: int) {
    id in s.events && s.events[id].deadAt.None? ==> s.events[id].availableAt == due
  }

  lemma DueNext(s: World, step: Step, due: int, id: int)
    requires RowTellsDue(s, due, id)
    ensures RowTellsDue(Next(s, step),
              if step.Publish? && step.id == id && id !in s.events then step.availableAt
              else if step.RecordFailure? && step.c in s.consumers && Writes(s, s.consumers[step.c], id) then
                s.consumers[step.c].at + Pow2(s.consumers[step.c].attempts + 1)
              else due, id)
  {
    if step.RecordFailure? && step.c in s.consumers && s.consumers[step.c].Recording?
       && s.consumers[step.c].event in s.events && !Locked(s, s.consumers[step.c].event) {
      RecordEffect(s, step.c);
    }
  }

  lemma {:induction false} DueIsTold(start: int, steps: seq<Step>, id: int)
    ensures RowTellsDue(Run(Init(start), steps), DueAt(start, steps, id), id)
  {
    if steps != [] {
      var before := steps[..|steps| - 1];
      DueIsTold(start, before, id);
      DueNext(Run(Init(start), before), steps[|steps| - 1], DueAt(start, before, id), id);
    }
  }

  // An event that may be claimed: still pending, due by now, and locked by no consumer.
  ghost predicate Ripe(start: int, steps: seq<Step>, id: int) {
    var s := Run(Init(start), steps);
    && id in s.events && s.events[id].processedAt.None? && s.events[id].deadAt.None? && DueAt(start, steps, id) <= s.now
    && !exists d :: d in s.consumers && s.consumers[d].Holding? && s.consumers[d].event == id
  }

  // Over any run of any number of consumers, an idle consumer claims the lowest event that is ripe; so no event is
  // claimed before it was to be published, nor sooner than 2^n seconds after its nth failure was read.
  lemma ClaimsLowestRipe(start: int, steps: seq<Step>, c: int)
    requires c in Run(Init(start), steps).consumers && Run(Init(start), steps).consumers[c].Idle?
    ensures var s := Run(Init(start), steps);
            var t := Next(s, Claim(c));
            && (forall id :: t.consumers == s.consumers[c := Holding(id, s.now)] <==>
                  Ripe(start, steps, id) && forall other :: Ripe(start, steps, other) ==> id <= other)
            && ((forall id :: !Ripe(start, steps, id)) ==> t == s)
            && t == s.(consumers := t.consumers)
  {
    var s := Run(Init(start), steps);
    forall id ensures id in Claimable(s) <==> Ripe(start, steps, id) {
      DueIsTold(start, steps, id);
    }
    var t := Next(s, Claim(c));
    if Claimable(s) == {} {
      forall id ensures t.consumers != s.consumers[c := Holding(id, s.now)] && !Ripe(start, steps, id) {
        assert s.consumers[c := Holding(id, s.now)][c].Holding?;
      }
    } else {
      var first := MinOf(Claimable(s));
      assert Ripe(start, steps, first);
      forall id | t.consumers == s.consumers[c := Holding(id, s.now)] ensures id == first {
        assert t.consumers[c] == Holding(id, s.now);
      }
    }
  }

  // ---------------------------------------------------------------- how claims end

  ghost predicate On(s: World, c: int, id: int) {
    && c in s.consumers
    && (s.consumers[c].Holding? || s.consumers[c].Failing? || s.consumers[c].Recording?)
    && s.consumers[c].event == id
  }

  ghost function InHand(s: World, id: int): set<int> {
    set c | c in s.consumers && On(s, c, id)
  }

  // What a run did with one event: how often it was claimed, and so handled, and how often a claim ended in an
  // acknowledged commit, in a recorded failure, or in a crash.
  datatype Tally = Tally(claims: nat, acknowledged: nat, failures: nat, crashes: nat)

  ghost predicate Claims(s: World, step: Step, id: int) {
    && step.Claim? && step.c in s.consumers && s.consumers[step.c].Idle?
    && Claimable(s) != {} && MinOf(Claimable(s)) == id
  }

  ghost predicate Acknowledges(s: World, step: Step, id: int) {
    step.Commit? && !step.reportedAsError && On(s, step.c, id) && s.consumers[step.c].Holding?
  }

  ghost predicate Records(s: World, step: Step, id: int) {
    step.RecordFailure? && On(s, step.c, id) && s.consumers[step.c].Recording? && id in s.events && !Locked(s, id)
  }

  ghost predicate Loses(s: World, step: Step, id: int) {
    step.Crash? && On(s, step.c, id)
  }

  ghost function Counted(t: Tally, s: World, step: Step, id: int): Tally {
    if Claims(s, step, id) then t.(claims := t.claims + 1)
    else if Acknowledges(s, step, id) then t.(acknowledged := t.acknowledged + 1)
    else if Records(s, step, id) then t.(failures := t.failures + 1)
    else if Loses(s, step, id) then t.(crashes := t.crashes + 1)
    else t
  }

  ghost function Tallied(start: int, steps: seq<Step>, id: int): Tally {
    if steps == [] then Tally(0, 0, 0, 0)
    else
      var before := steps[..|steps| - 1];
      Counted(Tallied(start, before, id), Run(Init(start), before), steps[|steps| - 1], id)
  }

  // Every claim is still in hand or has ended in exactly one way.
  ghost predicate EndingsBalanced(s: World, t: Tally, id: int) {
    t.claims == t.acknowledged + t.failures + t.crashes + |InHand(s, id)|
  }

  ghost predicate AcknowledgedCommitted(s: World, t: Tally, id: int) {
    t.acknowledged <= if id in s.effects then s.effects[id] else 0
  }

  // The row never counts more failures than were recorded, and a dead letter means ten of them.
  ghost predicate FailuresBounded(s: World, t: Tally, id: int) {
    && (id in s.events ==>
          && s.events[id].attempts <= t.failures
          && (s.events[id].deadAt.Some? ==> t.failures >= MAX_ATTEMPTS))
    && forall c :: On(s, c, id) && s.consumers[c].Recording? ==> s.consumers[c].attempts <= t.failures
  }

  ghost predicate Ends(s: World, step: Step, id: int) {
    Acknowledges(s, step, id) || Records(s, step, id) || Loses(s, step, id)
  }

  ghost function Taker(s: World, step: Step, id: int): set<int> {
    if Claims(s, step, id) then {step.c} else {}
  }

  ghost function Leaver(s: World, step: Step, id: int): set<int> {
    if Ends(s, step, id) then {step.c} else {}
  }

  ghost predicate Exchanged(s: World, t: World, gone: set<int>, come: set<int>, id: int) {
    forall c :: On(t, c, id) <==> (On(s, c, id) && c !in gone) || c in come
  }

  lemma InHandNext(s: World, step: Step, id: int)
    requires Invariant(s)
    ensures Exchanged(s, Next(s, step), Leaver(s, step, id), Taker(s, step, id), id)
  {
  }

  lemma ExchangeSize(s: World, t: World, gone: set<int>, come: set<int>, id: int)
    requires Exchanged(s, t, gone, come, id)
    requires gone <= InHand(s, id) && come !! InHand(s, id)
    ensures |InHand(t, id)| == |InHand(s, id)| + |come| - |gone|
  {
    var left := (InHand(s, id) - gone) + come;
    forall c ensures c in InHand(t, id) <==> c in left {
      assert On(t, c, id) <==> (On(s, c, id) && c !in gone) || c in come;
    }
    assert InHand(t, id) == left;
    assert InHand(s, id) == (InHand(s, id) - gone) + gone;
  }

  lemma EndingsBalance(s: World, t: Tally, step: Step, id: int)
    requires Invariant(s) && EndingsBalanced(s, t, id)
    ensures EndingsBalanced(Next(s, step), Counted(t, s, step, id), id)
  {
    InHandNext(s, step, id);
    assert Leaver(s, step, id) <= InHand(s, id) && Taker(s, step, id) !! InHand(s, id);
    ExchangeSize(s, Next(s, step), Leaver(s, step, id), Taker(s, step, id), id);
  }

  lemma FailuresBound(s: World, t: Tally, step: Step, id: int)
    requires FailuresBounded(s, t, id)
    ensures FailuresBounded(Next(s, step), Counted(t, s, step, id), id)
  {
  }

  lemma AcknowledgedCommits(s: World, t: Tally, step: Step, id: int)
    requires Invariant(s) && AcknowledgedCommitted(s, t, id)
    ensures AcknowledgedCommitted(Next(s, step), Counted(t, s, step, id), id)
  {
  }

  // Over any run of any number of consumers, every claim of an event ends in one acknowledged commit, one recorded
  // failure or one crash, or is still in hand; and a dead letter means that at least ten failures were recorded.
  lemma {:induction false} ClaimsAreConserved(start: int, steps: seq<Step>, id: int)
    ensures var s := Run(Init(start), steps);
            var t := Tallied(start, steps, id);
            EndingsBalanced(s, t, id) && AcknowledgedCommitted(s, t, id) && FailuresBounded(s, t, id)
  {
    if steps == [] {
      assert InHand(Init(start), id) == {};
    } else {
      var before := steps[..|steps| - 1];
      var s, t, step := Run(Init(start), before), Tallied(start, before, id), steps[|steps| - 1];
      ClaimsAreConserved(start, before, id);
      RunKeepsInvariant(start, before);
      EndingsBalance(s, t, step, id);
      AcknowledgedCommits(s, t, step, id);
      FailuresBound(s, t, step, id);
    }
  }

  // ---------------------------------------------------------------- runs that reach the bounds

  ghost predicate NamesOnly(steps: seq<Step>, c: int) {
    forall k :: 0 <= k < |steps| ==> steps[k].Tick? || steps[k].Publish? || steps[k].c == c
  }

  // No commit of the run went through and was reported as an error.
  ghost predicate AllAcknowledged(steps: seq<Step>) {
    forall k :: 0 <= k < |steps| && steps[k].Commit? ==> !steps[k].reportedAsError
  }

  // Naming one consumer and having every commit acknowledged carry over.
  ghost predicate Alike(steps: seq<Step>, more: seq<Step>) {
    (NamesOnly(steps, 1) ==> NamesOnly(more, 1)) && (AllAcknowledged(steps) ==> AllAcknowledged(more))
  }

  ghost predicate Ready(s: World, id: int, attempts: nat) {
    && s.events.Keys == {id} == s.effects.Keys
    && Pending(s.events[id]) && s.events[id].attempts == attempts && s.events[id].availableAt <= s.now
    && s.consumers == map[1 := Idle]
  }

  lemma Then(steps: seq<Step>, step: Step, id: int) returns (more: seq<Step>)
    ensures more == steps + [step]
    ensures Run(Init(0), more) == Next(Run(Init(0), steps), step)
    ensures Tallied(0, more, id) == Counted(Tallied(0, steps, id), Run(Init(0), steps), step, id)
    ensures NamesOnly(steps, 1) && (step.Tick? || step.Publish? || step.c == 1) ==> NamesOnly(more, 1)
    ensures AllAcknowledged(steps) && (step.Commit? ==> !step.reportedAsError) ==> AllAcknowledged(more)
  {
    more := steps + [step];
    assert more[..|more| - 1] == steps;
  }

  lemma ClaimTheOnlyEvent(s: World, id: int, c: int)
    requires s.events.Keys == {id} && Pending(s.events[id]) && s.events[id].availableAt <= s.now
    requires c in s.consumers && s.consumers[c].Idle? && !Locked(s, id)
    ensures Next(s, Claim(c)) == Move(s, c, Holding(id, s.now)) && Claims(s, Claim(c), id)
  {
    assert Claimable(s) == {id};
  }

  lemma ClaimAlone(steps: seq<Step>, id: int, attempts: nat) returns (more: seq<Step>)
    requires Ready(Run(Init(0), steps), id, attempts)
    ensures Alike(steps, more)
    ensures var s := Run(Init(0), steps); Run(Init(0), more) == s.(consumers := map[1 := Holding(id, s.now)])
    ensures var t := Tallied(0, steps, id); Tallied(0, more, id) == t.(claims := t.claims + 1)
  {
    var s := Run(Init(0), steps);
    ClaimTheOnlyEvent(s, id, 1);
    more := Then(steps, Claim(1), id);
    assert s.consumers[1 := Holding(id, s.now)] == map[1 := Holding(id, s.now)];
  }

  // From a caught exception on: read the row, write the record.
  lemma RecordAlone(steps: seq<Step>, id: int, landed: bool) returns (more: seq<Step>)
    requires var s := Run(Init(0), steps); id in s.events && s.consumers == map[1 := Failing(id, landed)]
    ensures Alike(steps, more)
    ensures var s := Run(Init(0), steps);
            Run(Init(0), more) == s.(consumers := map[1 := Idle], events := s.events[id := Failed(s.events[id], s.now)])
    ensures var t := Tallied(0, steps, id); Tallied(0, more, id) == t.(failures := t.failures + 1)
  {
    var s := Run(Init(0), steps);
    more := Then(steps, Read(1), id);
    var s1 := Run(Init(0), more);
    assert s1.consumers == map[1 := Recording(id, landed, s.events[id].attempts, s.now)];
    assert !Locked(s1, id);
    more := Then(more, RecordFailure(1), id);
    assert s1.consumers[1 := Idle] == map[1 := Idle];
  }

  lemma FailOnce(steps: seq<Step>, id: int, attempts: nat) returns (more: seq<Step>)
    requires Ready(Run(Init(0), steps), id, attempts) && attempts + 1 < MAX_ATTEMPTS
    ensures Ready(Run(Init(0), more), id, attempts + 1) && Alike(steps, more)
    ensures var t := Tallied(0, steps, id);
            Tallied(0, more, id) == t.(claims := t.claims + 1, failures := t.failures + 1)
  {
    var now := Run(Init(0), steps).now;
    more := ClaimAlone(steps, id, attempts);
    more := Then(more, Raise(1), id);
    assert Run(Init(0), more).consumers == map[1 := Failing(id, false)];
    more := RecordAlone(more, id, false);
    more := Then(more, Tick(now + MAX_BACKOFF), id);
  }

  lemma CrashOnce(steps: seq<Step>, id: int, attempts: nat) returns (more: seq<Step>)
    requires Ready(Run(Init(0), steps), id, attempts)
    ensures Ready(Run(Init(0), more), id, attempts) && Alike(steps, more)
    ensures var t := Tallied(0, steps, id);
            Tallied(0, more, id) == t.(claims := t.claims + 1, crashes := t.crashes + 1)
  {
    more := ClaimAlone(steps, id, attempts);
    more := Then(more, Crash(1), id);
    assert Run(Init(0), more).consumers == map[1 := Crashed];
    more := Then(more, Start(1), id);
    assert Run(Init(0), more).consumers == map[1 := Idle];
  }

  lemma Begin(id: int) returns (steps: seq<Step>)
    ensures Ready(Run(Init(0), steps), id, 0) && NamesOnly(steps, 1) && AllAcknowledged(steps)
    ensures Tallied(0, steps, id) == Tally(0, 0, 0, 0)
  {
    steps := Then([], Start(1), id);
    assert Run(Init(0), steps) == World(0, map[], map[1 := Idle], map[]);
    steps := Then(steps, Publish(id, 0), id);
  }

  // One consumer alone can bring an event to any number of failures below ten and any number of crashes.
  lemma {:induction false} Reach(id: int, attempts: nat, crashes: nat) returns (steps: seq<Step>)
    requires attempts < MAX_ATTEMPTS
    ensures Ready(Run(Init(0), steps), id, attempts) && NamesOnly(steps, 1) && AllAcknowledged(steps)
    ensures Tallied(0, steps, id) == Tally(attempts + crashes, 0, attempts, crashes)
    decreases attempts + crashes
  {
    if attempts > 0 {
      steps := Reach(id, attempts - 1, crashes);
      steps := FailOnce(steps, id, attempts - 1);
    } else if crashes > 0 {
      steps := Reach(id, attempts, crashes - 1);
      steps := CrashOnce(steps, id, attempts);
    } else {
      steps := Begin(id);
    }
  }

  // ---------------------------------------------------------------- processed and dead-lettered

  ghost predicate Both(s: World, id: int) {
    id in s.events && s.events[id].processedAt.Some? && s.events[id].deadAt.Some?
  }

  // The one step that leaves a processed event dead-lettered too: it was read as having nine failures behind it.
  ghost predicate LateTenthRecord(s: World, step: Step, id: int) {
    && step.RecordFailure? && On(s, step.c, id) && s.consumers[step.c].Recording?
    && s.consumers[step.c].attempts + 1 >= MAX_ATTEMPTS
    && id in s.events && s.events[id].processedAt.Some?
  }

  // From any reachable world, an event becomes both processed and dead-lettered exactly by the record of a failure,
  // read as its tenth, written after the event was processed: the record does not look at the row again.
  lemma {:induction false} BothExactly(start: int, steps: seq<Step>, step: Step, id: int)
    requires !Both(Run(Init(start), steps), id)
    ensures Both(Next(Run(Init(start), steps), step), id) <==> LateTenthRecord(Run(Init(start), steps), step, id)
  {
    RunKeepsInvariant(start, steps);
    BothStep(Run(Init(start), steps), step, id);
  }

  lemma BothStep(s: World, step: Step, id: int)
    requires Invariant(s) && !Both(s, id)
    ensures Both(Next(s, step), id) <==> LateTenthRecord(s, step, id)
  {
    assert id in s.events && s.events[id].processedAt.Some? ==> !Locked(s, id);
  }

  // The second consumer claims and processes the event between the first one's failure and its record of it.
  lemma Overtaken(steps: seq<Step>, id: int, attempts: nat) returns (more: seq<Step>)
    requires Ready(Run(Init(0), steps), id, attempts)
    ensures AllAcknowledged(steps) ==> AllAcknowledged(more)
    ensures var s := Run(Init(0), more);
            && s.consumers == map[1 := Recording(id, false, attempts, s.now), 2 := Idle]
            && id in s.events && s.events[id].processedAt.Some?
  {
    more := BothClaim(steps, id, attempts);
    var s := Run(Init(0), more);
    more := Then(more, Commit(2, false), id);
    assert Run(Init(0), more).consumers == map[1 := Failing(id, false), 2 := Idle];
    more := Then(more, Read(1), id);
    assert Run(Init(0), more).consumers == map[1 := Recording(id, false, attempts, s.now), 2 := Idle];
  }

  // One consumer has failed on the event and a second has claimed it before the failure is recorded.
  lemma BothClaim(steps: seq<Step>, id: int, attempts: nat) returns (more: seq<Step>)
    requires Ready(Run(Init(0), steps), id, attempts)
    ensures AllAcknowledged(steps) ==> AllAcknowledged(more)
    ensures var s := Run(Init(0), steps);
            Run(Init(0), more) == s.(consumers := map[1 := Failing(id, false), 2 := Holding(id, s.now)])
    ensures Tallied(0, more, id).failures == Tallied(0, steps, id).failures
  {
    more := ClaimAlone(steps, id, attempts);
    more := Then(more, Raise(1), id);
    more := Then(more, Start(2), id);
    var s := Run(Init(0), more);
    assert s.consumers == map[1 := Failing(id, false), 2 := Idle];
    ClaimTheOnlyEvent(s, id, 2);
    more := Then(more, Claim(2), id);
    assert s.consumers[2 := Holding(id, s.now)] == map[1 := Failing(id, false), 2 := Holding(id, s.now)];
  }

  // With two consumers a reachable event is both processed and dead-lettered, though every commit was acknowledged.
  lemma TwoConsumersCanDeadLetterProcessed(id: int) returns (steps: seq<Step>)
    ensures Both(Run(Init(0), steps), id) && AllAcknowledged(steps)
  {
    steps := Reach(id, MAX_ATTEMPTS - 1, 0);
    steps := Overtaken(steps, id, MAX_ATTEMPTS - 1);
    var s := Run(Init(0), steps);
    assert !Locked(s, id);
    steps := Then(steps, RecordFailure(1), id);
  }

  // Both have failed, and both read the row before either writes.
  lemma BothFail(steps: seq<Step>, id: int, attempts: nat) returns (more: seq<Step>)
    requires Ready(Run(Init(0), steps), id, attempts)
    ensures Run(Init(0), more)
         == Run(Init(0), steps).(consumers := map[1 := Failing(id, false), 2 := Failing(id, false)])
    ensures Tallied(0, more, id).failures == Tallied(0, steps, id).failures
  {
    more := BothClaim(steps, id, attempts);
    more := Then(more, Raise(2), id);
    assert Run(Init(0), more).consumers == map[1 := Failing(id, false), 2 := Failing(id, false)];
  }

  lemma BothRead(steps: seq<Step>, id: int) returns (more: seq<Step>)
    requires var s := Run(Init(0), steps);
             id in s.events && s.consumers == map[1 := Failing(id, false), 2 := Failing(id, false)]
    ensures var s := Run(Init(0), steps);
            var read := Recording(id, false, s.events[id].attempts, s.now);
            Run(Init(0), more) == s.(consumers := map[1 := read, 2 := read])
    ensures Tallied(0, more, id).failures == Tallied(0, steps, id).failures
  {
    var s := Run(Init(0), steps);
    var read := Recording(id, false, s.events[id].attempts, s.now);
    more := Then(steps, Read(1), id);
    assert Run(Init(0), more).consumers == map[1 := read, 2 := Failing(id, false)];
    more := Then(more, Read(2), id);
    assert Run(Init(0), more).consumers == map[1 := read, 2 := read];
  }

  // Two failures recorded from the same reading of the row count as one attempt.
  lemma ConcurrentFailuresCountOnce(id: int) returns (steps: seq<Step>)
    ensures var s := Run(Init(0), steps);
            id in s.events && s.events[id].attempts == 1 && Tallied(0, steps, id).failures == 2
  {
    steps := Reach(id, 0, 0);
    steps := BothFail(steps, id, 0);
    steps := BothRead(steps, id);
    assert !Locked(Run(Init(0), steps), id);
    steps := Then(steps, RecordFailure(1), id);
    assert !Locked(Run(Init(0), steps), id);
    steps := Then(steps, RecordFailure(2), id);
  }

  // ---------------------------------------------------------------- a single consumer

  // What its row and its memory say of an event it works on: the failures recorded are the attempts, it has not given
  // up on the event, and it has processed it exactly if it holds a commit that went through.
  ghost predicate KnowsRow(s: World, t: Tally, c: int, id: int) {
    On(s, c, id) ==>
      && id in s.events && s.events[id].deadAt.None? && t.acknowledged == 0
      && (s.events[id].processedAt.Some? <==> !s.consumers[c].Holding? && s.consumers[c].landed)
      && (s.consumers[c].Recording? ==> s.consumers[c].attempts == s.events[id].attempts)
  }

  ghost predicate RowKnows(s: World, t: Tally, id: int) {
    && (id !in s.events ==> t.failures == 0 == t.acknowledged)
    && (id in s.events ==>
          && s.events[id].attempts == t.failures <= MAX_ATTEMPTS
          && (s.events[id].deadAt.Some? <==> t.failures == MAX_ATTEMPTS)
          && (t.acknowledged > 0 ==> s.events[id].processedAt.Some? && s.events[id].deadAt.None?))
  }

  ghost predicate OneConsumer(s: World, t: Tally, c: int, id: int) {
    (forall d :: d in s.consumers ==> d == c) && KnowsRow(s, t, c, id) && RowKnows(s, t, id)
  }

  lemma OneConsumerStays(s: World, t: Tally, step: Step, c: int, id: int)
    requires Invariant(s) && OneConsumer(s, t, c, id) && (step.Tick? || step.Publish? || step.c == c)
    ensures OneConsumer(Next(s, step), Counted(t, s, step, id), c, id)
  {
    assert id in s.events && !Pending(s.events[id]) ==> !Locked(s, id);
  }

  lemma {:induction false} OneConsumerRuns(start: int, steps: seq<Step>, c: int, id: int)
    requires NamesOnly(steps, c)
    ensures OneConsumer(Run(Init(start), steps), Tallied(start, steps, id), c, id)
  {
    if steps != [] {
      var before := steps[..|steps| - 1];
      OneConsumerRuns(start, before, c, id);
      RunKeepsInvariant(start, before);
      OneConsumerStays(Run(Init(start), before), Tallied(start, before, id), steps[|steps| - 1], c, id);
    }
  }

  // With a single consumer, an event becomes both exactly by the tenth failure record when the exception it records
  // came from a commit that had gone through.
  lemma OneConsumerBothExactly(start: int, steps: seq<Step>, step: Step, c: int, id: int)
    requires NamesOnly(steps, c) && !Both(Run(Init(start), steps), id)
    ensures var s := Run(Init(start), steps);
            Both(Next(s, step), id) <==>
              && step == RecordFailure(c) && On(s, c, id) && s.consumers[c].Recording? && s.consumers[c].landed
              && id in s.events && s.events[id].attempts + 1 >= MAX_ATTEMPTS
  {
    OneConsumerRuns(start, steps, c, id);
    BothExactly(start, steps, step, id);
  }

  ghost predicate NothingLanded(s: World) {
    forall c :: c in s.consumers && (s.consumers[c].Failing? || s.consumers[c].Recording?) ==> !s.consumers[c].landed
  }

  lemma {:induction false} AcknowledgedLeaveNothing(start: int, steps: seq<Step>)
    requires AllAcknowledged(steps)
    ensures NothingLanded(Run(Init(start), steps))
  {
    if steps != [] {
      AcknowledgedLeaveNothing(start, steps[..|steps| - 1]);
    }
  }

  // With a single consumer whose commits are all acknowledged, no event is ever both, crashes and restarts included.
  lemma {:induction false} OneConsumerNeverBoth(start: int, steps: seq<Step>, c: int, id: int)
    requires NamesOnly(steps, c) && AllAcknowledged(steps)
    ensures !Both(Run(Init(start), steps), id)
  {
    if steps != [] {
      var before := steps[..|steps| - 1];
      OneConsumerNeverBoth(start, before, c, id);
      AcknowledgedLeaveNothing(start, before);
      OneConsumerBothExactly(start, before, steps[|steps| - 1], c, id);
    }
  }

  // Without a crash, one consumer dead-letters an event whose tenth handling it had committed.
  lemma OneConsumerCanDeadLetterProcessed(id: int) returns (steps: seq<Step>)
    ensures Both(Run(Init(0), steps), id) && NamesOnly(steps, 1) && Tallied(0, steps, id).crashes == 0
  {
    steps := Reach(id, MAX_ATTEMPTS - 1, 0);
    steps := ClaimAlone(steps, id, MAX_ATTEMPTS - 1);
    steps := Then(steps, Commit(1, true), id);
    assert Run(Init(0), steps).consumers == map[1 := Failing(id, true)];
    steps := RecordAlone(steps, id, true);
  }

  // A single consumer handles an event once for each attempt on record, each claim lost to a crash and the acknowledged
  // commit, if there is one: at most ten times more often than it crashes on it.
  lemma OneConsumerHandles(start: int, steps: seq<Step>, c: int, id: int)
    requires NamesOnly(steps, c) && id in Run(Init(start), steps).events
    ensures var s := Run(Init(start), steps);
            var t := Tallied(start, steps, id);
            && t.claims == s.events[id].attempts + t.acknowledged + t.crashes + (if On(s, c, id) then 1 else 0)
            && t.acknowledged <= (if s.events[id].processedAt.Some? then 1 else 0)
            && t.claims <= MAX_ATTEMPTS + t.crashes
  {
    var s := Run(Init(start), steps);
    ClaimsAreConserved(start, steps, id);
    OneConsumerRuns(start, steps, c, id);
    EffectsCommitAtMostOnce(start, steps, id);
    assert InHand(s, id) == if On(s, c, id) then {c} else {};
  }

  ghost predicate Handles(start: int, steps: seq<Step>, c: int, id: int, claims: nat, crashes: nat) {
    NamesOnly(steps, c) && Tallied(start, steps, id).claims == claims && Tallied(start, steps, id).crashes == crashes
  }

  // Some run of a single consumer handles an event n times, k of them ended by a crash, exactly for k <= n <= k + 10.
  // So more than ten handlings take a crash, and crashes allow any number of them.
  lemma HandlingsPossibleExactly(id: int, claims: nat, crashes: nat)
    ensures (exists start, steps, c :: Handles(start, steps, c, id, claims, crashes))
       <==> crashes <= claims <= crashes + MAX_ATTEMPTS
  {
    forall start, steps, c | Handles(start, steps, c, id, claims, crashes)
      ensures crashes <= claims <= crashes + MAX_ATTEMPTS
    {
      ClaimsAreConserved(start, steps, id);
      OneConsumerRuns(start, steps, c, id);
      if id in Run(Init(start), steps).events {
        OneConsumerHandles(start, steps, c, id);
      } else {
        assert InHand(Run(Init(start), steps), id) == {};
      }
    }
    if crashes <= claims <= crashes + MAX_ATTEMPTS {
      var steps;
      if claims < crashes + MAX_ATTEMPTS {
        steps := Reach(id, claims - crashes, crashes);
      } else {
        steps := Reach(id, MAX_ATTEMPTS - 1, crashes);
        steps := ClaimAlone(steps, id, MAX_ATTEMPTS - 1);
      }
      assert Handles(0, steps, 1, id, claims, crashes);
    }
  }

  // ---------------------------------------------------------------- one crash-free consumer

  // What becomes of one handling: the commit is acknowledged, an exception rolls it back, or it goes through and is
  // reported as an error, so that a failure is recorded for a processed event.
  datatype Handling = Succeeds | Raises | Misreported

  // `handled` lists every attempt in order, whatever came of it; `misreported` the events with a misreported commit.
  datatype Queue = Queue(now: int, events: Events, handled: seq<int>, misreported: set<int>)

  datatype QueueOp =
    | Wait(instant: int)
    | Append(id: int, availableAt: int)
    | Process(handling: Handling)

  function Attempted(e: Event, now: int, handling: Handling): Event {
    match handling
    case Succeeds => Processed(e, now)
    case Raises => Failed(e, now)
    case Misreported => Failed(Processed(e, now), now)
  }

  function ProcessNext(q: Queue, handling: Handling): Queue {
    if Available(q.events, q.now) == {} then q
    else
      var id := MinOf(Available(q.events, q.now));
      q.(events := q.events[id := Attempted(q.events[id], q.now, handling)],
         handled := q.handled + [id],
         misreported := if handling.Misreported? then q.misreported + {id} else q.misreported)
  }

  function QueueNext(q: Queue, op: QueueOp): Queue {
    match op
    case Wait(instant) => if instant >= q.now then q.(now := instant) else q
    case Append(id, availableAt) =>
      if id in q.events then q else q.(events := q.events[id := Event(None, 0, availableAt, None)])
    case Process(handling) => ProcessNext(q, handling)
  }

  function QueueRun(q: Queue, ops: seq<QueueOp>): Queue {
    if ops == [] then q else QueueNext(QueueRun(q, ops[..|ops| - 1]), ops[|ops| - 1])
  }

  function EmptyQueue(now: int): Queue {
    Queue(now, map[], [], {})
  }

  // The consumer alone in the world above: no other consumer, no lock left over.
  ghost predicate Alone(s: World, q: Queue) {
    s.now == q.now && s.events == q.events && s.consumers == map[1 := Idle] && s.events.Keys <= s.effects.Keys
  }

  // Its steps, from the claim on, for one handling.
  ghost function Handled(s: World, handling: Handling): World {
    var held := Next(s, Claim(1));
    match handling
    case Succeeds => Next(held, Commit(1, false))
    case Raises => Next(Next(Next(held, Raise(1)), Read(1)), RecordFailure(1))
    case Misreported => Next(Next(Next(held, Commit(1, true)), Read(1)), RecordFailure(1))
  }

  lemma RecordIsFailed(s: World, id: int, landed: bool)
    requires id in s.events && s.consumers == map[1 := Failing(id, landed)]
    ensures Next(Next(s, Read(1)), RecordFailure(1))
         == s.(consumers := map[1 := Idle], events := s.events[id := Failed(s.events[id], s.now)])
  {
    var read := Next(s, Read(1));
    assert read.consumers == map[1 := Recording(id, landed, s.events[id].attempts, s.now)];
    assert !Locked(read, id);
    assert read.consumers[1 := Idle] == map[1 := Idle];
  }

  // Its claim and what follows, whichever way the handling ends, are the one sequential operation.
  lemma ProcessIsClaimThenClose(s: World, q: Queue, handling: Handling)
    requires Alone(s, q)
    ensures Alone(Handled(s, handling), ProcessNext(q, handling))
  {
    assert Claimable(s) == Available(s.events, s.now);
    if Available(s.events, s.now) != {} {
      var id := MinOf(Claimable(s));
      var held := Next(s, Claim(1));
      assert held.consumers == map[1 := Holding(id, s.now)];
      match handling {
        case Succeeds =>
          assert Next(held, Commit(1, false)).consumers == map[1 := Idle];
        case Raises =>
          assert Next(held, Raise(1)).consumers == map[1 := Failing(id, false)];
          RecordIsFailed(Next(held, Raise(1)), id, false);
        case Misreported =>
          assert Next(held, Commit(1, true)).consumers == map[1 := Failing(id, true)];
          RecordIsFailed(Next(held, Commit(1, true)), id, true);
      }
    }
  }

  // What one handling does to the lowest available event, and to nothing else.
  lemma ProcessEffect(q: Queue, handling: Handling, id: int)
    requires id in q.events && Pending(q.events[id]) && q.events[id].availableAt <= q.now
    requires forall other :: other in q.events && Pending(q.events[other]) && q.events[other].availableAt <= q.now ==>
               id <= other
    ensures var p := QueueNext(q, Process(handling));
            var e := q.events[id];
            var n := e.attempts + 1;
            var processedAt := if handling.Raises? then None else Some(q.now);
            && p.events == q.events[id :=
                 if handling.Succeeds? then Event(processedAt, e.attempts, e.availableAt, None)
                 else if n < 10 then Event(processedAt, n, q.now + Pow2(n), None)
                 else Event(processedAt, n, e.availableAt, Some(q.now))]
            && p.handled == q.handled + [id] && p.now == q.now
            && p.misreported == q.misreported + (if handling.Misreported? then {id} else {})
  {
    assert id in Available(q.events, q.now);
    assert MinOf(Available(q.events, q.now)) == id;
    if q.events[id].attempts + 1 < MAX_ATTEMPTS {
      BackoffBelowTheLast(q.events[id].attempts + 1);
    }
  }

  // The steps of the lone consumer, and of the world around it, that make up one operation on its queue.
  ghost function StepsOf(op: QueueOp): seq<Step> {
    match op
    case Wait(instant) => [Tick(instant)]
    case Append(id, availableAt) => [Publish(id, availableAt)]
    case Process(Succeeds) => [Claim(1), Commit(1, false)]
    case Process(Raises) => [Claim(1), Raise(1), Read(1), RecordFailure(1)]
    case Process(Misreported) => [Claim(1), Commit(1, true), Read(1), RecordFailure(1)]
  }

  ghost function AllStepsOf(ops: seq<QueueOp>): seq<Step> {
    if ops == [] then [Start(1)] else AllStepsOf(ops[..|ops| - 1]) + StepsOf(ops[|ops| - 1])
  }

  lemma {:induction false} RunAppend(s: World, a: seq<Step>, b: seq<Step>)
    ensures Run(s, a + b) == Run(Run(s, a), b)
    decreases |b|
  {
    if b == [] {
      assert a + b == a;
    } else {
      RunAppend(s, a, b[..|b| - 1]);
      assert (a + b)[..|a + b| - 1] == a + b[..|b| - 1];
    }
  }

  lemma RunTwo(s: World, a: Step, b: Step)
    ensures Run(s, [a, b]) == Next(Next(s, a), b)
  {
    assert [a, b][..1] == [a] && [a][..0] == [];
    assert Run(s, [a]) == Next(s, a);
  }

  lemma RunOp(s: World, op: QueueOp)
    ensures op.Wait? ==> Run(s, StepsOf(op)) == Next(s, Tick(op.instant))
    ensures op.Append? ==> Run(s, StepsOf(op)) == Next(s, Publish(op.id, op.availableAt))
    ensures op.Process? ==> Run(s, StepsOf(op)) == Handled(s, op.handling)
  {
    var steps := StepsOf(op);
    if |steps| == 1 {
      assert steps[..0] == [];
    } else if |steps| == 2 {
      RunTwo(s, steps[0], steps[1]);
    } else {
      assert steps == [steps[0], steps[1]] + [steps[2], steps[3]];
      RunAppend(s, [steps[0], steps[1]], [steps[2], steps[3]]);
      RunTwo(s, steps[0], steps[1]);
      RunTwo(Next(Next(s, steps[0]), steps[1]), steps[2], steps[3]);
    }
  }

  // Every run of the queue is the run of one consumer alone in the world, operation by operation.
  lemma {:induction false} QueueRunsInTheWorld(start: int, ops: seq<QueueOp>)
    ensures Alone(Run(Init(start), AllStepsOf(ops)), QueueRun(EmptyQueue(start), ops))
  {
    if ops == [] {
      assert [Start(1)][..0] == [];
      assert Run(Init(start), [Start(1)]) == Move(Init(start), 1, Idle);
    } else {
      var before, op := ops[..|ops| - 1], ops[|ops| - 1];
      var s, q := Run(Init(start), AllStepsOf(before)), QueueRun(EmptyQueue(start), before);
      QueueRunsInTheWorld(start, before);
      RunAppend(Init(start), AllStepsOf(before), StepsOf(op));
      RunOp(s, op);
      if op.Process? {
        ProcessIsClaimThenClose(s, q, op.handling);
      }
    }
  }

  ghost predicate QueueInvariant(q: Queue) {
    && (forall id :: id in multiset(q.handled) ==> id in q.events)
    && forall id :: id in q.events ==>
         var e := q.events[id];
         && multiset(q.handled)[id] == e.attempts + (if e.processedAt.Some? && id !in q.misreported then 1 else 0)
         && (e.deadAt.Some? <==> e.attempts == MAX_ATTEMPTS)
         && e.attempts <= MAX_ATTEMPTS
         && (id in q.misreported ==> e.processedAt.Some?)
         && (e.processedAt.Some? && e.deadAt.Some? ==> id in q.misreported)
  }

  lemma ProcessKeeps(q: Queue, handling: Handling)
    requires QueueInvariant(q)
    ensures QueueInvariant(ProcessNext(q, handling))
  {
    if Available(q.events, q.now) != {} {
      var id := MinOf(Available(q.events, q.now));
      assert multiset(q.handled + [id]) == multiset(q.handled) + multiset{id};
    }
  }

  lemma QueueNextKeeps(q: Queue, op: QueueOp)
    requires QueueInvariant(q) && q.misreported <= q.events.Keys
    ensures QueueInvariant(QueueNext(q, op)) && QueueNext(q, op).misreported <= QueueNext(q, op).events.Keys
  {
    if op.Process? {
      ProcessKeeps(q, op.handling);
    }
  }

  lemma {:induction false} QueueRunKeepsInvariant(start: int, ops: seq<QueueOp>)
    ensures var q := QueueRun(EmptyQueue(start), ops);
            QueueInvariant(q) && q.misreported <= q.events.Keys
  {
    if ops != [] {
      QueueRunKeepsInvariant(start, ops[..|ops| - 1]);
      QueueNextKeeps(QueueRun(EmptyQueue(start), ops[..|ops| - 1]), ops[|ops| - 1]);
    }
  }

  // One crash-free consumer handles each event at most ten times; ten handlings always close it; a dead letter means
  // ten recorded failures; and an event is both processed and dead-lettered exactly if its tenth handling was
  // misreported.
  lemma HandledAtMostTenTimes(start: int, ops: seq<QueueOp>, id: int)
    requires id in QueueRun(EmptyQueue(start), ops).events
    ensures var q := QueueRun(EmptyQueue(start), ops);
            && multiset(q.handled)[id] <= MAX_ATTEMPTS
            && (multiset(q.handled)[id] == MAX_ATTEMPTS ==> !Pending(q.events[id]))
            && (q.events[id].deadAt.Some? ==> q.events[id].attempts == MAX_ATTEMPTS == multiset(q.handled)[id])
            && (q.events[id].processedAt.Some? && q.events[id].deadAt.Some?
                <==> id in q.misreported && multiset(q.handled)[id] == MAX_ATTEMPTS)
  {
    QueueRunKeepsInvariant(start, ops);
  }

  lemma {:induction false} NothingMisreported(start: int, ops: seq<QueueOp>)
    requires Process(Misreported) !in ops
    ensures QueueRun(EmptyQueue(start), ops).misreported == {}
  {
    if ops != [] {
      NothingMisreported(start, ops[..|ops| - 1]);
    }
  }

  // If no commit was misreported, processed and dead-lettered exclude each other, and every handling is either a
  // recorded failure or the one that processed the event.
  lemma AcknowledgedNeverBoth(start: int, ops: seq<QueueOp>, id: int)
    requires Process(Misreported) !in ops && id in QueueRun(EmptyQueue(start), ops).events
    ensures var q := QueueRun(EmptyQueue(start), ops);
            && !(q.events[id].processedAt.Some? && q.events[id].deadAt.Some?)
            && multiset(q.handled)[id] == q.events[id].attempts + (if q.events[id].processedAt.Some? then 1 else 0)
  {
    QueueRunKeepsInvariant(start, ops);
    NothingMisreported(start, ops);
  }

  ghost predicate Increasing(ids: seq<int>) {
    forall i, j :: 0 <= i < j < |ids| ==> ids[i] < ids[j]
  }

  // `does` says, for each event and number of attempts behind it, what becomes of its handling.
  function DrainQueue(q: Queue, does: (int, nat) -> Handling, maxEvents: nat): Queue
    decreases maxEvents
  {
    if maxEvents == 0 || Available(q.events, q.now) == {} then q
    else
      var id := MinOf(Available(q.events, q.now));
      DrainQueue(ProcessNext(q, does(id, q.events[id].attempts)), does, maxEvents - 1)
  }

  function DrainedIds(q: Queue, does: (int, nat) -> Handling, maxEvents: nat): seq<int>
    decreases maxEvents
  {
    if maxEvents == 0 || Available(q.events, q.now) == {} then []
    else
      var id := MinOf(Available(q.events, q.now));
      [id] + DrainedIds(ProcessNext(q, does(id, q.events[id].attempts)), does, maxEvents - 1)
  }

  lemma AttemptLeavesQueue(q: Queue, handling: Handling)
    requires Available(q.events, q.now) != {}
    ensures var p := ProcessNext(q, handling);
            var ready := Available(q.events, q.now);
            && Available(p.events, p.now) == ready - {MinOf(ready)}
            && |ready - {MinOf(ready)}| == |ready| - 1
            && p.now == q.now
  {
  }

  ghost predicate LowestFirst(done: seq<int>, ready: set<int>) {
    && Increasing(done)
    && Elements(done) <= ready
    && forall id, d :: id in ready && id !in done && d in done ==> d < id
  }

  lemma LowestFirstCons(id: int, rest: seq<int>, ready: set<int>)
    requires ready != {} && id == MinOf(ready) && LowestFirst(rest, ready - {id})
    ensures LowestFirst([id] + rest, ready)
    ensures Elements([id] + rest) == {id} + Elements(rest)
  {
    assert forall k :: 0 <= k < |rest| ==> rest[k] in Elements(rest);
    assert forall d :: d in [id] + rest <==> d == id || d in rest;
  }

  // At one instant, with handlers that publish nothing, draining makes exactly min(maxEvents, available)
  // attempts, each event at most once, lowest ids first.
  lemma {:induction false} DrainOrder(q: Queue, does: (int, nat) -> Handling, maxEvents: nat)
    ensures var ready := Available(q.events, q.now);
            && |DrainedIds(q, does, maxEvents)| == Min(maxEvents, |ready|)
            && LowestFirst(DrainedIds(q, does, maxEvents), ready)
    decreases maxEvents
  {
    var ready := Available(q.events, q.now);
    if maxEvents > 0 && ready != {} {
      var id := MinOf(ready);
      var next := ProcessNext(q, does(id, q.events[id].attempts));
      AttemptLeavesQueue(q, does(id, q.events[id].attempts));
      DrainOrder(next, does, maxEvents - 1);
      LowestFirstCons(id, DrainedIds(next, does, maxEvents - 1), ready);
    }
  }

  // Every drained event took one attempt, and no other event was touched.
  lemma {:induction false} DrainEffect(q: Queue, does: (int, nat) -> Handling, maxEvents: nat)
    ensures var p := DrainQueue(q, does, maxEvents);
            && p.handled == q.handled + DrainedIds(q, does, maxEvents)
            && p.events.Keys == q.events.Keys
            && forall id :: id in q.events ==>
                 p.events[id] ==
                   if id in DrainedIds(q, does, maxEvents)
                   then Attempted(q.events[id], q.now, does(id, q.events[id].attempts))
                   else q.events[id]
    decreases maxEvents
  {
    var ready := Available(q.events, q.now);
    if maxEvents > 0 && ready != {} {
      var id := MinOf(ready);
      var next := ProcessNext(q, does(id, q.events[id].attempts));
      AttemptLeavesQueue(q, does(id, q.events[id].attempts));
      DrainOrder(next, does, maxEvents - 1);
      DrainEffect(next, does, maxEvents - 1);
      assert id !in Elements(DrainedIds(next, does, maxEvents - 1));
    }
  }

  // An hour later, everything then available is drained.
  function Round(q: Queue, does: (int, nat) -> Handling): Queue {
    var later := q.(now := q.now + MAX_BACKOFF);
    DrainQueue(later, does, |Available(later.events, later.now)|)
  }

  function Rounds(q: Queue, does: (int, nat) -> Handling, n: nat): Queue {
    if n == 0 then q else Round(Rounds(q, does, n - 1), does)
  }

  // While pending, the event has failed at least `k` times, may fail again, and is due within the hour.
  ghost predicate DueAgain(q: Queue, id: int, k: nat) {
    id in q.events && (Pending(q.events[id]) ==>
      k <= q.events[id].attempts < MAX_ATTEMPTS && q.events[id].availableAt <= q.now + MAX_BACKOFF)
  }

  lemma {:induction false} DrainKeepsTime(q: Queue, does: (int, nat) -> Handling, maxEvents: nat)
    ensures DrainQueue(q, does, maxEvents).now == q.now
    decreases maxEvents
  {
    if maxEvents > 0 && Available(q.events, q.now) != {} {
      var id := MinOf(Available(q.events, q.now));
      DrainKeepsTime(ProcessNext(q, does(id, q.events[id].attempts)), does, maxEvents - 1);
    }
  }

  lemma IncreasingIsDistinct(ids: seq<int>)
    requires Increasing(ids)
    ensures Distinct(ids)
  {
  }

  // A drain as long as the queue attempts everything that is available.
  lemma FullDrainTakesAll(q: Queue, does: (int, nat) -> Handling)
    ensures var ready := Available(q.events, q.now);
            Elements(DrainedIds(q, does, |ready|)) == ready
  {
    var ready := Available(q.events, q.now);
    var done := DrainedIds(q, does, |ready|);
    DrainOrder(q, does, |ready|);
    IncreasingIsDistinct(done);
    DistinctSize(done);
    SameSize(Elements(done), ready);
  }

  lemma SameSize<T>(a: set<T>, b: set<T>)
    requires a <= b && |a| == |b|
    ensures a == b
  {
    assert b == a + (b - a);
    if b - a != {} {
      var x := Inhabited(b - a);
    }
  }

  lemma RoundCounts(q: Queue, does: (int, nat) -> Handling, id: int, k: nat)
    requires DueAgain(q, id, k)
    ensures DueAgain(Round(q, does), id, k + 1)
  {
    var later := q.(now := q.now + MAX_BACKOFF);
    var ready := Available(later.events, later.now);
    DrainEffect(later, does, |ready|);
    DrainKeepsTime(later, does, |ready|);
    FullDrainTakesAll(later, does);
    assert id in ready <==> id in Elements(DrainedIds(later, does, |ready|));
  }

  lemma {:induction false} RoundsCount(q: Queue, does: (int, nat) -> Handling, id: int, n: nat)
    requires DueAgain(q, id, 0)
    ensures DueAgain(Rounds(q, does, n), id, n)
  {
    if n > 0 {
      RoundsCount(q, does, id, n - 1);
      RoundCounts(Rounds(q, does, n - 1), does, id, n - 1);
    }
  }

  // In every queue one crash-free consumer can have reached, and whatever the handlers and the other events do, an
  // event due within the hour is processed or dead-lettered after ten hourly drains.
  lemma {:induction false} TenRoundsCloseEverything(
    start: int, ops: seq<QueueOp>, does: (int, nat) -> Handling, id: int)
    requires id in QueueRun(EmptyQueue(start), ops).events
    requires var q := QueueRun(EmptyQueue(start), ops);
             Pending(q.events[id]) ==> q.events[id].availableAt <= q.now + MAX_BACKOFF
    ensures var after := Rounds(QueueRun(EmptyQueue(start), ops), does, MAX_ATTEMPTS);
            id in after.events && !Pending(after.events[id])
  {
    QueueRunKeepsInvariant(start, ops);
    RoundsCount(QueueRun(EmptyQueue(start), ops), does, id, MAX_ATTEMPTS);
  }

  datatype Outcome = WasProcessed | WasFailed | WasDead

  // The events an interval of work processed, dead-lettered, or noted a failure of without giving up.
  ghost function NewlyProcessed(before: Events, after: Events): set<int> {
    set id | id in before && id in after && before[id].processedAt.None? && after[id].processedAt.Some?
             && after[id].attempts == before[id].attempts
  }

  ghost function NewlyDead(before: Events, after: Events): set<int> {
    set id | id in before && id in after && before[id].deadAt.None? && after[id].deadAt.Some?
  }

  ghost function NewlyFailed(before: Events, after: Events): set<int> {
    set id | id in before && id in after && after[id].deadAt.None? && after[id].attempts > before[id].attempts
  }

  ghost predicate Counts(before: Events, after: Events, processed: nat, failed: nat, dead: nat) {
    && processed == |NewlyProcessed(before, after)|
    && failed == |NewlyFailed(before, after)|
    && dead == |NewlyDead(before, after)|
  }

  // Events that can still be attempted are as they were.
  ghost predicate AttemptedOnce(before: Events, after: Events, now: int) {
    && after.Keys == before.Keys
    && forall id :: id in Available(after, now) ==> after[id] == before[id]
  }

  lemma NothingCounted(events: Events)
    ensures Counts(events, events, 0, 0, 0)
  {
    assert NewlyProcessed(events, events) == {} && NewlyFailed(events, events) == {} && NewlyDead(events, events) == {};
  }

  lemma OneMoreCounted(
    before: Events, mid: Events, now: int, handling: Handling, processed: nat, failed: nat, dead: nat)
    requires AttemptedOnce(before, mid, now) && Counts(before, mid, processed, failed, dead)
    requires Available(mid, now) != {}
    ensures var id := MinOf(Available(mid, now));
            var died := !handling.Succeeds? && mid[id].attempts + 1 >= MAX_ATTEMPTS;
            var after := mid[id := Attempted(mid[id], now, handling)];
            && AttemptedOnce(before, after, now)
            && Counts(before, after, if handling.Succeeds? then processed + 1 else processed,
                      if !handling.Succeeds? && !died then failed + 1 else failed, if died then dead + 1 else dead)
  {
    var id := MinOf(Available(mid, now));
    var e := Attempted(mid[id], now, handling);
    var died := !handling.Succeeds? && mid[id].attempts + 1 >= MAX_ATTEMPTS;
    CountOne(NewlyProcessed(before, mid), NewlyProcessed(before, mid[id := e]), id, handling.Succeeds?);
    CountOne(NewlyFailed(before, mid), NewlyFailed(before, mid[id := e]), id, !handling.Succeeds? && !died);
    CountOne(NewlyDead(before, mid), NewlyDead(before, mid[id := e]), id, died);
  }

  lemma CountOne<T>(a: set<T>, b: set<T>, id: T, added: bool)
    requires id !in a && forall x :: x in b <==> x in a || (added && x == id)
    ensures |b| == if added then |a| + 1 else |a|
  {
    if added {
      assert b == a + {id};
    } else {
      assert b == a;
    }
  }

  class OutboxConsumer {
    var now: int
    var events: Events
    ghost var handled: seq<int>
    ghost var misreported: set<int>
    const does: (int, nat) -> Handling   // what becomes of each handling of an event

    ghost function Abstract(): Queue
      reads this
    {
      Queue(now, events, handled, misreported)
    }

    constructor (now: int, events: Events, does: (int, nat) -> Handling)
      ensures this.now == now && this.events == events && this.does == does && handled == [] && misreported == {}
    {
      this.now, this.events, this.does, this.handled, this.misreported := now, events, does, [], {};
    }

    method RecordFailure(id: int) returns (outcome: Outcome)
      requires id in events
      modifies this`events
      ensures events == old(events)[id := Failed(old(events)[id], now)]
      ensures outcome == if old(events)[id].attempts + 1 >= MAX_ATTEMPTS then WasDead else WasFailed
    {
      var event := events[id];
      var attempts := event.attempts + 1;
      if attempts >= MAX_ATTEMPTS {
        events := events[id := event.(attempts := attempts, deadAt := Some(now))];
        return WasDead;
      }
      events := events[id := event.(attempts := attempts, availableAt := now + Backoff(attempts))];
      return WasFailed;
    }

    method ProcessOne() returns (outcome: Option<Outcome>)
      modifies this`events, this`handled, this`misreported
      ensures outcome.None? <==> Available(old(events), now) == {}
      ensures outcome.None? ==> Abstract() == old(Abstract())
      ensures outcome.Some? ==>
        var id := MinOf(Available(old(events), now));
        var handling := does(id, old(events)[id].attempts);
        && Abstract() == ProcessNext(old(Abstract()), handling)
        && outcome.value == if handling.Succeeds? then WasProcessed
                            else if old(events)[id].attempts + 1 >= MAX_ATTEMPTS then WasDead else WasFailed
    {
      var candidates := Available(events, now);
      if candidates == {} {
        return None;
      }
      var id := MinOf(candidates);
      handled := handled + [id];
      var handling := does(id, events[id].attempts);
      if !handling.Raises? {
        events := events[id := Processed(events[id], now)];
      }
      if handling.Succeeds? {
        return Some(WasProcessed);
      }
      if handling.Misreported? {
        misreported := misreported + {id};
      }
      var failure := RecordFailure(id);
      return Some(failure);
    }

    method Drain(maxEvents: nat) returns (processed: nat, failed: nat, dead: nat)
      modifies this`events, this`handled, this`misreported
      ensures Abstract() == DrainQueue(old(Abstract()), does, maxEvents)
      ensures Counts(old(events), events, processed, failed, dead)
      ensures processed + failed + dead == |handled| - |old(handled)|
    {
      processed, failed, dead := 0, 0, 0;
      ghost var was := events;
      NothingCounted(was);
      for i := 0 to maxEvents
        invariant DrainQueue(Abstract(), does, maxEvents - i) == DrainQueue(old(Abstract()), does, maxEvents)
        invariant AttemptedOnce(was, events, now) && Counts(was, events, processed, failed, dead)
        invariant processed + failed + dead == |handled| - |old(handled)|
      {
        if Available(events, now) != {} {
          var id := MinOf(Available(events, now));
          OneMoreCounted(was, events, now, does(id, events[id].attempts), processed, failed, dead);
        }
        var outcome := ProcessOne();
        if outcome.None? {
          break;
        }
        match outcome.value {
          case WasProcessed => processed := processed + 1;
          case WasFailed => failed := failed + 1;
          case WasDead => dead := dead + 1;
        }
      }
    }
  }
}
