// The Promise Ledger (backend/src/lifeos/domain/commitments.py, integrity.py) joined to Daily Actions:
// commitments, the actions they are linked to, and the day's integrity snapshot.
// Every operation is one transaction.
module Ledger {
  import opened Prelude
  import opened Actions
  import opened Commitments
  import Checkins

  datatype Counts = Counts(kept: nat, broken: nat, overdueDeferred: nat)

  datatype State = State(
    now: int, actions: map<int, Action>, commitments: map<int, Commitment>, snapshots: map<int, Counts>,
    nextAction: int, nextCommitment: int)

  function Init(now: int): State {
    State(now, map[], map[], map[], 0, 0)
  }

  // The 30 local days ending today, as instants [first day's start, today's end).
  predicate InWindow(at: Option<int>, cal: Calendar, today: int) {
    at.Some? && cal.dayEnd(today - WINDOW_DAYS) <= at.value < cal.dayEnd(today)
  }

  predicate CountsKept(c: Commitment, cal: Calendar, today: int) {
    c.status == Kept && InWindow(c.keptAt, cal, today)
  }

  predicate CountsBroken(c: Commitment, cal: Calendar, today: int) {
    c.status == Broken && InWindow(c.brokenAt, cal, today)
  }

  predicate CountsOverdue(c: Commitment, today: int) {
    c.status == Deferred && today - (WINDOW_DAYS - 1) <= c.currentDue < today
  }

  function KeptIds(commitments: map<int, Commitment>, cal: Calendar, today: int): set<int> {
    set id | id in commitments && CountsKept(commitments[id], cal, today)
  }

  function BrokenIds(commitments: map<int, Commitment>, cal: Calendar, today: int): set<int> {
    set id | id in commitments && CountsBroken(commitments[id], cal, today)
  }

  function OverdueIds(commitments: map<int, Commitment>, today: int): set<int> {
    set id | id in commitments && CountsOverdue(commitments[id], today)
  }

  function Count(commitments: map<int, Commitment>, cal: Calendar, today: int): Counts {
    Counts(|KeptIds(commitments, cal, today)|, |BrokenIds(commitments, cal, today)|, |OverdueIds(commitments, today)|)
  }

  function Refreshed(s: State, cal: Calendar): State {
    var today := cal.dayOf(s.now);
    s.(snapshots := s.snapshots[today := Count(s.commitments, cal, today)])
  }

  datatype Link = ActionLink(id: int) | OtherLink(id: int)

  function ActionIds(links: seq<Link>): set<int> {
    set l | l in links && l.ActionLink? :: l.id
  }

  function OtherIds(links: seq<Link>): set<int> {
    set l | l in links && l.OtherLink? :: l.id
  }

  predicate NoDuplicates(links: seq<Link>) {
    forall i, j | 0 <= i < j < |links| :: links[i] != links[j]
  }

  function Create(s: State, cal: Calendar, due: int, links: seq<Link>, requested: Option<Condition>, known: set<int>)
    : Result<State, Error>
  {
    var ids := ActionIds(links);
    if due < cal.dayOf(s.now) || !NoDuplicates(links) then Err(Invalid)
    else if !(ids <= s.actions.Keys) || !(OtherIds(links) <= known) then Err(NotFound)
    else if exists a | a in ids :: !Linkable(s.actions[a]) then Err(Invalid)
    else match ResolveCondition(requested, |ids|)
      case Err(e) => Err(e)
      case Ok(condition) =>
        Ok(s.(commitments := s.commitments[s.nextCommitment := Fresh(due, condition, ids, s.now)],
              nextCommitment := s.nextCommitment + 1))
  }

  // Keep and Cancel by the user: the deadline first, and a refused transition rolls that back too.
  function CloseExplicitly(s: State, cal: Calendar, id: int, next: Commitments.Status): Result<State, Error>
    requires next in {Kept, Cancelled}
  {
    if id !in s.commitments then Err(NotFound)
    else
      var d := AppliedDeadline(s.commitments[id], cal, s.now);
      if !MayBecome(d.status, next) then Err(BadTransition)
      else Ok(Refreshed(s.(commitments := s.commitments[id := Closed(d, next, s.now)]), cal))
  }

  function Defer(s: State, cal: Calendar, id: int, newDue: int, acknowledged: bool): Result<State, Error> {
    if id !in s.commitments then Err(NotFound)
    else
      var d := AppliedDeadline(s.commitments[id], cal, s.now);
      match ValidateDeferral(d, newDue, cal.dayOf(s.now), WindowOpen(d.windowEnds, s.now), Explained(d.log),
                             acknowledged)
      case Err(e) => Err(e)
      case Ok(kind) => Ok(Refreshed(s.(commitments := s.commitments[id := Postponed(d, newDue, kind, s.now)]), cal))
  }

  function Explain(s: State, cal: Calendar, id: int, length: nat): Result<State, Error> {
    if id !in s.commitments then Err(NotFound)
    else
      var d := AppliedDeadline(s.commitments[id], cal, s.now);
      match ValidateExplanation(d.status, WindowOpen(d.windowEnds, s.now), Explained(d.log), length)
      case Some(e) => Err(e)
      case None => Ok(s.(commitments := s.commitments[id := Justified(d, s.now)]))
  }

  function DueIds(s: State, cal: Calendar): set<int> {
    set id | id in s.commitments && DeadlineAction(s.commitments[id], cal.dayOf(s.now), s.now).Some?
  }

  function Sweep(s: State, cal: Calendar): State {
    if DueIds(s, cal) == {} then s
    else Refreshed(
      s.(commitments := map id | id in s.commitments :: AppliedDeadline(s.commitments[id], cal, s.now)), cal)
  }

  // Every commitment a status change or a cancellation touches is re-evaluated, then the snapshot refreshed.
  function Affected(commitments: map<int, Commitment>, changed: set<int>): set<int> {
    set id | id in commitments && Active(commitments[id].status) && commitments[id].links * changed != {}
  }

  function CheckInError(a: Action, next: ActionStatus, note: Option<nat>): Option<Error> {
    match Checkins.ValidateTransition(a.status, next, a.active, note)
    case Ok(_) => None
    case Err(e) => Some(if e.InvalidTransition? then BadTransition else Invalid)
  }

  function CheckIn(s: State, cal: Calendar, a: int, next: ActionStatus, note: Option<nat>, archived: bool)
    : Result<State, Error>
  {
    if a !in s.actions then Err(NotFound)
    else if CheckInError(s.actions[a], next, note).Some? then Err(CheckInError(s.actions[a], next, note).value)
    else if archived then Err(GoalArchived)
    else
      var t := s.(actions := s.actions[a := Action(next, true)]);
      var hit := Affected(s.commitments, {a});
      if next != Completed || hit == {} then Ok(t)
      else Ok(Refreshed(
        t.(commitments := map id | id in s.commitments ::
             if id in hit then Reevaluated(s.commitments[id], t.actions, cal, s.now) else s.commitments[id]), cal))
  }

  // Lifecycle cancellation of some actions, by the user, a habit pause or a goal archive.
  function WithCancelled(s: State, cal: Calendar, gone: set<int>): State {
    var t := s.(actions :=
      map a | a in s.actions :: if a in gone then s.actions[a].(active := false) else s.actions[a]);
    var hit := Affected(s.commitments, gone);
    if hit == {} then t
    else Refreshed(
      t.(commitments := map id | id in s.commitments ::
           if id in hit then CutAndReevaluated(s.commitments[id], gone, t.actions, cal, s.now)
           else s.commitments[id]), cal)
  }

  function CutAndReevaluated(c: Commitment, gone: set<int>, actions: map<int, Action>, cal: Calendar, now: int)
    : Commitment
  {
    Reevaluated(Unlinked(c, c.links * gone, actions, now), actions, cal, now)
  }

  function CancelAction(s: State, cal: Calendar, a: int, archived: bool): Result<State, Error> {
    if a !in s.actions then Err(NotFound)
    else if !Linkable(s.actions[a]) then Err(BadTransition)
    else if archived then Err(GoalArchived)
    else Ok(WithCancelled(s, cal, {a}))
  }

  function Cancellable(s: State, candidates: set<int>): set<int> {
    set a | a in candidates && a in s.actions && s.actions[a].active && s.actions[a].status == Planned
  }

  datatype Op =
    | Tick(instant: int)
    | NewAction
    | NewCommitment(due: int, targets: seq<Link>, requested: Option<Condition>, known: set<int>)
    | Keep(id: int)
    | Cancel(id: int)
    | Postpone(id: int, newDue: int, acknowledged: bool)
    | SubmitExplanation(id: int, length: nat)
    | EvaluateDeadlines
    | SetActionStatus(action: int, next: ActionStatus, note: Option<nat>, archived: bool)
    | UserCancel(action: int, archived: bool)
    | SystemCancel(candidates: set<int>)
    | RefreshIntegrity

  function Attempt(s: State, cal: Calendar, op: Op): Result<State, Error> {
    match op
    case Tick(instant) => Ok(if instant >= s.now then s.(now := instant) else s)
    case NewAction =>
      Ok(s.(actions := s.actions[s.nextAction := Action(Planned, true)], nextAction := s.nextAction + 1))
    case NewCommitment(due, targets, requested, known) => Create(s, cal, due, targets, requested, known)
    case Keep(id) => CloseExplicitly(s, cal, id, Kept)
    case Cancel(id) => CloseExplicitly(s, cal, id, Cancelled)
    case Postpone(id, newDue, acknowledged) => Defer(s, cal, id, newDue, acknowledged)
    case SubmitExplanation(id, length) => Explain(s, cal, id, length)
    case EvaluateDeadlines => Ok(Sweep(s, cal))
    case SetActionStatus(a, next, note, archived) => CheckIn(s, cal, a, next, note, archived)
    case UserCancel(a, archived) => CancelAction(s, cal, a, archived)
    case SystemCancel(candidates) => Ok(WithCancelled(s, cal, Cancellable(s, candidates)))
    case RefreshIntegrity => Ok(Refreshed(s, cal))
  }

  // A refused operation rolls its transaction back.
  function Next(s: State, cal: Calendar, op: Op): State {
    match Attempt(s, cal, op)
    case Ok(t) => t
    case Err(_) => s
  }

  // One operation, in the time zone the user has at that moment: every operation reads it afresh.
  datatype Call = Call(cal: Calendar, op: Op)

  function Run(s: State, calls: seq<Call>): State {
    if calls == [] then s
    else
      var last := calls[|calls| - 1];
      Next(Run(s, calls[..|calls| - 1]), last.cal, last.op)
  }

  ghost predicate Zoned(calls: seq<Call>) {
    forall k :: 0 <= k < |calls| ==> Consistent(calls[k].cal)
  }

  // ---------------------------------------------------------------- every operation, every run

  ghost predicate Sound(c: Commitment, actions: map<int, Action>) {
    LogTells(c) && Linked(c, actions) && Unmet(c, actions)
  }

  ghost predicate Invariant(s: State) {
    && (forall id :: id in s.commitments ==> id < s.nextCommitment && Sound(s.commitments[id], s.actions))
    && (forall a :: a in s.actions ==> a < s.nextAction)
  }

  ghost predicate AllMoved(s: State, t: State, cal: Calendar) {
    forall id :: id in s.commitments ==>
      id in t.commitments && Moved(s.commitments[id], t.commitments[id], cal, s.now)
  }

  // Today's snapshot row, once written, equals a fresh count; no row is dated in the future.
  ghost predicate SnapshotCurrent(s: State, cal: Calendar) {
    var today := cal.dayOf(s.now);
    && (forall d :: d in s.snapshots ==> d <= today)
    && (today in s.snapshots ==> s.snapshots[today] == Count(s.commitments, cal, today))
  }

  predicate CountedAlike(c: Commitment, d: Commitment) {
    c.status == d.status && c.currentDue == d.currentDue && c.keptAt == d.keptAt && c.brokenAt == d.brokenAt
  }

  lemma SameCount(a: map<int, Commitment>, b: map<int, Commitment>, cal: Calendar, today: int)
    requires forall id :: id in a ==> id in b && CountedAlike(a[id], b[id])
    requires forall id :: id in b && id !in a ==> b[id].status == Open
    ensures Count(a, cal, today) == Count(b, cal, today)
  {
    forall id
      ensures id in KeptIds(a, cal, today) <==> id in KeptIds(b, cal, today)
      ensures id in BrokenIds(a, cal, today) <==> id in BrokenIds(b, cal, today)
      ensures id in OverdueIds(a, today) <==> id in OverdueIds(b, today)
    {}
    assert KeptIds(a, cal, today) == KeptIds(b, cal, today);
    assert BrokenIds(a, cal, today) == BrokenIds(b, cal, today);
    assert OverdueIds(a, today) == OverdueIds(b, today);
  }

  // An operation on one commitment.
  lemma OneMoved(s: State, t: State, cal: Calendar, id: int, d: Commitment)
    requires Invariant(s) && id in s.commitments
    requires t == s.(commitments := s.commitments[id := d], snapshots := t.snapshots)
    requires Sound(d, s.actions) && Moved(s.commitments[id], d, cal, s.now)
    ensures Invariant(t) && AllMoved(s, t, cal)
  {
  }

  lemma {:induction false} CloseExplicitlyKeeps(s: State, cal: Calendar, id: int, next: Commitments.Status)
    requires Consistent(cal) && Invariant(s) && next in {Kept, Cancelled}
    requires CloseExplicitly(s, cal, id, next).Ok?
    ensures var t := CloseExplicitly(s, cal, id, next).value; Invariant(t) && AllMoved(s, t, cal)
  {
    var c := s.commitments[id];
    AppliedDeadlineTells(c, cal, s.now);
    AppliedDeadlineMoved(c, cal, s.now);
    var d := AppliedDeadline(c, cal, s.now);
    ClosedTells(d, next, s.now);
    OneMoved(s, CloseExplicitly(s, cal, id, next).value, cal, id, Closed(d, next, s.now));
  }

  lemma DeferKeeps(s: State, cal: Calendar, id: int, newDue: int, acknowledged: bool)
    requires Consistent(cal) && Invariant(s) && Defer(s, cal, id, newDue, acknowledged).Ok?
    ensures var t := Defer(s, cal, id, newDue, acknowledged).value; Invariant(t) && AllMoved(s, t, cal)
  {
    var c := s.commitments[id];
    AppliedDeadlineTells(c, cal, s.now);
    AppliedDeadlineMoved(c, cal, s.now);
    var d := AppliedDeadline(c, cal, s.now);
    var kind := if d.status == Open then FirstDeferral else Redeferral;
    PostponedTells(d, newDue, kind, s.now);
    SameLinksSameCondition(c, Postponed(d, newDue, kind, s.now), s.actions);
    OneMoved(s, Defer(s, cal, id, newDue, acknowledged).value, cal, id, Postponed(d, newDue, kind, s.now));
  }

  lemma JustifiedKeeps(c: Commitment, actions: map<int, Action>, cal: Calendar, now: int, length: nat)
    requires Consistent(cal) && Sound(c, actions)
    requires var d := AppliedDeadline(c, cal, now);
             ValidateExplanation(d.status, WindowOpen(d.windowEnds, now), Explained(d.log), length).None?
    ensures var e := Justified(AppliedDeadline(c, cal, now), now);
            Sound(e, actions) && Moved(c, e, cal, now) && CountedAlike(c, e)
  {
    AppliedDeadlineTells(c, cal, now);
    AppliedDeadlineMoved(c, cal, now);
    var d := AppliedDeadline(c, cal, now);
    JustifiedTells(d, now);
    SameLinksSameCondition(c, Justified(d, now), actions);
  }

  lemma ExplainKeeps(s: State, cal: Calendar, id: int, length: nat)
    requires Consistent(cal) && Invariant(s) && Explain(s, cal, id, length).Ok?
    ensures var t := Explain(s, cal, id, length).value;
            Invariant(t) && AllMoved(s, t, cal) && (SnapshotCurrent(s, cal) ==> SnapshotCurrent(t, cal))
  {
    var t := Explain(s, cal, id, length).value;
    JustifiedKeeps(s.commitments[id], s.actions, cal, s.now, length);
    OneMoved(s, t, cal, id, t.commitments[id]);
    SameCount(s.commitments, t.commitments, cal, cal.dayOf(s.now));
  }

  lemma FreshIsSound(s: State, due: int, condition: Condition, ids: set<int>)
    requires forall a :: a in ids ==> a in s.actions && Linkable(s.actions[a])
    requires condition == Explicit <==> ids == {}
    ensures Sound(Fresh(due, condition, ids, s.now), s.actions)
  {
    var c := Fresh(due, condition, ids, s.now);
    FreshTells(due, condition, ids, s.now);
    forall a | a in ids ensures a !in CompletedLinks(c, s.actions) {
      assert Linkable(s.actions[a]);
    }
    if CompletedLinks(c, s.actions) != {} {
      var a := Inhabited(CompletedLinks(c, s.actions));
    }
    forall a ensures a in LiveLinks(c, s.actions) <==> a in ids {
      assert a in ids ==> Linkable(s.actions[a]);
    }
    assert LiveLinks(c, s.actions) == ids;
  }

  lemma CreateKeeps(
    s: State, cal: Calendar, due: int, links: seq<Link>, requested: Option<Condition>, known: set<int>)
    requires Invariant(s) && Create(s, cal, due, links, requested, known).Ok?
    ensures var t := Create(s, cal, due, links, requested, known).value;
            Invariant(t) && AllMoved(s, t, cal) && (SnapshotCurrent(s, cal) ==> SnapshotCurrent(t, cal))
  {
    var ids := ActionIds(links);
    FreshIsSound(s, due, ResolveCondition(requested, |ids|).value, ids);
    var t := Create(s, cal, due, links, requested, known).value;
    SameCount(s.commitments, t.commitments, cal, cal.dayOf(s.now));
  }

  lemma {:induction false} SweepKeeps(s: State, cal: Calendar)
    requires Consistent(cal) && Invariant(s)
    ensures Invariant(Sweep(s, cal)) && AllMoved(s, Sweep(s, cal), cal)
  {
    forall id | id in s.commitments
      ensures Sound(AppliedDeadline(s.commitments[id], cal, s.now), s.actions)
      ensures Moved(s.commitments[id], AppliedDeadline(s.commitments[id], cal, s.now), cal, s.now)
      ensures Moved(s.commitments[id], s.commitments[id], cal, s.now)
    {
      var c := s.commitments[id];
      AppliedDeadlineTells(c, cal, s.now);
      AppliedDeadlineMoved(c, cal, s.now);
      SameLinksSameCondition(c, AppliedDeadline(c, cal, s.now), s.actions);
    }
  }

  // A commitment linked to an action that was checked in, re-evaluated when the action was completed.
  lemma CheckedInOne(c: Commitment, before: map<int, Action>, a: int, next: ActionStatus, cal: Calendar, now: int)
    requires Consistent(cal) && Sound(c, before) && a in before && before[a].active
    ensures var after := before[a := Action(next, true)];
            var d := if next == Completed then Reevaluated(c, after, cal, now) else c;
            Sound(d, after) && Moved(c, d, cal, now)
  {
    var after := before[a := Action(next, true)];
    if next == Completed {
      ReevaluatedTells(c, after, cal, now);
      ReevaluatedMoved(c, after, cal, now);
      ReevaluatedUnmet(c, after, cal, now);
    } else {
      assert LiveLinks(c, after) == LiveLinks(c, before);
      forall l ensures l in CompletedLinks(c, after) ==> l in CompletedLinks(c, before) {}
      FewerCompleted(c, before, after);
    }
  }

  lemma FewerCompleted(c: Commitment, before: map<int, Action>, after: map<int, Action>)
    requires LiveLinks(c, after) == LiveLinks(c, before)
    requires forall l :: l in CompletedLinks(c, after) ==> l in CompletedLinks(c, before)
    ensures Satisfied(c, after) ==> Satisfied(c, before)
  {
    if CompletedLinks(c, after) != {} {
      var l := Inhabited(CompletedLinks(c, after));
    }
    if CompletedLinks(c, after) == LiveLinks(c, after) {
      forall l ensures l in CompletedLinks(c, before) <==> l in LiveLinks(c, before) {}
      assert CompletedLinks(c, before) == LiveLinks(c, before);
    }
  }

  lemma {:induction false} CheckInKeeps(
    s: State, cal: Calendar, a: int, next: ActionStatus, note: Option<nat>, archived: bool)
    requires Consistent(cal) && Invariant(s) && CheckIn(s, cal, a, next, note, archived).Ok?
    ensures var t := CheckIn(s, cal, a, next, note, archived).value; Invariant(t) && AllMoved(s, t, cal)
  {
    var t := CheckIn(s, cal, a, next, note, archived).value;
    var hit := Affected(s.commitments, {a});
    forall id | id in s.commitments
      ensures Sound(t.commitments[id], t.actions) && Moved(s.commitments[id], t.commitments[id], cal, s.now)
    {
      if id !in hit {
        UntouchedStays(s.commitments[id], s.actions, t.actions, {a});
      } else {
        CheckedInOne(s.commitments[id], s.actions, a, next, cal, s.now);
      }
    }
  }

  lemma CutKeeps(
    c: Commitment, gone: set<int>, before: map<int, Action>, after: map<int, Action>, cal: Calendar, now: int)
    requires Consistent(cal) && Sound(c, before) && Active(c.status) && c.links * gone != {}
    requires forall a :: a in before && a !in gone ==> a in after && after[a] == before[a]
    ensures Sound(CutAndReevaluated(c, gone, after, cal, now), after)
    ensures Moved(c, CutAndReevaluated(c, gone, after, cal, now), cal, now)
  {
    var cut := c.links * gone;
    assert forall a :: a in c.links && a !in cut ==> a !in gone;
    UnlinkedTells(c, cut, after, now);
    UnlinkedLinked(c, cut, before, after, now);
    ReevaluatedTells(Unlinked(c, cut, after, now), after, cal, now);
    ReevaluatedUnmet(Unlinked(c, cut, after, now), after, cal, now);
    CutMoved(c, cut, after, cal, now);
  }

  lemma WithCancelledOne(s: State, cal: Calendar, gone: set<int>, id: int)
    requires Consistent(cal) && Invariant(s) && id in s.commitments
    ensures var t := WithCancelled(s, cal, gone);
            && id in t.commitments
            && Sound(t.commitments[id], t.actions)
            && Moved(s.commitments[id], t.commitments[id], cal, s.now)
  {
    var t := WithCancelled(s, cal, gone);
    if id !in Affected(s.commitments, gone) {
      UntouchedStays(s.commitments[id], s.actions, t.actions, gone);
    } else {
      CutKeeps(s.commitments[id], gone, s.actions, t.actions, cal, s.now);
    }
  }

  lemma {:induction false} WithCancelledKeeps(s: State, cal: Calendar, gone: set<int>)
    requires Consistent(cal) && Invariant(s)
    ensures Invariant(WithCancelled(s, cal, gone)) && AllMoved(s, WithCancelled(s, cal, gone), cal)
  {
    var t := WithCancelled(s, cal, gone);
    forall id | id in s.commitments
      ensures Sound(t.commitments[id], t.actions) && Moved(s.commitments[id], t.commitments[id], cal, s.now)
    {
      WithCancelledOne(s, cal, gone, id);
    }
  }

  lemma {:induction false} StepKeepsInvariant(s: State, cal: Calendar, op: Op)
    requires Consistent(cal) && Invariant(s)
    ensures Invariant(Next(s, cal, op)) && AllMoved(s, Next(s, cal, op), cal)
  {
    if Attempt(s, cal, op).Ok? {
      match op {
        case NewAction =>
          var t := Next(s, cal, op);
          forall id | id in s.commitments ensures Sound(s.commitments[id], t.actions) {
            UntouchedStays(s.commitments[id], s.actions, t.actions, {s.nextAction});
          }
        case NewCommitment(due, targets, requested, known) => CreateKeeps(s, cal, due, targets, requested, known);
        case Keep(id) => CloseExplicitlyKeeps(s, cal, id, Kept);
        case Cancel(id) => CloseExplicitlyKeeps(s, cal, id, Cancelled);
        case Postpone(id, newDue, acknowledged) => DeferKeeps(s, cal, id, newDue, acknowledged);
        case SubmitExplanation(id, length) => ExplainKeeps(s, cal, id, length);
        case EvaluateDeadlines => SweepKeeps(s, cal);
        case SetActionStatus(a, next, given, archived) => CheckInKeeps(s, cal, a, next, given, archived);
        case UserCancel(a, archived) => WithCancelledKeeps(s, cal, {a});
        case SystemCancel(candidates) => WithCancelledKeeps(s, cal, Cancellable(s, candidates));
        case _ =>
      }
    }
  }

  lemma {:induction false} RunKeepsInvariant(start: int, calls: seq<Call>)
    requires Zoned(calls)
    ensures Invariant(Run(Init(start), calls))
  {
    if calls != [] {
      var last := calls[|calls| - 1];
      RunKeepsInvariant(start, calls[..|calls| - 1]);
      StepKeepsInvariant(Run(Init(start), calls[..|calls| - 1]), last.cal, last.op);
    }
  }

  // ---------------------------------------------------------------- the main results

  // In every reachable ledger: no active commitment has a satisfied completion condition, it is explicit
  // exactly when it has no live Daily Action link, and its live links point to active actions.
  lemma {:induction false} JointInvariant(start: int, calls: seq<Call>, id: int)
    requires Zoned(calls) && id in Run(Init(start), calls).commitments
    requires Active(Run(Init(start), calls).commitments[id].status)
    ensures var s := Run(Init(start), calls);
            var c := s.commitments[id];
            && !Satisfied(c, s.actions)
            && (c.condition == Explicit <==> c.links == {})
            && (forall a :: a in c.links ==> a in s.actions && s.actions[a].active)
  {
    RunKeepsInvariant(start, calls);
  }

  // Every reachable log is grammatical and tells the commitment's status, due date and deferral count.
  lemma {:induction false} LogsAreGrammatical(start: int, calls: seq<Call>, id: int)
    requires Zoned(calls) && id in Run(Init(start), calls).commitments
    ensures var c := Run(Init(start), calls).commitments[id];
            var f := Fold(c.log);
            && !f.phase.Ungrammatical? && f.chained
            && f.status == Some(c.status) && f.due == Some(c.currentDue) && f.deferrals == c.deferralCount
            && PhaseOf(f.phase, c.status, c.windowEnds)
  {
    RunKeepsInvariant(start, calls);
  }

  // No step of any run keeps an overdue commitment, breaks a deferred one before its full window is over,
  // touches a terminal one, shortens a log, or defers to an earlier date.
  lemma {:induction false} StepsAreSafe(start: int, calls: seq<Call>, call: Call, id: int)
    requires Zoned(calls) && Consistent(call.cal) && id in Run(Init(start), calls).commitments
    ensures var s := Run(Init(start), calls);
            var t := Next(s, call.cal, call.op);
            id in t.commitments && Moved(s.commitments[id], t.commitments[id], call.cal, s.now)
  {
    RunKeepsInvariant(start, calls);
    StepKeepsInvariant(Run(Init(start), calls), call.cal, call.op);
  }

  // Too late to be kept: an Open commitment past its local due date, or a Deferred one whose window has run out.
  predicate PastSaving(c: Commitment, today: int, now: int) {
    && c.currentDue < today
    && (c.status == Open || (c.status == Deferred && c.windowEnds.Some? && c.windowEnds.value <= now))
  }

  // When a user's request goes through, in terms of the ledger before it.
  lemma ClosingAcceptedExactly(s: State, cal: Calendar, id: int)
    requires id in s.commitments
    ensures var c, today := s.commitments[id], cal.dayOf(s.now);
            && (Attempt(s, cal, Keep(id)).Ok? <==> Active(c.status) && !PastSaving(c, today, s.now))
            && (Attempt(s, cal, Cancel(id)).Ok? <==> c.status == Open && !PastSaving(c, today, s.now))
  {
  }

  lemma DeferralAcceptedExactly(s: State, cal: Calendar, id: int, newDue: int, acknowledged: bool)
    requires id in s.commitments
    ensures var c, today := s.commitments[id], cal.dayOf(s.now);
            Attempt(s, cal, Postpone(id, newDue, acknowledged)).Ok? <==>
              && Active(c.status) && !PastSaving(c, today, s.now) && newDue > today && newDue > c.currentDue
              && (c.status == Deferred ==>
                    c.windowEnds.Some? && s.now < c.windowEnds.value && Explained(c.log) && acknowledged)
  {
    OpeningUnexplained(s.commitments[id], cal, s.now);
  }

  lemma ExplanationAcceptedExactly(s: State, cal: Calendar, id: int, length: nat)
    requires Consistent(cal) && id in s.commitments
    ensures var c, today := s.commitments[id], cal.dayOf(s.now);
            Attempt(s, cal, SubmitExplanation(id, length)).Ok? <==>
              && c.status == Deferred && length >= EXPLANATION_MIN
              && (if c.windowEnds.Some? then s.now < c.windowEnds.value && !Explained(c.log)
                  else c.currentDue < today)
  {
    OpeningUnexplained(s.commitments[id], cal, s.now);
  }

  // The attempt itself opens a window that is due, and a window starts without an explanation.
  lemma OpeningUnexplained(c: Commitment, cal: Calendar, now: int)
    ensures DeadlineAction(c, cal.dayOf(now), now) == Some(OpenWindow) ==>
              !Explained(AppliedDeadline(c, cal, now).log)
  {
    FoldSnoc(c.log, Event(WindowOpenedEvent, Some(Deferred), Deferred, None, None, now));
  }

  // What completing an action linked to `c` makes of its status: broken when it is too late, else kept unless all
  // links count and one of them is not completed.
  ghost predicate CompletionDecides(
    c: Commitment, after: Commitments.Status, actions: map<int, Action>, today: int, now: int)
  {
    && (forall l :: l in c.links ==> l in actions)
    && after == if PastSaving(c, today, now) then Broken
                else if c.condition == All && exists l :: l in c.links && actions[l].status != Completed then c.status
                else Kept
  }

  // Completing a linked action keeps a commitment exactly when it is not too late and, if all links count, every
  // one of them is now completed; when it is too late the commitment is broken instead.
  lemma {:induction false} CompletionKeepsExactly(
    start: int, calls: seq<Call>, cal: Calendar, a: int, note: Option<nat>, id: int)
    requires Zoned(calls) && LinkedTo(Run(Init(start), calls), {a}, id)
    requires CheckIn(Run(Init(start), calls), cal, a, Completed, note, false).Ok?
    ensures var s := Run(Init(start), calls);
            var t := Next(s, cal, SetActionStatus(a, Completed, note, false));
            id in t.commitments
            && CompletionDecides(s.commitments[id], t.commitments[id].status, t.actions, cal.dayOf(s.now), s.now)
  {
    RunKeepsInvariant(start, calls);
    LinkedWhenInvariant(Run(Init(start), calls), id);
    CompletionStep(Run(Init(start), calls), cal, a, note, id);
  }

  lemma LinkedWhenInvariant(s: State, id: int)
    requires Invariant(s) && id in s.commitments
    ensures Linked(s.commitments[id], s.actions)
  {
  }

  lemma CompletionStep(s: State, cal: Calendar, a: int, note: Option<nat>, id: int)
    requires LinkedTo(s, {a}, id) && Linked(s.commitments[id], s.actions)
    requires CheckIn(s, cal, a, Completed, note, false).Ok?
    ensures var t := Next(s, cal, SetActionStatus(a, Completed, note, false));
            id in t.commitments
            && CompletionDecides(s.commitments[id], t.commitments[id].status, t.actions, cal.dayOf(s.now), s.now)
  {
    CompletionFrom(s, cal, a, note, id);
  }

  // An active commitment with one of these actions among its live links.
  predicate LinkedTo(s: State, touched: set<int>, id: int) {
    id in s.commitments && Active(s.commitments[id].status) && s.commitments[id].links * touched != {}
  }

  lemma CompletionFrom(s: State, cal: Calendar, a: int, note: Option<nat>, id: int)
    requires CheckIn(s, cal, a, Completed, note, false).Ok?
    requires LinkedTo(s, {a}, id) && Linked(s.commitments[id], s.actions)
    ensures var t := CheckIn(s, cal, a, Completed, note, false).value;
            id in t.commitments
            && CompletionDecides(s.commitments[id], t.commitments[id].status, t.actions, cal.dayOf(s.now), s.now)
  {
    CheckInReevaluates(s, cal, a, note, id);
    CompletedStatus(s.commitments[id], a, s.actions, s.actions[a := Action(Completed, true)], cal, s.now);
  }

  lemma CheckInReevaluates(s: State, cal: Calendar, a: int, note: Option<nat>, id: int)
    requires CheckIn(s, cal, a, Completed, note, false).Ok? && LinkedTo(s, {a}, id)
    ensures var t := CheckIn(s, cal, a, Completed, note, false).value;
            && t.actions == s.actions[a := Action(Completed, true)]
            && id in t.commitments
            && t.commitments[id] == Reevaluated(s.commitments[id], t.actions, cal, s.now)
  {
    assert id in Affected(s.commitments, {a});
  }

  lemma AllCompleted(c: Commitment, actions: map<int, Action>, links: set<int>)
    requires LiveLinks(c, actions) == links
    ensures CompletedLinks(c, actions) == links <==> forall l :: l in links ==> actions[l].status == Completed
  {
    forall l ensures l in CompletedLinks(c, actions) <==> l in links && actions[l].status == Completed {}
    if forall l :: l in links ==> actions[l].status == Completed {
      assert CompletedLinks(c, actions) == links;
    }
  }

  lemma CompletedStatus(c: Commitment, a: int, before: map<int, Action>, after: map<int, Action>, cal: Calendar,
                        now: int)
    requires Linked(c, before) && Active(c.status) && a in c.links
    requires after == before[a := Action(Completed, true)]
    ensures CompletionDecides(c, Reevaluated(c, after, cal, now).status, after, cal.dayOf(now), now)
  {
    forall l ensures l in LiveLinks(c, after) <==> l in c.links {}
    assert LiveLinks(c, after) == c.links;
    AllCompleted(c, after, c.links);
    assert a in CompletedLinks(c, after);
    SameLinksSameCondition(c, AppliedDeadline(c, cal, now), after);
  }

  // Cancelling linked actions can keep a commitment only if all links counted, some are left, and all of those are
  // completed already; with none left it waits for the user.
  lemma {:induction false} CancellationKeepsExactly(
    start: int, calls: seq<Call>, cal: Calendar, gone: set<int>, id: int)
    requires Zoned(calls) && LinkedTo(Run(Init(start), calls), gone, id)
    ensures var s := Run(Init(start), calls);
            var t := WithCancelled(s, cal, gone);
            id in t.commitments
            && CutDecides(s.commitments[id], t.commitments[id], gone, s.actions, cal.dayOf(s.now), s.now)
  {
    RunKeepsInvariant(start, calls);
    CancellationFrom(Run(Init(start), calls), cal, gone, id);
  }

  ghost predicate CutDecides(
    c: Commitment, after: Commitment, gone: set<int>, actions: map<int, Action>, today: int, now: int)
  {
    var left := c.links - gone;
    && (forall l :: l in left ==> l in actions)
    && after.links == left
    && (left == {} ==> after.condition == Explicit)
    && after.status ==
         if PastSaving(c, today, now) then Broken
         else if c.condition == All && left != {} && forall l :: l in left ==> actions[l].status == Completed then Kept
         else c.status
  }

  lemma CancellationFrom(s: State, cal: Calendar, gone: set<int>, id: int)
    requires LinkedTo(s, gone, id) && Sound(s.commitments[id], s.actions)
    ensures var t := WithCancelled(s, cal, gone);
            id in t.commitments
            && CutDecides(s.commitments[id], t.commitments[id], gone, s.actions, cal.dayOf(s.now), s.now)
  {
    var c := s.commitments[id];
    CancelReevaluates(s, cal, gone, id);
    assert forall a :: a in c.links && a !in c.links * gone ==> a !in gone;
    CutStatus(c, c.links * gone, s.actions, WithCancelled(s, cal, gone).actions, cal, s.now);
    assert c.links - c.links * gone == c.links - gone;
  }

  lemma CancelReevaluates(s: State, cal: Calendar, gone: set<int>, id: int)
    requires LinkedTo(s, gone, id)
    ensures var t := WithCancelled(s, cal, gone);
            && (forall a :: a in s.actions && a !in gone ==> a in t.actions && t.actions[a] == s.actions[a])
            && id in t.commitments
            && t.commitments[id] == CutAndReevaluated(s.commitments[id], gone, t.actions, cal, s.now)
  {
    assert id in Affected(s.commitments, gone);
  }

  lemma CutStatus(c: Commitment, cut: set<int>, before: map<int, Action>, after: map<int, Action>, cal: Calendar,
                  now: int)
    requires Sound(c, before) && Active(c.status) && cut <= c.links && cut != {}
    requires forall a :: a in c.links && a !in cut ==> a in after && after[a] == before[a]
    ensures CutDecides(c, Reevaluated(Unlinked(c, cut, after, now), after, cal, now), cut, before, cal.dayOf(now), now)
  {
    UnlinkedLinked(c, cut, before, after, now);
    NotedTimesFrame(c, LinkRemovedEvent, |cut|, now);
    var u := Unlinked(c, cut, after, now);
    var left := c.links - cut;
    assert u.currentDue == c.currentDue && u.windowEnds == c.windowEnds;
    forall l ensures l in LiveLinks(u, after) <==> l in left {}
    assert LiveLinks(u, after) == left;
    AllCompleted(u, after, left);
    SameLinksSameCondition(u, AppliedDeadline(u, cal, now), after);
    forall l | l in CompletedLinks(u, after) ensures l in CompletedLinks(c, before) {}
    if c.condition != All && CompletedLinks(u, after) != {} {
      var l := Inhabited(CompletedLinks(u, after));
    }
  }

  lemma AppliedOnceSettles(c: Commitment, cal: Calendar, now: int)
    ensures DeadlineAction(AppliedDeadline(c, cal, now), cal.dayOf(now), now).None?
  {
  }

  // A second sweep at the same instant changes nothing.
  lemma SweepTwice(s: State, cal: Calendar)
    ensures Sweep(Sweep(s, cal), cal) == Sweep(s, cal)
  {
    var t := Sweep(s, cal);
    forall id | id in t.commitments ensures DeadlineAction(t.commitments[id], cal.dayOf(t.now), t.now).None? {
      AppliedOnceSettles(s.commitments[id], cal, s.now);
      assert DueIds(s, cal) == {} ==> id !in DueIds(s, cal);
    }
    assert DueIds(t, cal) == {};
  }
}
