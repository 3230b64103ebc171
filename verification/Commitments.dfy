// One commitment of the Promise Ledger (backend/src/lifeos/domain/commitments.py): its links, deadlines, deferrals and
// explanation windows, the grammar of its event log, and what an operation may do to it.
// Instants are seconds, local dates are day numbers.
module Commitments {
  import opened Prelude
  import opened Actions

  const EXPLANATION_MIN := 20
  const EXPLANATION_WINDOW := 24 * 60 * 60
  const WINDOW_DAYS := 30

  // The user's time zone: the local date of an instant, and the instant a local date ends.
  datatype Calendar = Calendar(dayOf: int -> int, dayEnd: int -> int)

  ghost predicate Consistent(cal: Calendar) {
    forall t, d :: cal.dayOf(t) <= d <==> t < cal.dayEnd(d)
  }

  type ActionStatus = Actions.Status

  datatype Action = Action(status: ActionStatus, active: bool)

  datatype Status = Open | Kept | Broken | Deferred | Cancelled

  datatype Condition = Single | All | Any | Explicit

  datatype EventKind =
    | CreatedEvent | KeptEvent | BrokenEvent | DeferredEvent | RedeferredEvent | CancelledEvent
    | WindowOpenedEvent | ExplainedEvent | LinkRemovedEvent | ConditionChangedEvent

  datatype Event = Event(
    kind: EventKind, previous: Option<Status>, next: Status,
    previousDue: Option<int>, newDue: Option<int>, at: int)

  // `links` are the live Daily Action links, `removed` the ones a cancellation took away.
  datatype Commitment = Commitment(
    status: Status, currentDue: int, condition: Condition, deferralCount: nat, windowEnds: Option<int>,
    keptAt: Option<int>, brokenAt: Option<int>, cancelledAt: Option<int>,
    links: set<int>, removed: set<int>, log: seq<Event>)

  datatype Error = NotFound | Invalid | BadTransition | GoalArchived

  // ---------------------------------------------------------------- the pure rules

  predicate Active(status: Status) { status == Open || status == Deferred }

  predicate MayBecome(current: Status, next: Status) {
    match current
    case Open => next != Open
    case Deferred => next in {Kept, Broken, Deferred}
    case _ => false
  }

  function ResolveCondition(requested: Option<Condition>, actionLinks: nat): Result<Condition, Error> {
    if actionLinks == 0 then
      if requested.None? || requested.value == Explicit then Ok(Explicit) else Err(Invalid)
    else if actionLinks == 1 then
      if requested.None? || requested.value == Single then Ok(Single) else Err(Invalid)
    else if requested == Some(All) || requested == Some(Any) then Ok(requested.value)
    else Err(Invalid)
  }

  predicate Linkable(a: Action) { a.active && (a.status == Planned || a.status == Started) }

  // The non-removed links whose Daily Action is active, and those of them that are completed.
  function LiveLinks(c: Commitment, actions: map<int, Action>): set<int> {
    set a | a in c.links && a in actions && actions[a].active
  }

  function CompletedLinks(c: Commitment, actions: map<int, Action>): set<int> {
    set a | a in LiveLinks(c, actions) && actions[a].status == Completed
  }

  predicate Satisfied(c: Commitment, actions: map<int, Action>) {
    var live, completed := LiveLinks(c, actions), CompletedLinks(c, actions);
    if c.condition == Explicit || live == {} then false
    else if c.condition == All then completed == live
    else completed != {}
  }

  predicate WindowOpen(windowEnds: Option<int>, now: int) {
    windowEnds.Some? && now < windowEnds.value
  }

  datatype DeadlineStep = Break | OpenWindow

  function DeadlineAction(c: Commitment, today: int, now: int): Option<DeadlineStep> {
    if !Active(c.status) || c.currentDue >= today then None
    else if c.status == Open then Some(Break)
    else if c.windowEnds.None? then Some(OpenWindow)
    else if now >= c.windowEnds.value then Some(Break)
    else None
  }

  datatype DeferralKind = FirstDeferral | Redeferral

  function ValidateDeferral(
    c: Commitment, newDue: int, today: int, inWindow: bool, explained: bool, acknowledged: bool)
    : Result<DeferralKind, Error>
  {
    if !Active(c.status) then Err(BadTransition)
    else if newDue <= today || newDue <= c.currentDue then Err(Invalid)
    else if c.status == Open then Ok(FirstDeferral)
    else if !inWindow || !explained then Err(BadTransition)
    else if !acknowledged then Err(Invalid)
    else Ok(Redeferral)
  }

  function ValidateExplanation(status: Status, inWindow: bool, explained: bool, length: nat): Option<Error> {
    if status != Deferred || !inWindow || explained then Some(BadTransition)
    else if length < EXPLANATION_MIN then Some(Invalid)
    else None
  }

  // ---------------------------------------------------------------- one commitment at a time

  function EventOf(next: Status): EventKind
    requires next in {Kept, Broken, Cancelled}
  {
    match next
    case Kept => KeptEvent
    case Broken => BrokenEvent
    case Cancelled => CancelledEvent
  }

  function Closed(c: Commitment, next: Status, now: int): Commitment
    requires next in {Kept, Broken, Cancelled}
  {
    c.(status := next,
       keptAt := if next == Kept then Some(now) else c.keptAt,
       brokenAt := if next == Broken then Some(now) else c.brokenAt,
       cancelledAt := if next == Cancelled then Some(now) else c.cancelledAt,
       log := c.log + [Event(EventOf(next), Some(c.status), next, Some(c.currentDue), Some(c.currentDue), now)])
  }

  function Opened(c: Commitment, endsAt: int, now: int): Commitment {
    c.(windowEnds := Some(endsAt), log := c.log + [Event(WindowOpenedEvent, Some(Deferred), Deferred, None, None, now)])
  }

  function AppliedDeadline(c: Commitment, cal: Calendar, now: int): Commitment {
    match DeadlineAction(c, cal.dayOf(now), now)
    case None => c
    case Some(Break) => Closed(c, Broken, now)
    case Some(OpenWindow) => Opened(c, Max(cal.dayEnd(c.currentDue), now) + EXPLANATION_WINDOW, now)
  }

  // Deadline first (a late completion cannot rescue an Open commitment past due), then the condition.
  function Reevaluated(c: Commitment, actions: map<int, Action>, cal: Calendar, now: int): Commitment {
    var d := AppliedDeadline(c, cal, now);
    if Active(d.status) && Satisfied(d, actions) then Closed(d, Kept, now) else d
  }

  // The explanation submitted since the latest window opened, if any.
  predicate Explained(log: seq<Event>) {
    log != []
    && (log[|log| - 1].kind.ExplainedEvent?
        || (!log[|log| - 1].kind.WindowOpenedEvent? && Explained(log[..|log| - 1])))
  }

  function Postponed(c: Commitment, newDue: int, kind: DeferralKind, now: int): Commitment {
    c.(status := Deferred, deferralCount := c.deferralCount + 1, currentDue := newDue, windowEnds := None,
       log := c.log + [Event(if kind.FirstDeferral? then DeferredEvent else RedeferredEvent,
                             Some(c.status), Deferred, Some(c.currentDue), Some(newDue), now)])
  }

  function Justified(c: Commitment, now: int): Commitment {
    c.(log := c.log + [Event(ExplainedEvent, Some(Deferred), Deferred, None, None, now)])
  }

  function Noted(c: Commitment, kind: EventKind, now: int): Commitment {
    c.(log := c.log + [Event(kind, Some(c.status), c.status, None, None, now)])
  }

  function NotedTimes(c: Commitment, kind: EventKind, n: nat, now: int): Commitment {
    if n == 0 then c else Noted(NotedTimes(c, kind, n - 1, now), kind, now)
  }

  // One link_removed event for each cancelled link; with none left the condition becomes explicit.
  function Unlinked(c: Commitment, gone: set<int>, actions: map<int, Action>, now: int): Commitment {
    var d := NotedTimes(c, LinkRemovedEvent, |gone|, now).(links := c.links - gone, removed := c.removed + gone);
    if LiveLinks(d, actions) == {} && d.condition != Explicit
    then Noted(d.(condition := Explicit), ConditionChangedEvent, now)
    else d
  }

  function Fresh(due: int, condition: Condition, ids: set<int>, now: int): Commitment {
    Commitment(Open, due, condition, 0, None, None, None, None, ids, {},
               [Event(CreatedEvent, None, Open, None, Some(due), now)])
  }

  // ---------------------------------------------------------------- the event-log grammar

  // created, then optionally deferred followed by (window opened, explained, redeferred)* and an optional
  // last window with at most one explanation, then at most one terminal event. Removed links and condition
  // changes may stand anywhere before the terminal event.
  datatype Phase =
    | NothingYet | IsOpen | IsDeferred | InWindowUnexplained | InWindowExplained | WasKept | WasBroken | WasCancelled
    | Ungrammatical

  function Advance(phase: Phase, kind: EventKind): Phase {
    match (phase, kind)
    case (NothingYet, CreatedEvent) => IsOpen
    case (IsOpen, DeferredEvent) => IsDeferred
    case (IsDeferred, WindowOpenedEvent) => InWindowUnexplained
    case (InWindowUnexplained, ExplainedEvent) => InWindowExplained
    case (InWindowExplained, RedeferredEvent) => IsDeferred
    case (IsOpen, CancelledEvent) => WasCancelled
    case (IsOpen, BrokenEvent) => WasBroken
    case (InWindowUnexplained, BrokenEvent) => WasBroken
    case (InWindowExplained, BrokenEvent) => WasBroken
    case (_, KeptEvent) => if Running(phase) then WasKept else Ungrammatical
    case (_, LinkRemovedEvent) => if Running(phase) then phase else Ungrammatical
    case (_, ConditionChangedEvent) => if Running(phase) then phase else Ungrammatical
    case _ => Ungrammatical
  }

  predicate Running(phase: Phase) {
    phase.IsOpen? || phase.IsDeferred? || phase.InWindowUnexplained? || phase.InWindowExplained?
  }

  // What a reader of the log alone can tell.
  datatype Summary = Summary(
    phase: Phase, status: Option<Status>, due: Option<int>, deferrals: nat, openedAt: Option<int>, chained: bool)

  function Extend(s: Summary, e: Event): Summary {
    Summary(Advance(s.phase, e.kind), Some(e.next), if e.newDue.Some? then e.newDue else s.due,
            if e.kind.DeferredEvent? || e.kind.RedeferredEvent? then s.deferrals + 1 else s.deferrals,
            if e.kind.WindowOpenedEvent? then Some(e.at) else s.openedAt,
            s.chained && e.previous == s.status)
  }

  function Fold(log: seq<Event>): Summary {
    if log == [] then Summary(NothingYet, None, None, 0, None, true)
    else Extend(Fold(log[..|log| - 1]), log[|log| - 1])
  }

  lemma FoldSnoc(log: seq<Event>, e: Event)
    ensures Fold(log + [e]) == Extend(Fold(log), e)
    ensures Explained(log + [e]) == (e.kind.ExplainedEvent? || (!e.kind.WindowOpenedEvent? && Explained(log)))
  {
    assert (log + [e])[..|log|] == log;
  }

  predicate PhaseOf(phase: Phase, status: Status, windowEnds: Option<int>) {
    match phase
    case IsOpen => status == Open && windowEnds.None?
    case IsDeferred => status == Deferred && windowEnds.None?
    case InWindowUnexplained => status == Deferred && windowEnds.Some?
    case InWindowExplained => status == Deferred && windowEnds.Some?
    case WasKept => status == Kept
    case WasBroken => status == Broken
    case WasCancelled => status == Cancelled
    case _ => false
  }

  // The log is grammatical, each event starts from the status the previous one left, and folding it gives
  // back the commitment's status, due date, deferral count and, one full window after it opened, its window.
  ghost predicate LogTells(c: Commitment) {
    var f := Fold(c.log);
    && PhaseOf(f.phase, c.status, c.windowEnds)
    && f.status == Some(c.status)
    && f.due == Some(c.currentDue)
    && f.deferrals == c.deferralCount
    && f.chained
    && (f.phase.InWindowUnexplained? ==> !Explained(c.log))
    && (f.phase.InWindowExplained? ==> Explained(c.log))
    && (Active(c.status) && c.windowEnds.Some? ==>
          f.openedAt.Some? && c.windowEnds.value == f.openedAt.value + EXPLANATION_WINDOW)
  }

  lemma ClosedTells(c: Commitment, next: Status, now: int)
    requires LogTells(c) && next in {Kept, Broken, Cancelled} && MayBecome(c.status, next)
    requires next == Broken ==> c.status == Open || c.windowEnds.Some?
    ensures LogTells(Closed(c, next, now))
  {
    FoldSnoc(c.log, Event(EventOf(next), Some(c.status), next, Some(c.currentDue), Some(c.currentDue), now));
  }

  lemma AppliedDeadlineTells(c: Commitment, cal: Calendar, now: int)
    requires Consistent(cal) && LogTells(c)
    ensures LogTells(AppliedDeadline(c, cal, now))
  {
    match DeadlineAction(c, cal.dayOf(now), now) {
      case None =>
      case Some(Break) => ClosedTells(c, Broken, now);
      case Some(OpenWindow) =>
        assert now >= cal.dayEnd(c.currentDue);
        FoldSnoc(c.log, Event(WindowOpenedEvent, Some(Deferred), Deferred, None, None, now));
    }
  }

  lemma {:induction false} ReevaluatedTells(c: Commitment, actions: map<int, Action>, cal: Calendar, now: int)
    requires Consistent(cal) && LogTells(c)
    ensures LogTells(Reevaluated(c, actions, cal, now))
  {
    AppliedDeadlineTells(c, cal, now);
    var d := AppliedDeadline(c, cal, now);
    if Active(d.status) {
      ClosedTells(d, Kept, now);
    }
  }

  lemma NotedTells(c: Commitment, kind: EventKind, now: int)
    requires LogTells(c) && Active(c.status) && (kind.LinkRemovedEvent? || kind.ConditionChangedEvent?)
    ensures LogTells(Noted(c, kind, now))
  {
    FoldSnoc(c.log, Event(kind, Some(c.status), c.status, None, None, now));
  }

  lemma {:induction false} NotedTimesTells(c: Commitment, kind: EventKind, n: nat, now: int)
    requires LogTells(c) && Active(c.status) && (kind.LinkRemovedEvent? || kind.ConditionChangedEvent?)
    ensures LogTells(NotedTimes(c, kind, n, now)) && NotedTimes(c, kind, n, now).status == c.status
  {
    if n > 0 {
      NotedTimesTells(c, kind, n - 1, now);
      NotedTells(NotedTimes(c, kind, n - 1, now), kind, now);
    }
  }

  // Only the log changes, by n events of that kind at its end.
  lemma {:induction false} NotedTimesFrame(c: Commitment, kind: EventKind, n: nat, now: int)
    ensures var d := NotedTimes(c, kind, n, now);
            && d == c.(log := d.log) && c.log <= d.log && |d.log| == |c.log| + n
            && (forall i :: |c.log| <= i < |d.log| ==> d.log[i].kind == kind)
  {
    if n > 0 {
      NotedTimesFrame(c, kind, n - 1, now);
    }
  }

  lemma UnlinkedTells(c: Commitment, gone: set<int>, actions: map<int, Action>, now: int)
    requires LogTells(c) && Active(c.status)
    ensures LogTells(Unlinked(c, gone, actions, now))
  {
    NotedTimesTells(c, LinkRemovedEvent, |gone|, now);
    NotedTimesFrame(c, LinkRemovedEvent, |gone|, now);
    var d := NotedTimes(c, LinkRemovedEvent, |gone|, now).(links := c.links - gone, removed := c.removed + gone);
    assert LogTells(d);
    NotedTells(d.(condition := Explicit), ConditionChangedEvent, now);
  }

  lemma PostponedTells(c: Commitment, newDue: int, kind: DeferralKind, now: int)
    requires LogTells(c) && (if kind.FirstDeferral? then c.status == Open
                             else c.status == Deferred && c.windowEnds.Some? && Explained(c.log))
    ensures LogTells(Postponed(c, newDue, kind, now))
  {
    FoldSnoc(c.log, Event(if kind.FirstDeferral? then DeferredEvent else RedeferredEvent,
                          Some(c.status), Deferred, Some(c.currentDue), Some(newDue), now));
  }

  lemma JustifiedTells(c: Commitment, now: int)
    requires LogTells(c) && c.status == Deferred && c.windowEnds.Some? && !Explained(c.log)
    ensures LogTells(Justified(c, now))
  {
    FoldSnoc(c.log, Event(ExplainedEvent, Some(Deferred), Deferred, None, None, now));
  }

  lemma FreshTells(due: int, condition: Condition, ids: set<int>, now: int)
    ensures LogTells(Fresh(due, condition, ids, now))
  {
    FoldSnoc([], Event(CreatedEvent, None, Open, None, Some(due), now));
    assert [] + [Event(CreatedEvent, None, Open, None, Some(due), now)]
        == [Event(CreatedEvent, None, Open, None, Some(due), now)];
  }

  // ---------------------------------------------------------------- links, conditions and actions together

  // Live links of an active commitment point to active actions, and none left means explicit.
  ghost predicate Linked(c: Commitment, actions: map<int, Action>) {
    Active(c.status) ==>
      && (forall a :: a in c.links ==> a in actions && actions[a].active)
      && (c.condition == Explicit <==> c.links == {})
  }

  // No active commitment's completion condition is satisfied.
  ghost predicate Unmet(c: Commitment, actions: map<int, Action>) {
    Active(c.status) ==> !Satisfied(c, actions)
  }

  lemma SameLinksSameCondition(c: Commitment, d: Commitment, actions: map<int, Action>)
    requires c.links == d.links && c.condition == d.condition
    ensures Satisfied(c, actions) == Satisfied(d, actions)
  {
    assert LiveLinks(c, actions) == LiveLinks(d, actions);
    assert CompletedLinks(c, actions) == CompletedLinks(d, actions);
  }

  lemma ReevaluatedUnmet(c: Commitment, actions: map<int, Action>, cal: Calendar, now: int)
    requires Linked(c, actions)
    ensures Linked(Reevaluated(c, actions, cal, now), actions)
    ensures Unmet(Reevaluated(c, actions, cal, now), actions)
  {
  }

  lemma UnlinkedLinked(c: Commitment, gone: set<int>, before: map<int, Action>, after: map<int, Action>, now: int)
    requires Active(c.status) && Linked(c, before) && gone <= c.links && gone != {}
    requires forall a :: a in c.links && a !in gone ==> a in after && after[a].active
    ensures var d := Unlinked(c, gone, after, now);
            Linked(d, after) && d.links == c.links - gone && d.removed == c.removed + gone && d.status == c.status
  {
    NotedTimesFrame(c, LinkRemovedEvent, |gone|, now);
    var d := NotedTimes(c, LinkRemovedEvent, |gone|, now).(links := c.links - gone, removed := c.removed + gone);
    forall a ensures a in LiveLinks(d, after) <==> a in d.links {}
    assert LiveLinks(d, after) == d.links;
    var x := Inhabited(gone);
  }

  lemma UntouchedStays(c: Commitment, before: map<int, Action>, after: map<int, Action>, changed: set<int>)
    requires Linked(c, before) && Unmet(c, before)
    requires Active(c.status) ==> c.links * changed == {}
    requires forall a :: a in before && a !in changed ==> a in after && after[a] == before[a]
    ensures Linked(c, after) && Unmet(c, after)
  {
    if Active(c.status) {
      forall a | a in c.links ensures a in after && after[a] == before[a] {
        assert a !in c.links * changed;
      }
      forall a ensures a in LiveLinks(c, after) <==> a in LiveLinks(c, before) {}
      assert LiveLinks(c, after) == LiveLinks(c, before);
      assert CompletedLinks(c, after) == CompletedLinks(c, before);
    }
  }

  // ---------------------------------------------------------------- what a step may do to one commitment

  // Terminal commitments never change; the log only grows; nothing overdue is ever kept; a deferred
  // commitment is broken no earlier than a full window after that window opened; each deferral moves the
  // due date strictly forward, past today.
  ghost predicate Moved(c: Commitment, d: Commitment, cal: Calendar, now: int) {
    var today := cal.dayOf(now);
    && c.log <= d.log
    && (!Active(c.status) ==> d == c)
    && (Active(c.status) && d.status == Kept ==>
          && !(c.status == Open && c.currentDue < today)
          && !(c.status == Deferred && c.currentDue < today && c.windowEnds.Some? && c.windowEnds.value <= now))
    && (c.status == Open && d.status == Broken ==> c.currentDue < today)
    && (c.status == Deferred && d.status == Broken ==>
          && c.currentDue < today
          && Fold(c.log).openedAt.Some?
          && now >= Fold(c.log).openedAt.value + EXPLANATION_WINDOW)
    && (c.status == Deferred ==> d.status != Open && d.status != Cancelled)
    && (d.deferralCount == c.deferralCount ==> d.currentDue == c.currentDue)
    && (d.deferralCount != c.deferralCount ==>
          d.deferralCount == c.deferralCount + 1 && d.currentDue > c.currentDue && d.currentDue > today)
  }

  lemma AppliedDeadlineMoved(c: Commitment, cal: Calendar, now: int)
    requires Consistent(cal) && LogTells(c)
    ensures var d := AppliedDeadline(c, cal, now);
            && Moved(c, d, cal, now)
            && (Active(d.status) ==>
                  && d.status == c.status && d.currentDue == c.currentDue && d.deferralCount == c.deferralCount
                  && !(c.status == Open && c.currentDue < cal.dayOf(now))
                  && !(c.status == Deferred && c.currentDue < cal.dayOf(now)
                       && c.windowEnds.Some? && c.windowEnds.value <= now))
            && (d.status == c.status || d.status == Broken)
            && d.links == c.links && d.condition == c.condition && d.removed == c.removed
  {
  }

  lemma ReevaluatedMoved(c: Commitment, actions: map<int, Action>, cal: Calendar, now: int)
    requires Consistent(cal) && LogTells(c)
    ensures Moved(c, Reevaluated(c, actions, cal, now), cal, now)
  {
    AppliedDeadlineMoved(c, cal, now);
  }

  lemma NotedOpenedAt(c: Commitment, kind: EventKind, now: int)
    requires kind.LinkRemovedEvent? || kind.ConditionChangedEvent?
    ensures Fold(Noted(c, kind, now).log).openedAt == Fold(c.log).openedAt
  {
    FoldSnoc(c.log, Event(kind, Some(c.status), c.status, None, None, now));
  }

  lemma {:induction false} NotedKeepsOpenedAt(c: Commitment, kind: EventKind, n: nat, now: int)
    requires kind.LinkRemovedEvent? || kind.ConditionChangedEvent?
    ensures Fold(NotedTimes(c, kind, n, now).log).openedAt == Fold(c.log).openedAt
  {
    if n > 0 {
      NotedKeepsOpenedAt(c, kind, n - 1, now);
      NotedOpenedAt(NotedTimes(c, kind, n - 1, now), kind, now);
    }
  }

  lemma CutMoved(c: Commitment, gone: set<int>, actions: map<int, Action>, cal: Calendar, now: int)
    requires Consistent(cal) && LogTells(c) && Active(c.status)
    ensures Moved(c, Reevaluated(Unlinked(c, gone, actions, now), actions, cal, now), cal, now)
  {
    UnlinkedTells(c, gone, actions, now);
    NotedTimesFrame(c, LinkRemovedEvent, |gone|, now);
    NotedKeepsOpenedAt(c, LinkRemovedEvent, |gone|, now);
    var d := NotedTimes(c, LinkRemovedEvent, |gone|, now).(links := c.links - gone, removed := c.removed + gone);
    FoldSnoc(d.log, Event(ConditionChangedEvent, Some(d.status), d.status, None, None, now));
    ReevaluatedMoved(Unlinked(c, gone, actions, now), actions, cal, now);
  }
}
