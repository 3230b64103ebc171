// What each operation of the Promise Ledger answers and writes (backend/src/lifeos/domain/commitments.py, checkins.py,
// schedule/reschedule.py, integrity.py), told from the rows before it: every field of every row, and the rows it leaves
// alone.
module LedgerEffects {
  import opened Prelude
  import opened Actions
  import opened Commitments
  import opened Ledger

  // ---------------------------------------------------------------- one commitment

  // What a deadline has made of a commitment by now: an open one past due is broken; a deferred one past due gets a
  // window of 24 hours from the end of its due date, or from now if that is later, and is broken once that is over.
  ghost function AtDeadline(c: Commitment, cal: Calendar, now: int): Commitment {
    if c.currentDue >= cal.dayOf(now) then c
    else if c.status == Open || (c.status == Deferred && c.windowEnds.Some? && now >= c.windowEnds.value) then
      c.(status := Broken, brokenAt := Some(now),
         log := c.log + [Event(BrokenEvent, Some(c.status), Broken, Some(c.currentDue), Some(c.currentDue), now)])
    else if c.status == Deferred && c.windowEnds.None? then
      c.(windowEnds := Some(Max(now, cal.dayEnd(c.currentDue)) + 24 * 60 * 60),
         log := c.log + [Event(WindowOpenedEvent, Some(Deferred), Deferred, None, None, now)])
    else c
  }

  lemma DeadlineEffect(c: Commitment, cal: Calendar, now: int)
    ensures AppliedDeadline(c, cal, now) == AtDeadline(c, cal, now)
  {
  }

  ghost function KeptNow(c: Commitment, now: int): Commitment {
    c.(status := Kept, keptAt := Some(now),
       log := c.log + [Event(KeptEvent, Some(c.status), Kept, Some(c.currentDue), Some(c.currentDue), now)])
  }

  // The completion condition: of the links to active actions, all are completed, or one is; never without such a link.
  ghost predicate ConditionMet(c: Commitment, actions: map<int, Action>) {
    && (exists a :: a in c.links && a in actions && actions[a].active && actions[a].status == Completed)
    && c.condition != Explicit
    && (c.condition == All ==>
          forall a :: a in c.links && a in actions && actions[a].active ==> actions[a].status == Completed)
  }

  // The deadline goes first; a commitment still active is then kept if its condition is met.
  ghost function Settled(c: Commitment, actions: map<int, Action>, cal: Calendar, now: int): Commitment {
    var d := AtDeadline(c, cal, now);
    if (d.status == Open || d.status == Deferred) && ConditionMet(d, actions) then KeptNow(d, now) else d
  }

  lemma ConditionMeans(c: Commitment, actions: map<int, Action>)
    ensures Satisfied(c, actions) <==> ConditionMet(c, actions)
  {
    var live, completed := LiveLinks(c, actions), CompletedLinks(c, actions);
    if ConditionMet(c, actions) {
      var a :| a in c.links && a in actions && actions[a].active && actions[a].status == Completed;
      assert a in completed;
      if c.condition == All {
        forall b ensures b in completed <==> b in live {}
      }
    }
    if Satisfied(c, actions) {
      var a := Inhabited(completed);
      assert forall b :: b in c.links && b in actions && actions[b].active <==> b in live;
    }
  }

  lemma SettlingEffect(c: Commitment, actions: map<int, Action>, cal: Calendar, now: int)
    ensures Reevaluated(c, actions, cal, now) == Settled(c, actions, cal, now)
  {
    DeadlineEffect(c, cal, now);
    ConditionMeans(AtDeadline(c, cal, now), actions);
  }

  // The cancelled links move to the removed ones with one event each; if no link to an active action is left, the
  // condition becomes explicit, with an event of its own.
  ghost function WithoutLinks(c: Commitment, gone: set<int>, actions: map<int, Action>, now: int): Commitment {
    var cut := c.links * gone;
    var d := c.(links := c.links - gone, removed := c.removed + cut,
                log := c.log + seq(|cut|, _ => Event(LinkRemovedEvent, Some(c.status), c.status, None, None, now)));
    if c.condition != Explicit && !exists a :: a in d.links && a in actions && actions[a].active then
      d.(condition := Explicit,
         log := d.log + [Event(ConditionChangedEvent, Some(c.status), c.status, None, None, now)])
    else d
  }

  lemma {:induction false} NotedTimesAre(c: Commitment, kind: EventKind, n: nat, now: int)
    ensures NotedTimes(c, kind, n, now)
         == c.(log := c.log + seq(n, _ => Event(kind, Some(c.status), c.status, None, None, now)))
  {
    var e := Event(kind, Some(c.status), c.status, None, None, now);
    if n > 0 {
      NotedTimesAre(c, kind, n - 1, now);
      assert c.log + seq(n, _ => e) == (c.log + seq(n - 1, _ => e)) + [e];
    } else {
      assert c.log + seq(n, _ => e) == c.log;
    }
  }

  lemma UnlinkingEffect(c: Commitment, gone: set<int>, actions: map<int, Action>, now: int)
    ensures Unlinked(c, c.links * gone, actions, now) == WithoutLinks(c, gone, actions, now)
  {
    var cut := c.links * gone;
    NotedTimesAre(c, LinkRemovedEvent, |cut|, now);
    assert c.links - cut == c.links - gone;
    var d := NotedTimes(c, LinkRemovedEvent, |cut|, now).(links := c.links - cut, removed := c.removed + cut);
    assert LiveLinks(d, actions) == {} <==> !exists a :: a in d.links && a in actions && actions[a].active by {
      if a :| a in d.links && a in actions && actions[a].active {
        assert a in LiveLinks(d, actions);
      }
      if LiveLinks(d, actions) != {} {
        var a := Inhabited(LiveLinks(d, actions));
      }
    }
  }

  // ---------------------------------------------------------------- today's snapshot

  // Kept and broken in the last thirty local days, and deferred with a due date in them that has passed.
  ghost predicate CountedToday(n: Counts, commitments: map<int, Commitment>, cal: Calendar, today: int) {
    var start, end := cal.dayEnd(today - 30), cal.dayEnd(today);
    && n.kept == |set id | id in commitments && commitments[id].status == Kept && commitments[id].keptAt.Some?
                           && start <= commitments[id].keptAt.value < end|
    && n.broken == |set id | id in commitments && commitments[id].status == Broken && commitments[id].brokenAt.Some?
                             && start <= commitments[id].brokenAt.value < end|
    && n.overdueDeferred == |set id | id in commitments && commitments[id].status == Deferred
                                      && today - 29 <= commitments[id].currentDue < today|
  }

  lemma CountEffect(commitments: map<int, Commitment>, cal: Calendar, today: int)
    ensures CountedToday(Count(commitments, cal, today), commitments, cal, today)
  {
    var start, end := cal.dayEnd(today - 30), cal.dayEnd(today);
    var kept := set id | id in commitments && commitments[id].status == Kept && commitments[id].keptAt.Some?
                         && start <= commitments[id].keptAt.value < end;
    var broken := set id | id in commitments && commitments[id].status == Broken && commitments[id].brokenAt.Some?
                           && start <= commitments[id].brokenAt.value < end;
    var overdue := set id | id in commitments && commitments[id].status == Deferred
                            && today - 29 <= commitments[id].currentDue < today;
    forall id
      ensures id in kept <==> id in KeptIds(commitments, cal, today)
      ensures id in broken <==> id in BrokenIds(commitments, cal, today)
      ensures id in overdue <==> id in OverdueIds(commitments, today)
    {}
    assert kept == KeptIds(commitments, cal, today) && broken == BrokenIds(commitments, cal, today);
    assert overdue == OverdueIds(commitments, today);
  }

  // Only today's row may differ, and it then holds a fresh count.
  ghost predicate TodayRecounted(s: State, t: State, cal: Calendar) {
    var today := cal.dayOf(s.now);
    && today in t.snapshots
    && t.snapshots == s.snapshots[today := t.snapshots[today]]
    && CountedToday(t.snapshots[today], t.commitments, cal, today)
  }

  lemma RefreshEffect(s: State, cal: Calendar)
    ensures var t := Next(s, cal, RefreshIntegrity);
            TodayRecounted(s, t, cal) && t == s.(snapshots := t.snapshots)
  {
    CountEffect(s.commitments, cal, cal.dayOf(s.now));
  }

  // ---------------------------------------------------------------- the user's requests about one commitment

  // One commitment's row is replaced and the snapshot recounted; nothing else changes.
  ghost predicate Replaced(s: State, t: State, cal: Calendar, id: int, d: Commitment) {
    t == s.(commitments := s.commitments[id := d], snapshots := t.snapshots) && TodayRecounted(s, t, cal)
  }

  // Keep: the deadline first. Refused once broken or closed, with nothing changed, the break included.
  lemma KeepEffect(s: State, cal: Calendar, id: int)
    ensures var t := Next(s, cal, Keep(id));
            if id in s.commitments && AtDeadline(s.commitments[id], cal, s.now).status in {Open, Deferred} then
              Replaced(s, t, cal, id, KeptNow(AtDeadline(s.commitments[id], cal, s.now), s.now))
            else
              t == s && Attempt(s, cal, Keep(id)) == Err(if id in s.commitments then BadTransition else NotFound)
  {
    if id in s.commitments {
      DeadlineEffect(s.commitments[id], cal, s.now);
      CountEffect(Next(s, cal, Keep(id)).commitments, cal, cal.dayOf(s.now));
    }
  }

  lemma CancelEffect(s: State, cal: Calendar, id: int)
    ensures var t := Next(s, cal, Cancel(id));
            if id in s.commitments && s.commitments[id].status == Open
               && s.commitments[id].currentDue >= cal.dayOf(s.now)
            then
              var c := s.commitments[id];
              var e := Event(CancelledEvent, Some(Open), Cancelled, Some(c.currentDue), Some(c.currentDue), s.now);
              Replaced(s, t, cal, id, c.(status := Cancelled, cancelledAt := Some(s.now), log := c.log + [e]))
            else
              t == s && Attempt(s, cal, Cancel(id)) == Err(if id in s.commitments then BadTransition else NotFound)
  {
    if id in s.commitments {
      CountEffect(Next(s, cal, Cancel(id)).commitments, cal, cal.dayOf(s.now));
    }
  }

  // The new due date, one more deferral and no window; the event tells the old and the new date.
  ghost function DeferredTo(c: Commitment, newDue: int, now: int): Commitment {
    c.(status := Deferred, currentDue := newDue, deferralCount := c.deferralCount + 1, windowEnds := None,
       log := c.log + [Event(if c.status == Open then DeferredEvent else RedeferredEvent,
                             Some(c.status), Deferred, Some(c.currentDue), Some(newDue), now)])
  }

  lemma DeferralEffect(s: State, cal: Calendar, id: int, newDue: int, acknowledged: bool)
    requires id in s.commitments
    ensures var d, today := AtDeadline(s.commitments[id], cal, s.now), cal.dayOf(s.now);
            var justified := d.windowEnds.Some? && s.now < d.windowEnds.value && Explained(d.log);
            var op := Postpone(id, newDue, acknowledged);
            var answer, t := Attempt(s, cal, op), Next(s, cal, op);
            if d.status !in {Open, Deferred} then answer == Err(BadTransition) && t == s
            else if newDue <= today || newDue <= d.currentDue then answer == Err(Invalid) && t == s
            else if d.status == Deferred && !justified then answer == Err(BadTransition) && t == s
            else if d.status == Deferred && !acknowledged then answer == Err(Invalid) && t == s
            else answer == Ok(t) && Replaced(s, t, cal, id, DeferredTo(d, newDue, s.now))
  {
    DeadlineEffect(s.commitments[id], cal, s.now);
    CountEffect(Next(s, cal, Postpone(id, newDue, acknowledged)).commitments, cal, cal.dayOf(s.now));
  }

  lemma ExplanationEffect(s: State, cal: Calendar, id: int, length: nat)
    requires id in s.commitments
    ensures var d := AtDeadline(s.commitments[id], cal, s.now);
            var op := SubmitExplanation(id, length);
            var answer, t := Attempt(s, cal, op), Next(s, cal, op);
            if d.status != Deferred || d.windowEnds.None? || d.windowEnds.value <= s.now || Explained(d.log) then
              answer == Err(BadTransition) && t == s
            else if length < 20 then answer == Err(Invalid) && t == s
            else
              && answer == Ok(t)
              && t == s.(commitments := s.commitments[id :=
                   d.(log := d.log + [Event(ExplainedEvent, Some(Deferred), Deferred, None, None, s.now)])])
  {
    DeadlineEffect(s.commitments[id], cal, s.now);
  }

  lemma UnknownCommitmentEffect(s: State, cal: Calendar, id: int, newDue: int, acknowledged: bool, length: nat)
    requires id !in s.commitments
    ensures Attempt(s, cal, Postpone(id, newDue, acknowledged)) == Err(NotFound)
         == Attempt(s, cal, SubmitExplanation(id, length))
  {
  }

  // ---------------------------------------------------------------- creation, deadlines, the clock

  ghost predicate Fits(requested: Option<Condition>, n: nat, condition: Condition) {
    if n == 0 then requested in {None, Some(Explicit)} && condition == Explicit
    else if n == 1 then requested in {None, Some(Single)} && condition == Single
    else requested in {Some(All), Some(Any)} && Some(condition) == requested
  }

  // Refused for a past date or a repeated link, then for a missing entity, then for an action that is not active and
  // unfinished or a condition that does not fit their number; otherwise one new open commitment under the next id.
  lemma CreationEffect(
    s: State, cal: Calendar, due: int, links: seq<Link>, requested: Option<Condition>, known: set<int>, ids: set<int>)
    requires forall a :: a in ids <==> ActionLink(a) in links
    ensures var op := NewCommitment(due, links, requested, known);
            var answer, t := Attempt(s, cal, op), Next(s, cal, op);
            var created := condition => Commitment(Open, due, condition, 0, None, None, None, None, ids, {},
                                                  [Event(CreatedEvent, None, Open, None, Some(due), s.now)]);
            if due < cal.dayOf(s.now) || exists i, j :: 0 <= i < j < |links| && links[i] == links[j] then
              answer == Err(Invalid) && t == s
            else if (exists a :: ActionLink(a) in links && a !in s.actions)
                    || (exists o :: OtherLink(o) in links && o !in known) then
              answer == Err(NotFound) && t == s
            else if (exists a :: a in ids && !(s.actions[a].active && s.actions[a].status in {Planned, Started}))
                    || (forall condition :: !Fits(requested, |ids|, condition)) then
              answer == Err(Invalid) && t == s
            else
              exists condition :: Fits(requested, |ids|, condition) && answer == Ok(t)
                && t == s.(commitments := s.commitments[s.nextCommitment := created(condition)],
                           nextCommitment := s.nextCommitment + 1)
  {
    forall a ensures a in ActionIds(links) <==> a in ids {
      assert a in ids ==> ActionLink(a) in links;
      if a in ActionIds(links) {
        var l :| l in links && l.ActionLink? && l.id == a;
        assert l == ActionLink(a);
      }
    }
    assert ActionIds(links) == ids;
    if o :| OtherLink(o) in links && o !in known {
      assert o in OtherIds(links);
    }
    var answer := ResolveCondition(requested, |ids|);
    forall condition ensures Fits(requested, |ids|, condition) <==> answer == Ok(condition) {}
    if answer.Ok? {
      assert Fits(requested, |ids|, answer.value);
    }
  }

  // The sweep applies every deadline that has come due, and recounts if there was one.
  lemma SweepEffect(s: State, cal: Calendar)
    ensures var t := Next(s, cal, EvaluateDeadlines);
            && t.commitments.Keys == s.commitments.Keys
            && (forall id :: id in s.commitments ==> t.commitments[id] == AtDeadline(s.commitments[id], cal, s.now))
            && t == s.(commitments := t.commitments, snapshots := t.snapshots)
            && (if t.commitments == s.commitments then t.snapshots == s.snapshots else TodayRecounted(s, t, cal))
  {
    var t := Sweep(s, cal);
    CountEffect(t.commitments, cal, cal.dayOf(s.now));
    forall id | id in s.commitments ensures SweptRow(s, cal, id) {
      SweptRowHolds(s, cal, id);
    }
    if DueIds(s, cal) != {} {
      var id := Inhabited(DueIds(s, cal));
      assert SweptRow(s, cal, id);
    }
  }

  ghost predicate SweptRow(s: State, cal: Calendar, id: int)
    requires id in s.commitments
  {
    && id in Sweep(s, cal).commitments
    && Sweep(s, cal).commitments[id] == AtDeadline(s.commitments[id], cal, s.now)
    && (id in DueIds(s, cal) <==> Sweep(s, cal).commitments[id] != s.commitments[id])
  }

  lemma SweptRowHolds(s: State, cal: Calendar, id: int)
    requires id in s.commitments
    ensures SweptRow(s, cal, id)
  {
    DeadlineEffect(s.commitments[id], cal, s.now);
    DueChangesRow(s.commitments[id], cal, s.now);
    assert id in DueIds(s, cal) <==> DeadlineAction(s.commitments[id], cal.dayOf(s.now), s.now).Some?;
  }

  lemma DueChangesRow(c: Commitment, cal: Calendar, now: int)
    ensures AtDeadline(c, cal, now) == c <==> DeadlineAction(c, cal.dayOf(now), now).None?
  {
    assert DeadlineAction(c, cal.dayOf(now), now).Some? ==> |AtDeadline(c, cal, now).log| == |c.log| + 1;
  }

  lemma QuietEffects(s: State, cal: Calendar, instant: int)
    ensures Next(s, cal, Tick(instant)) == s.(now := Max(s.now, instant))
    ensures Next(s, cal, NewAction)
         == s.(actions := s.actions[s.nextAction := Action(Planned, true)], nextAction := s.nextAction + 1)
  {
  }

  // ---------------------------------------------------------------- Daily Actions and the commitments linked to them

  // An active commitment with one of these actions among its links.
  ghost predicate Touches(c: Commitment, changed: set<int>) {
    c.status in {Open, Deferred} && exists a :: a in changed && a in c.links
  }

  // Exactly the touched commitments become what `outcome` says, and the snapshot is recounted if there is one.
  ghost predicate OnlyTouched(s: State, t: State, cal: Calendar, changed: set<int>, outcome: Commitment -> Commitment) {
    && t == s.(actions := t.actions, commitments := t.commitments, snapshots := t.snapshots)
    && t.commitments.Keys == s.commitments.Keys
    && (forall id :: id in s.commitments ==>
          t.commitments[id] == if Touches(s.commitments[id], changed) then outcome(s.commitments[id])
                               else s.commitments[id])
    && (if exists id :: id in s.commitments && Touches(s.commitments[id], changed) then TodayRecounted(s, t, cal)
        else t.snapshots == s.snapshots)
  }

  lemma AffectedTouches(commitments: map<int, Commitment>, changed: set<int>)
    ensures forall id :: id in Affected(commitments, changed) <==>
              id in commitments && Touches(commitments[id], changed)
  {
    forall id | id in commitments && Active(commitments[id].status)
      ensures commitments[id].links * changed != {} <==> Touches(commitments[id], changed)
    {
      var both := commitments[id].links * changed;
      if both != {} {
        var a := Inhabited(both);
      }
      if a :| a in changed && a in commitments[id].links {
        assert a in both;
      }
    }
  }

  lemma CheckInAnswer(s: State, a: int, next: ActionStatus, note: Option<nat>)
    requires a in s.actions
    ensures CheckInError(s.actions[a], next, note) ==
              if !s.actions[a].active || s.actions[a].status in {Completed, Skipped}
                 || next == Planned || next == s.actions[a].status then Some(BadTransition)
              else if (note.Some? && note.value > 2000) || (next == Skipped && note in {None, Some(0)}) then
                Some(Invalid)
              else None
  {
  }

  lemma CheckedInRow(s: State, cal: Calendar, a: int, next: ActionStatus, note: Option<nat>, id: int)
    requires CheckIn(s, cal, a, next, note, false).Ok? && id in s.commitments
    ensures var t := CheckIn(s, cal, a, next, note, false).value;
            && id in t.commitments
            && t.commitments[id] ==
                 if next == Completed && id in Affected(s.commitments, {a})
                 then Settled(s.commitments[id], s.actions[a := Action(next, true)], cal, s.now)
                 else s.commitments[id]
  {
    SettlingEffect(s.commitments[id], s.actions[a := Action(next, true)], cal, s.now);
  }

  lemma CheckedInRest(s: State, cal: Calendar, a: int, next: ActionStatus, note: Option<nat>)
    requires CheckIn(s, cal, a, next, note, false).Ok?
    ensures var t := CheckIn(s, cal, a, next, note, false).value;
            && t == s.(actions := s.actions[a := Action(next, true)], commitments := t.commitments,
                       snapshots := t.snapshots)
            && t.commitments.Keys == s.commitments.Keys
            && (if next == Completed && Affected(s.commitments, {a}) != {} then TodayRecounted(s, t, cal)
                else t.snapshots == s.snapshots)
  {
    CountEffect(CheckIn(s, cal, a, next, note, false).value.commitments, cal, cal.dayOf(s.now));
  }

  // A status change is refused for a missing action, for one that is not active or whose status does not allow it, for
  // a note over two thousand characters, for a skip without a reason, and for an archived goal. Otherwise the action
  // has the new status, and a completion settles the active commitments linked to it, and no others.
  lemma CheckInEffect(
    s: State, cal: Calendar, a: int, next: ActionStatus, note: Option<nat>, archived: bool)
    ensures var op := SetActionStatus(a, next, note, archived);
            var answer, t := Attempt(s, cal, op), Next(s, cal, op);
            if a !in s.actions then answer == Err(NotFound) && t == s
            else if !s.actions[a].active || s.actions[a].status in {Completed, Skipped}
                    || next == Planned || next == s.actions[a].status then
              answer == Err(BadTransition) && t == s
            else if (note.Some? && note.value > 2000) || (next == Skipped && note in {None, Some(0)}) then
              answer == Err(Invalid) && t == s
            else if archived then answer == Err(GoalArchived) && t == s
            else
              && answer == Ok(t) && t.actions == s.actions[a := Action(next, true)]
              && OnlyTouched(s, t, cal, if next == Completed then {a} else {}, c => Settled(c, t.actions, cal, s.now))
  {
    if a in s.actions {
      CheckInAnswer(s, a, next, note);
      if CheckIn(s, cal, a, next, note, false).Ok? {
        CheckedInEffect(s, cal, a, next, note);
      }
    }
  }

  lemma CheckedInEffect(s: State, cal: Calendar, a: int, next: ActionStatus, note: Option<nat>)
    requires CheckIn(s, cal, a, next, note, false).Ok?
    ensures var t := CheckIn(s, cal, a, next, note, false).value;
            && t.actions == s.actions[a := Action(next, true)]
            && OnlyTouched(s, t, cal, if next == Completed then {a} else {}, c => Settled(c, t.actions, cal, s.now))
  {
    AffectedTouches(s.commitments, {a});
    CheckedInRest(s, cal, a, next, note);
    var t := CheckIn(s, cal, a, next, note, false).value;
    forall id | id in s.commitments
      ensures t.commitments[id] == if next == Completed && Touches(s.commitments[id], {a})
                                   then Settled(s.commitments[id], t.actions, cal, s.now) else s.commitments[id]
    {
      CheckedInRow(s, cal, a, next, note, id);
    }
    if next == Completed && Affected(s.commitments, {a}) != {} {
      var id := Inhabited(Affected(s.commitments, {a}));
      assert Touches(s.commitments[id], {a});
    }
  }

  // Lifecycle cancellation: exactly the actions in `gone` become inactive, whether or not anything is linked to them,
  // and every active commitment that is loses those links and is settled; every other commitment is left alone.
  ghost predicate Withdrawn(s: State, t: State, cal: Calendar, gone: set<int>) {
    && t.actions.Keys == s.actions.Keys
    && (forall a :: a in s.actions ==>
          t.actions[a] == if a in gone then s.actions[a].(active := false) else s.actions[a])
    && OnlyTouched(s, t, cal, gone, c => Settled(WithoutLinks(c, gone, t.actions, s.now), t.actions, cal, s.now))
  }

  lemma WithdrawnRow(s: State, cal: Calendar, gone: set<int>, id: int)
    requires id in s.commitments
    ensures var t := WithCancelled(s, cal, gone);
            && id in t.commitments
            && t.commitments[id] ==
                 if id in Affected(s.commitments, gone)
                 then Settled(WithoutLinks(s.commitments[id], gone, t.actions, s.now), t.actions, cal, s.now)
                 else s.commitments[id]
  {
    var t := WithCancelled(s, cal, gone);
    UnlinkingEffect(s.commitments[id], gone, t.actions, s.now);
    SettlingEffect(WithoutLinks(s.commitments[id], gone, t.actions, s.now), t.actions, cal, s.now);
  }

  lemma WithdrawnRest(s: State, cal: Calendar, gone: set<int>)
    ensures var t := WithCancelled(s, cal, gone);
            && t == s.(actions := t.actions, commitments := t.commitments, snapshots := t.snapshots)
            && t.commitments.Keys == s.commitments.Keys && t.actions.Keys == s.actions.Keys
            && (forall a :: a in s.actions ==>
                  t.actions[a] == if a in gone then s.actions[a].(active := false) else s.actions[a])
            && (if Affected(s.commitments, gone) != {} then TodayRecounted(s, t, cal) else t.snapshots == s.snapshots)
  {
    CountEffect(WithCancelled(s, cal, gone).commitments, cal, cal.dayOf(s.now));
  }

  lemma WithdrawalEffect(s: State, cal: Calendar, gone: set<int>)
    ensures Withdrawn(s, WithCancelled(s, cal, gone), cal, gone)
  {
    AffectedTouches(s.commitments, gone);
    WithdrawnRest(s, cal, gone);
    var t := WithCancelled(s, cal, gone);
    forall id | id in s.commitments
      ensures t.commitments[id] ==
                if Touches(s.commitments[id], gone)
                then Settled(WithoutLinks(s.commitments[id], gone, t.actions, s.now), t.actions, cal, s.now)
                else s.commitments[id]
    {
      WithdrawnRow(s, cal, gone, id);
    }
    if Affected(s.commitments, gone) != {} {
      var id := Inhabited(Affected(s.commitments, gone));
      assert Touches(s.commitments[id], gone);
    }
  }

  // The user cancels one action: present, active, planned or started, and of no archived goal.
  lemma UserCancelEffect(s: State, cal: Calendar, a: int, archived: bool)
    ensures var op := UserCancel(a, archived);
            var answer, t := Attempt(s, cal, op), Next(s, cal, op);
            if a !in s.actions then answer == Err(NotFound) && t == s
            else if !s.actions[a].active || s.actions[a].status !in {Planned, Started} then
              answer == Err(BadTransition) && t == s
            else if archived then answer == Err(GoalArchived) && t == s
            else answer == Ok(t) && Withdrawn(s, t, cal, {a})
  {
    WithdrawalEffect(s, cal, {a});
  }

  // A habit pause or delete and a goal archive cancel, of their candidates, the actions that are active and planned.
  lemma SystemCancelEffect(s: State, cal: Calendar, candidates: set<int>)
    ensures var op := SystemCancel(candidates);
            var gone :=
              set a | a in candidates && a in s.actions && s.actions[a].active && s.actions[a].status == Planned;
            Attempt(s, cal, op) == Ok(Next(s, cal, op)) && Withdrawn(s, Next(s, cal, op), cal, gone)
  {
    var gone := set a | a in candidates && a in s.actions && s.actions[a].active && s.actions[a].status == Planned;
    assert gone == Cancellable(s, candidates);
    WithdrawalEffect(s, cal, gone);
  }
}
