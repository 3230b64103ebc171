// The Promise Ledger's service (backend/src/lifeos/domain/commitments.py), which updates its rows in place, and the
// Daily Action operations that call its hooks (checkins.py, habits.py, schedule/reschedule.py): each has exactly the
// outcome of a function of the ledger.
module LedgerService {
  import opened Prelude
  import opened Commitments
  import opened Ledger
  import Actions

  function Overdue(commitments: map<int, Commitment>, ids: set<int>, cal: Calendar, now: int): set<int>
  {
    set id | id in ids && id in commitments && DeadlineAction(commitments[id], cal.dayOf(now), now).Some?
  }

  lemma OverdueWithout(commitments: map<int, Commitment>, ids: set<int>, id: int, cal: Calendar, now: int)
    requires id in ids && id in commitments
    ensures |Overdue(commitments, ids, cal, now)| == |Overdue(commitments, ids - {id}, cal, now)|
              + if DeadlineAction(commitments[id], cal.dayOf(now), now).Some? then 1 else 0
  {
    var less := Overdue(commitments, ids - {id}, cal, now);
    if DeadlineAction(commitments[id], cal.dayOf(now), now).Some? {
      assert Overdue(commitments, ids, cal, now) == less + {id};
    } else {
      assert Overdue(commitments, ids, cal, now) == less;
    }
  }

  lemma SweptPointwise(s: State, cal: Calendar, after: map<int, Commitment>)
    requires after.Keys == s.commitments.Keys
    requires forall id :: id in after ==> after[id] == AppliedDeadline(s.commitments[id], cal, s.now)
    ensures Sweep(s, cal) == if DueIds(s, cal) == {} then s.(commitments := after)
                             else Refreshed(s.(commitments := after), cal)
  {
    var swept := map id | id in s.commitments :: AppliedDeadline(s.commitments[id], cal, s.now);
    assert swept.Keys == after.Keys;
    forall id | id in after ensures after[id] == swept[id] {}
    assert after == swept;
    if DueIds(s, cal) == {} {
      forall id | id in after ensures after[id] == s.commitments[id] {
        assert id !in DueIds(s, cal);
      }
      assert after == s.commitments;
    }
  }

  lemma CheckedInPointwise(s: State, cal: Calendar, a: int, note: Option<nat>, after: map<int, Commitment>)
    requires a in s.actions && CheckInError(s.actions[a], Actions.Completed, note).None?
    requires Affected(s.commitments, {a}) != {}
    requires after.Keys == s.commitments.Keys
    requires var actions := s.actions[a := Action(Actions.Completed, true)];
             forall id :: id in after ==>
               after[id] == if id in Affected(s.commitments, {a})
                            then Reevaluated(s.commitments[id], actions, cal, s.now) else s.commitments[id]
    ensures CheckIn(s, cal, a, Actions.Completed, note, false)
         == Ok(Refreshed(s.(actions := s.actions[a := Action(Actions.Completed, true)], commitments := after), cal))
  {
    var t := CheckIn(s, cal, a, Actions.Completed, note, false).value;
    assert t.commitments.Keys == after.Keys;
    forall id | id in after ensures after[id] == t.commitments[id] {}
    assert after == t.commitments;
  }

  lemma CancelledPointwise(
    s: State, cal: Calendar, gone: set<int>, actions: map<int, Action>, after: map<int, Commitment>)
    requires Affected(s.commitments, gone) != {}
    requires actions == map a | a in s.actions :: if a in gone then s.actions[a].(active := false) else s.actions[a]
    requires after.Keys == s.commitments.Keys
    requires forall id :: id in after ==>
      after[id] == if id in Affected(s.commitments, gone)
                   then CutAndReevaluated(s.commitments[id], gone, actions, cal, s.now) else s.commitments[id]
    ensures WithCancelled(s, cal, gone) == Refreshed(s.(actions := actions, commitments := after), cal)
  {
    var t := WithCancelled(s, cal, gone);
    assert t.commitments.Keys == after.Keys;
    forall id | id in after ensures after[id] == t.commitments[id] {}
    assert after == t.commitments;
  }

  class PromiseLedger {
    var cal: Calendar
    var now: int
    var actions: map<int, Action>
    var commitments: map<int, Commitment>
    var snapshots: map<int, Counts>
    var nextAction: int
    var nextCommitment: int

    ghost function Abstract(): State
      reads this
    {
      State(now, actions, commitments, snapshots, nextAction, nextCommitment)
    }

    // What a call must leave behind: the outcome of the operation, or everything as it was.
    ghost predicate Answers(before: State, op: Op, error: Option<Error>)
      reads this
    {
      match Attempt(before, cal, op)
      case Ok(after) => error == None && Abstract() == after
      case Err(e) => error == Some(e) && Abstract() == before
    }

    constructor (cal: Calendar, now: int)
      ensures this.cal == cal && Abstract() == Init(now)
    {
      this.cal, this.now, actions, commitments, snapshots := cal, now, map[], map[], map[];
      nextAction, nextCommitment := 0, 0;
    }

    // The user moves to another time zone; every later operation reads the new one.
    method ChangeZone(zone: Calendar)
      modifies this`cal
      ensures cal == zone && Abstract() == old(Abstract())
    {
      cal := zone;
    }

    method RefreshSnapshot()
      modifies this`snapshots
      ensures Abstract() == Refreshed(old(Abstract()), cal)
    {
      var today := cal.dayOf(now);
      snapshots := snapshots[today := Count(commitments, cal, today)];
    }

    method TransitionTo(id: int, next: Status)
      requires id in commitments && next in {Kept, Broken, Cancelled}
      modifies this`commitments
      ensures commitments == old(commitments)[id := Closed(old(commitments)[id], next, now)]
    {
      var c := commitments[id];
      var event := Event(EventOf(next), Some(c.status), next, Some(c.currentDue), Some(c.currentDue), now);
      var d := c.(status := next, log := c.log + [event]);
      match next {
        case Kept => d := d.(keptAt := Some(now));
        case Broken => d := d.(brokenAt := Some(now));
        case Cancelled => d := d.(cancelledAt := Some(now));
      }
      commitments := commitments[id := d];
    }

    method ApplyDeadline(id: int) returns (changed: bool)
      requires id in commitments
      modifies this`commitments
      ensures commitments == old(commitments)[id := AppliedDeadline(old(commitments)[id], cal, now)]
      ensures changed == DeadlineAction(old(commitments)[id], cal.dayOf(now), now).Some?
    {
      var c := commitments[id];
      var action := DeadlineAction(c, cal.dayOf(now), now);
      match action {
        case None =>
          return false;
        case Some(Break) =>
          TransitionTo(id, Broken);
          return true;
        case Some(OpenWindow) =>
          var endsAt := Max(cal.dayEnd(c.currentDue), now) + EXPLANATION_WINDOW;
          commitments := commitments[id := Opened(c, endsAt, now)];
          return true;
      }
    }

    method CloseByUser(id: int, next: Status) returns (error: Option<Error>)
      requires next in {Kept, Cancelled}
      modifies this`commitments, this`snapshots
      ensures Answers(old(Abstract()), if next == Kept then Keep(id) else Cancel(id), error)
    {
      if id !in commitments {
        return Some(NotFound);
      }
      var saved := commitments;
      var changed := ApplyDeadline(id);
      if !MayBecome(commitments[id].status, next) {
        commitments := saved;   // rolls back a "break" applied just before
        return Some(BadTransition);
      }
      ghost var d := commitments[id];
      TransitionTo(id, next);
      assert commitments == saved[id := Closed(d, next, now)];
      RefreshSnapshot();
      return None;
    }

    method DeferCommitment(id: int, newDue: int, acknowledged: bool) returns (error: Option<Error>)
      modifies this`commitments, this`snapshots
      ensures Answers(old(Abstract()), Postpone(id, newDue, acknowledged), error)
    {
      if id !in commitments {
        return Some(NotFound);
      }
      var saved := commitments;
      var changed := ApplyDeadline(id);
      var c := commitments[id];
      var kind := ValidateDeferral(c, newDue, cal.dayOf(now), WindowOpen(c.windowEnds, now), Explained(c.log),
                                   acknowledged);
      match kind {
        case Err(e) =>
          commitments := saved;
          return Some(e);
        case Ok(k) =>
          commitments := commitments[id := Postponed(c, newDue, k, now)];
          assert commitments == saved[id := Postponed(c, newDue, k, now)];
          RefreshSnapshot();
          return None;
      }
    }

    method ExplainCommitment(id: int, length: nat) returns (error: Option<Error>)
      modifies this`commitments
      ensures Answers(old(Abstract()), SubmitExplanation(id, length), error)
    {
      if id !in commitments {
        return Some(NotFound);
      }
      var saved := commitments;
      var changed := ApplyDeadline(id);
      var c := commitments[id];
      error := ValidateExplanation(c.status, WindowOpen(c.windowEnds, now), Explained(c.log), length);
      if error.Some? {
        commitments := saved;
      } else {
        commitments := commitments[id := Justified(c, now)];
        assert commitments == saved[id := Justified(c, now)];
      }
    }

    method ApplyDeadlines(ids: set<int>) returns (changed: nat)
      requires ids <= commitments.Keys
      modifies this`commitments
      ensures commitments.Keys == old(commitments).Keys
      ensures forall id :: id in commitments ==>
        commitments[id] == if id in ids then AppliedDeadline(old(commitments)[id], cal, now) else old(commitments)[id]
      ensures changed == |Overdue(old(commitments), ids, cal, now)|
    {
      var rest := ids;
      ghost var was := commitments;
      changed := 0;
      while rest != {}
        invariant rest <= ids && commitments.Keys == was.Keys
        invariant forall id :: id in was ==>
          commitments[id] == if id in ids && id !in rest then AppliedDeadline(was[id], cal, now) else was[id]
        invariant changed + |Overdue(was, rest, cal, now)| == |Overdue(was, ids, cal, now)|
        decreases |rest|
      {
        ghost var some := Inhabited(rest);
        var id :| id in rest;
        OverdueWithout(was, rest, id, cal, now);
        var moved := ApplyDeadline(id);
        changed := if moved then changed + 1 else changed;
        rest := rest - {id};
      }
    }

    // The `commitment_evaluation` sweep; the order the due commitments are visited in does not matter.
    method SweepDeadlines() returns (changed: nat)
      modifies this`commitments, this`snapshots
      ensures Abstract() == Sweep(old(Abstract()), cal)
      ensures changed == |DueIds(old(Abstract()), cal)|
    {
      ghost var s := Abstract();
      var today := cal.dayOf(now);
      var ids := set id | id in commitments && Active(commitments[id].status) && commitments[id].currentDue < today;
      forall id ensures id in Overdue(commitments, ids, cal, now) <==> id in DueIds(s, cal) {}
      assert Overdue(commitments, ids, cal, now) == DueIds(s, cal);
      changed := ApplyDeadlines(ids);
      SweptPointwise(s, cal, commitments);
      if changed > 0 {
        RefreshSnapshot();
      }
    }

    method CreateCommitment(due: int, links: seq<Link>, requested: Option<Condition>, known: set<int>)
      returns (error: Option<Error>)
      modifies this`commitments, this`nextCommitment
      ensures Answers(old(Abstract()), NewCommitment(due, links, requested, known), error)
    {
      if due < cal.dayOf(now) || !NoDuplicates(links) {
        return Some(Invalid);
      }
      var ids := ActionIds(links);
      if !(ids <= actions.Keys) || !(OtherIds(links) <= known) {
        return Some(NotFound);
      }
      if exists a | a in ids :: !Linkable(actions[a]) {
        return Some(Invalid);
      }
      var condition := ResolveCondition(requested, |ids|);
      if condition.Err? {
        return Some(condition.error);
      }
      commitments := commitments[nextCommitment := Fresh(due, condition.value, ids, now)];
      nextCommitment := nextCommitment + 1;
      return None;
    }

    // The deadline, then the completion condition, for each commitment given.
    method ReevaluateAll(ids: set<int>)
      requires ids <= commitments.Keys
      modifies this`commitments
      ensures commitments.Keys == old(commitments).Keys
      ensures forall id :: id in commitments ==>
        commitments[id] == if id in ids then Reevaluated(old(commitments)[id], actions, cal, now)
                           else old(commitments)[id]
    {
      var rest := ids;
      ghost var was := commitments;
      while rest != {}
        invariant rest <= ids && commitments.Keys == was.Keys
        invariant forall id :: id in was ==>
          commitments[id] == if id in ids && id !in rest then Reevaluated(was[id], actions, cal, now) else was[id]
        decreases |rest|
      {
        ghost var some := Inhabited(rest);
        var id :| id in rest;
        var moved := ApplyDeadline(id);
        if Active(commitments[id].status) && Satisfied(commitments[id], actions) {
          TransitionTo(id, Kept);
        }
        rest := rest - {id};
      }
    }

    method CheckInAction(a: int, next: ActionStatus, note: Option<nat>, archived: bool) returns (error: Option<Error>)
      modifies this`actions, this`commitments, this`snapshots
      ensures Answers(old(Abstract()), SetActionStatus(a, next, note, archived), error)
    {
      if a !in actions {
        return Some(NotFound);
      }
      var refused := CheckInError(actions[a], next, note);
      if refused.Some? {
        return refused;
      }
      if archived {
        return Some(GoalArchived);
      }
      ghost var s := Abstract();
      actions := actions[a := actions[a].(status := next)];
      assert actions[a] == Action(next, true);
      if next == Actions.Completed {
        var hit := Affected(commitments, {a});
        if hit != {} {
          ReevaluateAll(hit);
          CheckedInPointwise(s, cal, a, note, commitments);
          RefreshSnapshot();
        }
      }
      return None;
    }

    // One link_removed event per cancelled link; then the condition, which becomes explicit with none left.
    method RemoveLinks(id: int, gone: set<int>)
      requires id in commitments
      modifies this`commitments
      ensures commitments == old(commitments)[id := Unlinked(old(commitments)[id], gone, actions, now)]
    {
      var c := commitments[id];
      var d := c;
      for n := 0 to |gone|
        invariant d == NotedTimes(c, LinkRemovedEvent, n, now)
      {
        d := d.(log := d.log + [Event(LinkRemovedEvent, Some(d.status), d.status, None, None, now)]);
      }
      d := d.(links := c.links - gone, removed := c.removed + gone);
      if LiveLinks(d, actions) == {} && d.condition != Explicit {
        d := d.(condition := Explicit);
        d := Noted(d, ConditionChangedEvent, now);
      }
      commitments := commitments[id := d];
    }

    method RemoveLinksOf(ids: set<int>, gone: set<int>)
      requires ids <= commitments.Keys
      modifies this`commitments
      ensures commitments.Keys == old(commitments).Keys
      ensures forall id :: id in commitments ==>
        commitments[id] == if id in ids
                           then Unlinked(old(commitments)[id], old(commitments)[id].links * gone, actions, now)
                           else old(commitments)[id]
    {
      var rest := ids;
      ghost var was := commitments;
      while rest != {}
        invariant rest <= ids && commitments.Keys == was.Keys
        invariant forall id :: id in was ==>
          commitments[id] == if id in ids && id !in rest then Unlinked(was[id], was[id].links * gone, actions, now)
                             else was[id]
        decreases |rest|
      {
        ghost var some := Inhabited(rest);
        var id :| id in rest;
        RemoveLinks(id, commitments[id].links * gone);
        rest := rest - {id};
      }
    }

    // Cancelling the actions and running the cancel hook: the transaction of every cancellation path.
    method CancelActions(gone: set<int>)
      modifies this`actions, this`commitments, this`snapshots
      ensures Abstract() == WithCancelled(old(Abstract()), cal, gone)
    {
      ghost var s := Abstract();
      var hit := Affected(commitments, gone);
      actions := map a | a in actions :: if a in gone then actions[a].(active := false) else actions[a];
      if hit != {} {
        RemoveLinksOf(hit, gone);
        ReevaluateAll(hit);
        CancelledPointwise(s, cal, gone, actions, commitments);
        RefreshSnapshot();
      }
    }

    method CancelByUser(a: int, archived: bool) returns (error: Option<Error>)
      modifies this`actions, this`commitments, this`snapshots
      ensures Answers(old(Abstract()), UserCancel(a, archived), error)
    {
      if a !in actions {
        return Some(NotFound);
      }
      if !Linkable(actions[a]) {
        return Some(BadTransition);
      }
      if archived {
        return Some(GoalArchived);
      }
      CancelActions({a});
      return None;
    }

    // Goal archive, habit pause and habit delete: only planned, active actions among the candidates.
    method CancelBySystem(candidates: set<int>)
      modifies this`actions, this`commitments, this`snapshots
      ensures Answers(old(Abstract()), SystemCancel(candidates), None)
    {
      var gone := set a | a in candidates && a in actions && actions[a].active && actions[a].status == Actions.Planned;
      assert gone == Cancellable(Abstract(), candidates);
      CancelActions(gone);
    }
  }
}
