// Where generation puts each Daily Action, and what each edit of one writes (backend/src/lifeos/domain/schedule/
// generation.py, reschedule.py, common.py), told from the user's definitions, the recorded edits and the rows before.
module GenerationEffects {
  import opened Prelude
  import opened Generation
  import Actions
  import Checkins
  import Sorting

  // ------------------------------------------------------------------ the recorded edits of a day

  // An occurrence is out of the day's plan exactly if a removal of it is recorded, and has a moved window exactly if a
  // move of it is.
  lemma OverridesExactly(s: State, day: int, id: int)
    ensures var o := OverridesOn(s.exceptions, s.overrides, day);
            && (id in o.removedEntries <==>
                  exists x :: x in s.exceptions && x.entry == id && x.date == day && x.edit == Removed)
            && (id in o.movedEntries <==>
                  exists x :: x in s.exceptions && x.entry == id && x.date == day && x.edit.Moved?)
            && (id in o.movedEntries ==>
                  exists x :: x in s.exceptions && x.entry == id && x.date == day
                              && x.edit == Moved(o.movedEntries[id]))
    ensures var o := OverridesOn(s.exceptions, s.overrides, day);
            var key := Key(Habit, id, day);
            && (id in o.removedHabits <==> key in s.overrides && s.overrides[key] == Removed)
            && (id in o.movedHabits <==> key in s.overrides && s.overrides[key].Moved?)
            && (id in o.movedHabits ==> s.overrides[key] == Moved(o.movedHabits[id]))
  {
    var rows := ExceptionsOn(s.exceptions, day);
    DayRows(s.exceptions, day);
    RemovedEntriesMean(s.exceptions, s.overrides, day, id);
    MovedRows(rows, id);
    if x :| x in s.exceptions && x.entry == id && x.date == day && x.edit == Removed {
      var k :| 0 <= k < |s.exceptions| && s.exceptions[k] == x;
    }
    if x :| x in s.exceptions && x.entry == id && x.date == day && x.edit.Moved? {
      assert x in rows;
    }
    var key := Key(Habit, id, day);
    if key in s.overrides && s.overrides[key].Moved? {
      assert id in MovedHabitIds(s.overrides, day);
    }
  }

  lemma DayRows(exceptions: seq<RoutineException>, day: int)
    ensures forall x :: x in ExceptionsOn(exceptions, day) <==> x in exceptions && x.date == day
  {
    FilterCounts(exceptions, OnDate(day));
    CreationOrder();
    Sorting.SortCorrect(Filter(exceptions, OnDate(day)), CreatedBefore);
  }

  lemma {:induction false} MovedRows(rows: seq<RoutineException>, id: int)
    ensures id in MovedIn(rows) <==> exists x :: x in rows && x.entry == id && x.edit.Moved?
    ensures id in MovedIn(rows) ==> exists x :: x in rows && x.entry == id && x.edit == Moved(MovedIn(rows)[id])
  {
    if rows != [] {
      var before, last := rows[..|rows| - 1], rows[|rows| - 1];
      MovedRows(before, id);
      assert rows == before + [last];
      if last.edit.Moved? && last.entry == id {
        assert last in rows;
      }
    }
  }

  // `x` is a move on record, and any other move of its entry on its date was made earlier, or at the same instant under
  // a lower id.
  ghost predicate MovedLast(s: State, x: RoutineException) {
    && x in s.exceptions && x.edit.Moved?
    && forall y :: y in s.exceptions && y != x && y.edit.Moved? && y.entry == x.entry && y.date == x.date ==>
         y.at < x.at || (y.at == x.at && y.id < x.id)
  }

  // Of the moves of an entry on a date the last one decides.
  lemma LastMoveDecides(s: State, x: RoutineException)
    requires MovedLast(s, x)
    ensures var o := OverridesOn(s.exceptions, s.overrides, x.date);
            x.entry in o.movedEntries && x.edit == Moved(o.movedEntries[x.entry])
  {
    assert LastMove(s.exceptions, x);
    LastMoveInForce(s.exceptions, s.overrides, x);
  }

  // ------------------------------------------------------------------ the plan of a day

  // The block of an entry: where it was moved to, or its own times; absent when these are equal.
  ghost function EntryBlock(defs: Definitions, o: DayOverrides, day: int, e: Entry): Option<Window> {
    if e.id in o.movedEntries then Some(o.movedEntries[e.id])
    else if e.startTime != e.endTime then Some(defs.instants(day, e.startTime, e.endTime))
    else None
  }

  // The block of a habit: where it was moved to, or from its preferred start, else the wake time, else eight o'clock,
  // for its minutes, or thirty when it has none, past midnight if need be.
  ghost function HabitBlock(defs: Definitions, o: DayOverrides, day: int, h: HabitSpec): Option<Window> {
    if h.id in o.movedHabits then Some(o.movedHabits[h.id])
    else
      var start := match h.preferredStart
                   case Some(time) => time
                   case None => (match defs.wakeTime case Some(time) => time case None => 28800);
      var minutes := if h.minutes in {None, Some(0)} then 30 else h.minutes.value;
      var end := (start + 60 * minutes) % 86400;
      if start != end then Some(defs.instants(day, start, end)) else None
  }

  ghost predicate TemplateRuns(defs: Definitions, day: int, template: int) {
    exists t :: t in defs.templates && t.id == template && day % 7 in t.activeDays
  }

  // The entry's template is active that day and the entry is not removed from it.
  ghost predicate EntryStands(defs: Definitions, o: DayOverrides, day: int, e: Entry) {
    e in defs.entries && TemplateRuns(defs, day, e.template) && e.id !in o.removedEntries
  }

  // The habit is scheduled that day, not removed from it, and no entry that stands was placed for it.
  ghost predicate HabitStands(defs: Definitions, o: DayOverrides, day: int, h: HabitSpec) {
    && h in defs.habits && !h.blocked
    && (match h.startDate case Some(first) => first case None => h.createdOn) <= day
    && (h.endDate.Some? ==> day <= h.endDate.value)
    && (forall pause :: pause in h.pauses ==> day < pause.first || (pause.last.Some? && pause.last.value < day))
    && (h.daily || day % 7 in h.weekdays)
    && h.id !in o.removedHabits
    && !exists e :: EntryStands(defs, o, day, e) && e.habit == Some(h.id)
  }

  lemma TemplatesRun(defs: Definitions, day: int, template: int)
    ensures TemplateActive(defs, day, template) <==> TemplateRuns(defs, day, template)
  {
    if t :| t in defs.templates && t.id == template && day % 7 in t.activeDays {
      var i :| 0 <= i < |defs.templates| && defs.templates[i] == t;
    }
  }

  lemma EntriesStand(defs: Definitions, o: DayOverrides, day: int, e: Entry)
    ensures e in defs.entries && EntryApplies(defs, o, day)(e) <==> EntryStands(defs, o, day, e)
  {
    TemplatesRun(defs, day, e.template);
  }

  lemma HabitsStand(defs: Definitions, o: DayOverrides, day: int, h: HabitSpec)
    ensures h in defs.habits && HabitApplies(o, day, PlacedHabits(defs, o, day))(h) <==> HabitStands(defs, o, day, h)
  {
    PlacedMeans(defs, o, day, h.id);
    if pause :| pause in h.pauses && !(day < pause.first || (pause.last.Some? && pause.last.value < day)) {
      var i :| 0 <= i < |h.pauses| && h.pauses[i] == pause;
      assert PausedOn(h.pauses, day);
    }
  }

  lemma PlacedMeans(defs: Definitions, o: DayOverrides, day: int, habit: int)
    ensures habit in PlacedHabits(defs, o, day) <==> exists e :: EntryStands(defs, o, day, e) && e.habit == Some(habit)
  {
    if habit in PlacedHabits(defs, o, day) {
      var i :| 0 <= i < |defs.entries| && EntryApplies(defs, o, day)(defs.entries[i])
        && defs.entries[i].habit == Some(habit);
      EntriesStand(defs, o, day, defs.entries[i]);
    }
    if e :| EntryStands(defs, o, day, e) && e.habit == Some(habit) {
      EntriesStand(defs, o, day, e);
      var i :| 0 <= i < |defs.entries| && defs.entries[i] == e;
    }
  }

  // A planned occurrence, with its window, comes from an entry or a habit that stands, and nothing else does.
  ghost predicate Stands(defs: Definitions, o: DayOverrides, day: int, key: Key, window: Option<Window>) {
    || (exists e :: EntryStands(defs, o, day, e) && key == Key(RoutineEntry, e.id, day)
                    && window == EntryBlock(defs, o, day, e))
    || (exists h :: HabitStands(defs, o, day, h) && key == Key(Habit, h.id, day)
                    && window == HabitBlock(defs, o, day, h))
  }

  lemma PlanIsExact(defs: Definitions, o: DayOverrides, day: int, d: Draft)
    ensures d in Drafts(defs, o, day) <==> Stands(defs, o, day, d.key, d.window)
  {
    PlanMembers(defs, o, day, d);
    forall e ensures e in defs.entries && EntryApplies(defs, o, day)(e) <==> EntryStands(defs, o, day, e) {
      EntriesStand(defs, o, day, e);
    }
    forall h
      ensures h in defs.habits && HabitApplies(o, day, PlacedHabits(defs, o, day))(h) <==> HabitStands(defs, o, day, h)
    {
      HabitsStand(defs, o, day, h);
    }
    forall e: Entry
      ensures DraftEntry(defs, o, day)(e) == Draft(Key(RoutineEntry, e.id, day), EntryBlock(defs, o, day, e))
    {}
    forall h: HabitSpec
      ensures DraftHabit(defs, o, day)(h) == Draft(Key(Habit, h.id, day), HabitBlock(defs, o, day, h))
    {}
  }

  // ------------------------------------------------------------------ the actions generation creates

  // A new planned action for an occurrence of the day, in the window the definitions and edits give it.
  ghost predicate FromPlan(s: State, defs: Definitions, a: Action) {
    var day := a.key.occurrence;
    && a.day == day && a.status == Actions.Planned && a.active
    && Stands(defs, OverridesOn(s.exceptions, s.overrides, day), day, a.key, Some(a.window))
  }

  // The action a draft becomes.
  ghost predicate Drafted(d: Draft, a: Action) {
    d.window.Some? && a == Action(d.key, d.key.occurrence, d.window.value, Actions.Planned, true)
  }

  ghost predicate DraftedIn(drafts: seq<Draft>, a: Action) {
    exists d :: d in drafts && Drafted(d, a)
  }

  lemma {:induction false} PersistedAreDrafted(actions: seq<Action>, drafts: seq<Draft>)
    requires Resolvable(drafts)
    ensures actions <= Persisted(actions, drafts)
    ensures forall i :: |actions| <= i < |Persisted(actions, drafts)| ==>
              DraftedIn(drafts, Persisted(actions, drafts)[i])
  {
    if drafts != [] {
      var before, last := drafts[..|drafts| - 1], drafts[|drafts| - 1];
      PersistedAreDrafted(actions, before);
      var after := Persisted(actions, drafts);
      forall i | |actions| <= i < |after| ensures DraftedIn(drafts, after[i]) {
        if i < |Persisted(actions, before)| {
          assert DraftedIn(before, Persisted(actions, before)[i]);
          var d :| d in before && Drafted(d, Persisted(actions, before)[i]);
          assert d in drafts && Drafted(d, after[i]);
        } else {
          assert last in drafts && Drafted(last, after[i]);
        }
      }
    }
  }

  lemma DraftedFromPlan(s: State, defs: Definitions, day: int, d: Draft, a: Action)
    requires d in Drafts(defs, OverridesOn(s.exceptions, s.overrides, day), day) && Drafted(d, a)
    ensures FromPlan(s, defs, a) && a.key.occurrence == day
  {
    PlanIsExact(defs, OverridesOn(s.exceptions, s.overrides, day), day, d);
  }

  lemma PersistedFromPlan(s: State, defs: Definitions, day: int, actions: seq<Action>, i: nat)
    requires Resolvable(Drafts(defs, OverridesOn(s.exceptions, s.overrides, day), day))
    requires |actions| <= i
          < |Persisted(actions, Drafts(defs, OverridesOn(s.exceptions, s.overrides, day), day))|
    ensures var a := Persisted(actions, Drafts(defs, OverridesOn(s.exceptions, s.overrides, day), day))[i];
            FromPlan(s, defs, a) && a.key.occurrence == day
  {
    var drafts := Drafts(defs, OverridesOn(s.exceptions, s.overrides, day), day);
    PersistedAreDrafted(actions, drafts);
    assert DraftedIn(drafts, Persisted(actions, drafts)[i]);
    var d :| d in drafts && Drafted(d, Persisted(actions, drafts)[i]);
    DraftedFromPlan(s, defs, day, d, Persisted(actions, drafts)[i]);
  }

  // Generation appends actions and does nothing else; each is for one of the days, and is where that day's plan has it.
  lemma {:induction false} NewActionsExactly(s: State, defs: Definitions, days: seq<int>)
    requires Attempt(s, Generate(defs, days)).Ok?
    ensures var w := Next(s, Generate(defs, days));
            && w == s.(actions := w.actions) && s.actions <= w.actions
            && forall i :: |s.actions| <= i < |w.actions| ==>
                 FromPlan(s, defs, w.actions[i]) && w.actions[i].key.occurrence in days
  {
    if days != [] {
      var last := |days| - 1;
      NewActionsExactly(s, defs, days[..last]);
      var before := Generated(s, defs, days[..last]).value;
      var drafts := Drafts(defs, OverridesOn(s.exceptions, s.overrides, days[last]), days[last]);
      PersistedAreDrafted(before.actions, drafts);
      var after := Persisted(before.actions, drafts);
      forall i | |s.actions| <= i < |after| ensures FromPlan(s, defs, after[i]) && after[i].key.occurrence in days {
        if i < |before.actions| {
          assert after[i] == before.actions[i];
          assert after[i].key.occurrence in days[..last];
        } else {
          PersistedFromPlan(s, defs, days[last], before.actions, i);
        }
      }
    }
  }

  // Some occurrence that stands on the day has a block of no length.
  ghost predicate Unplaceable(s: State, defs: Definitions, day: int) {
    exists key :: Stands(defs, OverridesOn(s.exceptions, s.overrides, day), day, key, None)
  }

  lemma PlanFailsExactly(s: State, defs: Definitions, day: int)
    ensures Resolvable(Drafts(defs, OverridesOn(s.exceptions, s.overrides, day), day)) <==> !Unplaceable(s, defs, day)
  {
    var o := OverridesOn(s.exceptions, s.overrides, day);
    var drafts := Drafts(defs, o, day);
    if i :| 0 <= i < |drafts| && drafts[i].window.None? {
      assert drafts[i] in drafts;
      PlanIsExact(defs, o, day, drafts[i]);
    }
    if key :| Stands(defs, o, day, key, None) {
      PlanIsExact(defs, o, day, Draft(key, None));
      var i :| 0 <= i < |drafts| && drafts[i] == Draft(key, None);
      assert drafts[i].window.None?;
    }
  }

  ghost function UnplaceableOn(s: State, defs: Definitions): int -> bool {
    day => Unplaceable(s, defs, day)
  }

  lemma OneMoreDay(s: State, defs: Definitions, days: seq<int>)
    requires days != []
    ensures var last := |days| - 1;
            Generated(s, defs, days).Err? <==>
              Generated(s, defs, days[..last]).Err? || UnplaceableOn(s, defs)(days[last])
  {
    PlanFailsExactly(s, defs, days[|days| - 1]);
  }

  lemma {:induction false} DaysFailExactly(s: State, defs: Definitions, days: seq<int>)
    ensures Generated(s, defs, days).Err? <==> AnyOf(days, UnplaceableOn(s, defs))
  {
    if days != [] {
      DaysFailExactly(s, defs, days[..|days| - 1]);
      OneMoreDay(s, defs, days);
      AnySnoc(days, UnplaceableOn(s, defs));
    }
  }

  // Generation fails exactly if that is so on one of the days.
  lemma GenerationFailsExactly(s: State, defs: Definitions, days: seq<int>)
    ensures Attempt(s, Generate(defs, days)).Err? <==> AnyOf(days, UnplaceableOn(s, defs))
    ensures Attempt(s, Generate(defs, days)).Err? ==> Attempt(s, Generate(defs, days)) == Err(ZeroBlock)
  {
    DaysFailExactly(s, defs, days);
    if Generated(s, defs, days).Err? {
      FailureIsZeroBlock(s, defs, days);
    }
  }

  // ------------------------------------------------------------------ what an edit writes

  // The edit is recorded for the action's occurrence: one more Routine Exception, or the habit's override.
  ghost predicate RecordsEdit(s: State, t: State, key: Key, edit: Edit, at: int, id: int) {
    match key.source
    case RoutineEntry =>
      && t.exceptions == s.exceptions + [RoutineException(key.id, key.occurrence, edit, at, id)]
      && t.overrides == s.overrides
    case Habit => t.exceptions == s.exceptions && t.overrides == s.overrides[key := edit]
  }

  // Only a planned active action is rescheduled. It takes the new day and window, whatever its occurrence, with one
  // history row and the move on record.
  lemma RescheduleEffect(s: State, i: nat, day: int, block: Option<Window>, archived: bool, at: int, id: int)
    ensures var op := Reschedule(i, day, block, archived, at, id);
            var answer, t := Attempt(s, op), Next(s, op);
            if i >= |s.actions| then answer == Err(NotFound) && t == s
            else
              var a := s.actions[i];
              if !a.active || a.status != Actions.Planned then answer == Err(InvalidTransition) && t == s
              else if archived then answer == Err(GoalArchived) && t == s
              else if block == None then answer == Err(ZeroBlock) && t == s
              else
                && answer == Ok(t) && t.userCancelled == s.userCancelled
                && t.actions == s.actions[i := Action(a.key, day, block.value, Actions.Planned, true)]
                && t.history == s.history + [Change(i, a.window, block)]
                && RecordsEdit(s, t, a.key, Moved(block.value), at, id)
  {
  }

  // Only a planned or started active action is cancelled by the user; the removal of its occurrence is on record.
  lemma CancelEffect(s: State, i: nat, archived: bool, at: int, id: int)
    ensures var op := Cancel(i, archived, at, id);
            var answer, t := Attempt(s, op), Next(s, op);
            if i >= |s.actions| then answer == Err(NotFound) && t == s
            else
              var a := s.actions[i];
              if !a.active || a.status !in {Actions.Planned, Actions.Started} then
                answer == Err(InvalidTransition) && t == s
              else if archived then answer == Err(GoalArchived) && t == s
              else
                && answer == Ok(t) && t.userCancelled == s.userCancelled + {a.key}
                && t.actions == s.actions[i := Action(a.key, a.day, a.window, a.status, false)]
                && t.history == s.history + [Change(i, a.window, None)]
                && RecordsEdit(s, t, a.key, Removed, at, id)
  {
  }

  // The system cancels active planned actions and records no edit; a check-in changes the status alone.
  lemma OtherEffects(s: State, i: nat, wanted: Actions.Status, note: Option<nat>, archived: bool)
    ensures Next(s, SystemCancel(i)) ==
              if i < |s.actions| && s.actions[i].active && s.actions[i].status == Actions.Planned then
                s.(actions := s.actions[i := s.actions[i].(active := false)],
                   history := s.history + [Change(i, s.actions[i].window, None)])
              else s
    ensures var op := CheckIn(i, wanted, note, archived);
            var answer, t := Attempt(s, op), Next(s, op);
            if i >= |s.actions| then answer == Err(NotFound) && t == s
            else
              var a := s.actions[i];
              if !a.active || a.status in {Actions.Completed, Actions.Skipped}
                 || wanted == Actions.Planned || wanted == a.status then
                answer == Err(CheckinRejected(Checkins.InvalidTransition)) && t == s
              else if note.Some? && note.value > 2000 then
                answer == Err(CheckinRejected(Checkins.NoteTooLong)) && t == s
              else if wanted == Actions.Skipped && note in {None, Some(0)} then
                answer == Err(CheckinRejected(Checkins.SkipReasonRequired)) && t == s
              else if archived then answer == Err(GoalArchived) && t == s
              else answer == Ok(t) && t == s.(actions := s.actions[i := a.(status := wanted)])
  {
  }

  // ------------------------------------------------------------------ a reschedule decides the regenerated window

  lemma RunStepExactly(s: State, ops: seq<Op>, op: Op)
    ensures RunFrom(s, []) == s
    ensures RunFrom(s, ops + [op]) == Next(RunFrom(s, ops), op)
  {
    assert (ops + [op])[..|ops|] == ops;
  }

  // None of the operations reschedules or cancels the occurrence.
  ghost predicate LeavesEdits(s: State, ops: seq<Op>, key: Key) {
    ops == []
    || (var before, last := ops[..|ops| - 1], ops[|ops| - 1];
        && LeavesEdits(s, before, key)
        && ((last.Reschedule? || last.Cancel?) ==>
              last.i >= |RunFrom(s, before).actions| || RunFrom(s, before).actions[last.i].key != key))
  }

  lemma EditsElsewhere(s: State, op: Op, key: Key)
    requires (op.Reschedule? || op.Cancel?) ==> op.i >= |s.actions| || s.actions[op.i].key != key
    ensures key.source == RoutineEntry ==>
              forall x: RoutineException :: x.entry == key.id && x.date == key.occurrence ==>
                (x in Next(s, op).exceptions <==> x in s.exceptions)
    ensures key.source == Habit ==>
              (key in Next(s, op).overrides <==> key in s.overrides)
              && (key in s.overrides ==> Next(s, op).overrides[key] == s.overrides[key])
  {
    match op {
      case Reschedule(i, day, block, archived, at, id) => RescheduleEffect(s, i, day, block, archived, at, id);
      case Cancel(i, archived, at, id) => CancelEffect(s, i, archived, at, id);
      case Generate(defs, days) =>
        if Attempt(s, op).Ok? {
          NewActionsExactly(s, defs, days);
        }
      case _ =>
    }
  }

  lemma {:induction false} EditsStay(s: State, ops: seq<Op>, key: Key)
    requires LeavesEdits(s, ops, key)
    ensures key.source == RoutineEntry ==>
              forall x: RoutineException :: x.entry == key.id && x.date == key.occurrence ==>
                (x in RunFrom(s, ops).exceptions <==> x in s.exceptions)
    ensures key.source == Habit ==>
              (key in RunFrom(s, ops).overrides <==> key in s.overrides)
              && (key in s.overrides ==> RunFrom(s, ops).overrides[key] == s.overrides[key])
  {
    if ops != [] {
      EditsStay(s, ops[..|ops| - 1], key);
      EditsElsewhere(RunFrom(s, ops[..|ops| - 1]), ops[|ops| - 1], key);
    }
  }

  // However long after a reschedule, and from whatever definitions, generation puts the occurrence where the user moved
  // it: a habit's always, a routine entry's if that move is the last by time and then id, as long as the occurrence has
  // not been rescheduled or cancelled again.
  lemma RescheduleDecidesWindow(
    s: State, i: nat, day: int, block: Option<Window>, archived: bool, at: int, id: int,
    ops: seq<Op>, defs: Definitions, days: seq<int>, k: nat)
    requires Attempt(s, Reschedule(i, day, block, archived, at, id)).Ok?
    requires var t := Next(s, Reschedule(i, day, block, archived, at, id));
             var key := s.actions[i].key;
             && LeavesEdits(t, ops, key)
             && (key.source == RoutineEntry ==>
                   MovedLast(t, RoutineException(key.id, key.occurrence, Moved(block.value), at, id)))
             && Attempt(RunFrom(t, ops), Generate(defs, days)).Ok?
    ensures var u := RunFrom(Next(s, Reschedule(i, day, block, archived, at, id)), ops);
            var w := Next(u, Generate(defs, days));
            |u.actions| <= k < |w.actions| && w.actions[k].key == s.actions[i].key ==>
              Some(w.actions[k].window) == block
  {
    var key := s.actions[i].key;
    var t := Next(s, Reschedule(i, day, block, archived, at, id));
    var u := RunFrom(t, ops);
    var w := Next(u, Generate(defs, days));
    RescheduleEffect(s, i, day, block, archived, at, id);
    EditsStay(t, ops, key);
    NewActionsExactly(u, defs, days);
    if |u.actions| <= k < |w.actions| && w.actions[k].key == key {
      assert FromPlan(u, defs, w.actions[k]);
      if key.source == Habit {
        OverridesExactly(u, key.occurrence, key.id);
      } else {
        var move := RoutineException(key.id, key.occurrence, Moved(block.value), at, id);
        assert MovedLast(u, move);
        LastMoveDecides(u, move);
      }
    }
  }
}
