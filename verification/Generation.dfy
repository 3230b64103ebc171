// Daily Action generation and the user edits it must respect (backend/src/lifeos/domain/schedule/generation.py,
// reschedule.py and common.py), for the two generated sources: routine entries and habits.
module Generation {
  import opened Prelude
  import Sorting
  import Actions
  import Checkins
  import HabitMetrics

  const DEFAULT_HABIT_START := 8 * 3600
  const DEFAULT_HABIT_MINUTES := 30
  const SECONDS_A_DAY := 86400

  datatype Source = RoutineEntry | Habit

  // What the partial unique index on active occurrences ranges over.
  datatype Key = Key(source: Source, id: int, occurrence: int)

  datatype Window = Window(start: int, end: int)

  datatype Action = Action(key: Key, day: int, window: Window, status: Actions.Status, active: bool)

  // A user edit of one occurrence: a Routine Exception's type, or a habit override's.
  datatype Edit = Removed | Moved(window: Window)

  datatype RoutineException = RoutineException(entry: int, date: int, edit: Edit, at: int, id: int)

  // A schedule history row; `next` is absent when the action was cancelled.
  datatype Change = Change(action: nat, previous: Window, next: Option<Window>)

  datatype Error = InvalidTransition | GoalArchived | ZeroBlock | NotFound | CheckinRejected(reason: Checkins.Error)

  // ------------------------------------------------------------------ what the user has defined

  datatype Template = Template(id: int, activeDays: seq<int>)

  // Times of day are in seconds.
  datatype Entry = Entry(id: int, template: int, startTime: int, endTime: int, habit: Option<int>)

  datatype HabitSpec = HabitSpec(
    id: int, daily: bool, weekdays: seq<int>, preferredStart: Option<int>, minutes: Option<nat>,
    startDate: Option<int>, endDate: Option<int>, createdOn: int, pauses: seq<Pause>, blocked: bool)

  // `instants` is `block_instants` in the user's zone, for a block whose times differ.
  datatype Definitions = Definitions(
    templates: seq<Template>, entries: seq<Entry>, habits: seq<HabitSpec>, wakeTime: Option<int>,
    instants: (int, int, int) -> Window)

  datatype DayOverrides = DayOverrides(
    removedEntries: set<int>, movedEntries: map<int, Window>, removedHabits: set<int>, movedHabits: map<int, Window>)

  function FirstDay(habit: HabitSpec): int {
    if habit.startDate.Some? then habit.startDate.value else habit.createdOn
  }

  predicate HabitScheduledOn(habit: HabitSpec, day: int) {
    if habit.blocked then false
    else if day < FirstDay(habit) || (habit.endDate.Some? && day > habit.endDate.value) then false
    else if PausedOn(habit.pauses, day) then false
    else habit.daily || SundayZero(day) in habit.weekdays
  }

  // The definition the metrics of the same habit are computed from.
  function MetricsDefinition(habit: HabitSpec, target: int): HabitMetrics.Habit {
    HabitMetrics.Habit(habit.daily, habit.weekdays, target, FirstDay(habit), habit.endDate, habit.pauses)
  }

  // The generator plans a habit, unless it is blocked, on exactly the days its metrics hold it to.
  lemma GeneratorAndMetricsAgree(habit: HabitSpec, target: int, day: int)
    ensures HabitScheduledOn(habit, day) <==>
              !habit.blocked && HabitMetrics.IsScheduled(MetricsDefinition(habit, target), day)
  {
  }

  // ------------------------------------------------------------------ planning one day

  // A planned occurrence; `window` is absent when its block would have zero length, which fails the whole plan.
  datatype Draft = Draft(key: Key, window: Option<Window>)

  function Block(defs: Definitions, day: int, start: int, end: int): Option<Window> {
    if start == end then None else Some(defs.instants(day, start, end))
  }

  predicate TemplateActive(defs: Definitions, day: int, template: int) {
    exists i :: 0 <= i < |defs.templates| && defs.templates[i].id == template
      && SundayZero(day) in defs.templates[i].activeDays
  }

  function EntryApplies(defs: Definitions, o: DayOverrides, day: int): Entry -> bool {
    (e: Entry) => TemplateActive(defs, day, e.template) && e.id !in o.removedEntries
  }

  // Habits represented by a routine entry that applies today.
  function PlacedIn(entries: seq<Entry>, applies: Entry -> bool): set<int> {
    set i | 0 <= i < |entries| && applies(entries[i]) && entries[i].habit.Some? :: entries[i].habit.value
  }

  function PlacedHabits(defs: Definitions, o: DayOverrides, day: int): set<int> {
    PlacedIn(defs.entries, EntryApplies(defs, o, day))
  }

  function HabitApplies(o: DayOverrides, day: int, placed: set<int>): HabitSpec -> bool {
    (h: HabitSpec) => h.id !in placed && h.id !in o.removedHabits && HabitScheduledOn(h, day)
  }

  function DraftEntry(defs: Definitions, o: DayOverrides, day: int): Entry -> Draft {
    (e: Entry) => Draft(
      Key(RoutineEntry, e.id, day),
      if e.id in o.movedEntries then Some(o.movedEntries[e.id]) else Block(defs, day, e.startTime, e.endTime))
  }

  function HabitBegin(defs: Definitions, h: HabitSpec): int {
    if h.preferredStart.Some? then h.preferredStart.value
    else if defs.wakeTime.Some? then defs.wakeTime.value
    else DEFAULT_HABIT_START
  }

  function HabitMinutes(h: HabitSpec): nat {
    if h.minutes.None? || h.minutes.value == 0 then DEFAULT_HABIT_MINUTES else h.minutes.value
  }

  function DraftHabit(defs: Definitions, o: DayOverrides, day: int): HabitSpec -> Draft {
    (h: HabitSpec) => Draft(
      Key(Habit, h.id, day),
      if h.id in o.movedHabits then Some(o.movedHabits[h.id])
      else
        var begin := HabitBegin(defs, h);
        Block(defs, day, begin, (begin + 60 * HabitMinutes(h)) % SECONDS_A_DAY))
  }

  function Map<A, B>(s: seq<A>, f: A -> B): seq<B> {
    if s == [] then [] else Map(s[..|s| - 1], f) + [f(s[|s| - 1])]
  }

  lemma {:induction false} MapMembers<A, B>(s: seq<A>, f: A -> B)
    ensures |Map(s, f)| == |s|
    ensures forall i :: 0 <= i < |s| ==> Map(s, f)[i] == f(s[i])
  {
    if s != [] {
      MapMembers(s[..|s| - 1], f);
    }
  }

  // Every entry that applies, then every habit that applies, in the order given.
  function Drafts(defs: Definitions, o: DayOverrides, day: int): seq<Draft> {
    Map(Filter(defs.entries, EntryApplies(defs, o, day)), DraftEntry(defs, o, day))
    + Map(Filter(defs.habits, HabitApplies(o, day, PlacedHabits(defs, o, day))), DraftHabit(defs, o, day))
  }

  predicate Resolvable(drafts: seq<Draft>) {
    forall i :: 0 <= i < |drafts| ==> drafts[i].window.Some?
  }

  lemma FilterNext<A>(s: seq<A>, k: nat, keep: A -> bool)
    requires k < |s|
    ensures Filter(s[..k + 1], keep) == if keep(s[k]) then Filter(s[..k], keep) + [s[k]] else Filter(s[..k], keep)
  {
    assert s[..k + 1] == s[..k] + [s[k]];
    FilterConcat(s[..k], [s[k]], keep);
  }

  lemma MapNext<A, B>(s: seq<A>, x: A, f: A -> B)
    ensures Map(s + [x], f) == Map(s, f) + [f(x)]
  {
    assert (s + [x])[..|s|] == s;
  }

  lemma PlacedNext(entries: seq<Entry>, k: nat, applies: Entry -> bool)
    requires k < |entries|
    ensures PlacedIn(entries[..k + 1], applies)
         == PlacedIn(entries[..k], applies)
          + if applies(entries[k]) && entries[k].habit.Some? then {entries[k].habit.value} else {}
  {
    var next := entries[..k + 1];
    assert next[k] == entries[k] && forall i :: 0 <= i < k ==> next[i] == entries[..k][i];
    forall h | h in PlacedIn(entries[..k], applies) ensures h in PlacedIn(next, applies) {
      var i :| 0 <= i < k && applies(entries[..k][i]) && entries[..k][i].habit == Some(h);
      assert next[i] == entries[..k][i];
    }
  }

  lemma {:induction false} MapConcat<A, B>(a: seq<A>, b: seq<A>, f: A -> B)
    ensures Map(a + b, f) == Map(a, f) + Map(b, f)
  {
    if b == [] {
      assert a + b == a;
    } else {
      MapConcat(a, b[..|b| - 1], f);
      assert a + b == a + b[..|b| - 1] + [b[|b| - 1]];
      MapNext(a + b[..|b| - 1], b[|b| - 1], f);
    }
  }

  // What has been planned after k sources is the beginning of the whole list.
  lemma {:induction false} PlannedSoFar<A>(s: seq<A>, k: nat, keep: A -> bool, f: A -> Draft)
    requires k <= |s|
    ensures Map(Filter(s[..k], keep), f) <= Map(Filter(s, keep), f)
  {
    FilterConcat(s[..k], s[k..], keep);
    assert s == s[..k] + s[k..];
    MapConcat(Filter(s[..k], keep), Filter(s[k..], keep), f);
  }

  function EntryDrafts(defs: Definitions, o: DayOverrides, day: int, k: nat): seq<Draft>
    requires k <= |defs.entries|
  {
    Map(Filter(defs.entries[..k], EntryApplies(defs, o, day)), DraftEntry(defs, o, day))
  }

  function HabitDrafts(defs: Definitions, o: DayOverrides, day: int, placed: set<int>, k: nat): seq<Draft>
    requires k <= |defs.habits|
  {
    Map(Filter(defs.habits[..k], HabitApplies(o, day, placed)), DraftHabit(defs, o, day))
  }

  lemma EntryStep(defs: Definitions, o: DayOverrides, day: int, k: nat)
    requires k < |defs.entries|
    ensures var e := defs.entries[k];
            EntryDrafts(defs, o, day, k + 1) == if EntryApplies(defs, o, day)(e)
                                                then EntryDrafts(defs, o, day, k) + [DraftEntry(defs, o, day)(e)]
                                                else EntryDrafts(defs, o, day, k)
  {
    FilterNext(defs.entries, k, EntryApplies(defs, o, day));
    MapNext(Filter(defs.entries[..k], EntryApplies(defs, o, day)), defs.entries[k], DraftEntry(defs, o, day));
  }

  lemma HabitStep(defs: Definitions, o: DayOverrides, day: int, placed: set<int>, k: nat)
    requires k < |defs.habits|
    ensures var h := defs.habits[k];
            HabitDrafts(defs, o, day, placed, k + 1) ==
              if HabitApplies(o, day, placed)(h)
              then HabitDrafts(defs, o, day, placed, k) + [DraftHabit(defs, o, day)(h)]
              else HabitDrafts(defs, o, day, placed, k)
  {
    FilterNext(defs.habits, k, HabitApplies(o, day, placed));
    MapNext(Filter(defs.habits[..k], HabitApplies(o, day, placed)), defs.habits[k], DraftHabit(defs, o, day));
  }

  lemma EntryDraftsLead(defs: Definitions, o: DayOverrides, day: int, k: nat)
    requires k <= |defs.entries|
    ensures EntryDrafts(defs, o, day, k) <= Drafts(defs, o, day)
  {
    PlannedSoFar(defs.entries, k, EntryApplies(defs, o, day), DraftEntry(defs, o, day));
  }

  lemma EntriesFail(defs: Definitions, o: DayOverrides, day: int, k: nat)
    requires k <= |defs.entries| && !Resolvable(EntryDrafts(defs, o, day, k))
    ensures !Resolvable(Drafts(defs, o, day))
  {
    EntryDraftsLead(defs, o, day, k);
    Unresolvable(EntryDrafts(defs, o, day, k), Drafts(defs, o, day), 0);
  }

  lemma HabitsFail(defs: Definitions, o: DayOverrides, day: int, k: nat)
    requires k <= |defs.habits| && !Resolvable(HabitDrafts(defs, o, day, PlacedHabits(defs, o, day), k))
    ensures !Resolvable(Drafts(defs, o, day))
  {
    var placed := PlacedHabits(defs, o, day);
    PlannedSoFar(defs.habits, k, HabitApplies(o, day, placed), DraftHabit(defs, o, day));
    Unresolvable(HabitDrafts(defs, o, day, placed, k), Drafts(defs, o, day),
                 |Map(Filter(defs.entries, EntryApplies(defs, o, day)), DraftEntry(defs, o, day))|);
  }

  lemma Unresolvable(part: seq<Draft>, whole: seq<Draft>, at: nat)
    requires at + |part| <= |whole| && (forall i :: 0 <= i < |part| ==> whole[at + i] == part[i])
    requires !Resolvable(part)
    ensures !Resolvable(whole)
  {
    var i :| 0 <= i < |part| && part[i].window.None?;
    assert whole[at + i].window.None?;
  }

  function PlacedSoFar(defs: Definitions, o: DayOverrides, day: int, k: nat): set<int>
    requires k <= |defs.entries|
  {
    PlacedIn(defs.entries[..k], EntryApplies(defs, o, day))
  }

  lemma WholeEntries(defs: Definitions, o: DayOverrides, day: int)
    ensures PlacedSoFar(defs, o, day, |defs.entries|) == PlacedHabits(defs, o, day)
  {
    assert defs.entries[..|defs.entries|] == defs.entries;
  }

  lemma EntrySkipped(defs: Definitions, o: DayOverrides, day: int, k: nat)
    requires k < |defs.entries| && !EntryApplies(defs, o, day)(defs.entries[k])
    ensures EntryDrafts(defs, o, day, k + 1) == EntryDrafts(defs, o, day, k)
    ensures PlacedSoFar(defs, o, day, k + 1) == PlacedSoFar(defs, o, day, k)
  {
    EntryStep(defs, o, day, k);
    PlacedNext(defs.entries, k, EntryApplies(defs, o, day));
  }

  lemma EntryPlanned(defs: Definitions, o: DayOverrides, day: int, k: nat)
    requires k < |defs.entries| && EntryApplies(defs, o, day)(defs.entries[k])
    ensures var e := defs.entries[k];
            && EntryDrafts(defs, o, day, k + 1) == EntryDrafts(defs, o, day, k) + [DraftEntry(defs, o, day)(e)]
            && PlacedSoFar(defs, o, day, k + 1)
            == PlacedSoFar(defs, o, day, k) + (if e.habit.Some? then {e.habit.value} else {})
    ensures DraftEntry(defs, o, day)(defs.entries[k]).window.None? ==> !Resolvable(Drafts(defs, o, day))
  {
    EntryStep(defs, o, day, k);
    PlacedNext(defs.entries, k, EntryApplies(defs, o, day));
    var drafts := EntryDrafts(defs, o, day, k + 1);
    assert drafts[|drafts| - 1] == DraftEntry(defs, o, day)(defs.entries[k]);
    if !Resolvable(drafts) {
      EntriesFail(defs, o, day, k + 1);
    }
  }

  // The routine entries of the day's active templates, and the habits they represent.
  method PlanEntries(defs: Definitions, o: DayOverrides, day: int)
    returns (planned: Option<seq<Draft>>, routineHabits: set<int>)
    ensures planned.None? ==> !Resolvable(Drafts(defs, o, day))
    ensures planned.Some? ==>
      && planned.value == EntryDrafts(defs, o, day, |defs.entries|) && Resolvable(planned.value)
      && routineHabits == PlacedHabits(defs, o, day)
  {
    var drafts: seq<Draft> := [];
    routineHabits := {};
    for k := 0 to |defs.entries|
      invariant drafts == EntryDrafts(defs, o, day, k) && Resolvable(drafts)
      invariant routineHabits == PlacedSoFar(defs, o, day, k)
    {
      var e := defs.entries[k];
      if !TemplateActive(defs, day, e.template) || e.id in o.removedEntries {
        EntrySkipped(defs, o, day, k);
        continue;
      }
      EntryPlanned(defs, o, day, k);
      if e.habit.Some? {
        routineHabits := routineHabits + {e.habit.value};
      }
      var draft := DraftEntry(defs, o, day)(e);
      drafts := drafts + [draft];
      if draft.window.None? {
        return None, routineHabits;
      }
    }
    WholeEntries(defs, o, day);
    planned := Some(drafts);
  }

  // `plan_occurrences`: the first zero-length block aborts the plan.
  method PlanOccurrences(defs: Definitions, o: DayOverrides, day: int) returns (plan: Result<seq<Draft>, Error>)
    ensures plan == if Resolvable(Drafts(defs, o, day)) then Ok(Drafts(defs, o, day)) else Err(ZeroBlock)
  {
    var planned, routineHabits := PlanEntries(defs, o, day);
    if planned.None? {
      return Err(ZeroBlock);
    }
    var habits: seq<Draft> := [];
    for k := 0 to |defs.habits|
      invariant habits == HabitDrafts(defs, o, day, routineHabits, k) && Resolvable(habits)
    {
      var h := defs.habits[k];
      HabitStep(defs, o, day, routineHabits, k);
      if h.id in routineHabits || h.id in o.removedHabits {
        continue;
      }
      if !HabitScheduledOn(h, day) {
        continue;
      }
      var draft := DraftHabit(defs, o, day)(h);
      habits := habits + [draft];
      if draft.window.None? {
        assert habits[|habits| - 1] == draft;
        HabitsFail(defs, o, day, k + 1);
        return Err(ZeroBlock);
      }
    }
    assert defs.habits[..|defs.habits|] == defs.habits;
    assert defs.entries[..|defs.entries|] == defs.entries;
    return Ok(planned.value + habits);
  }

  lemma MapHas<A, B>(s: seq<A>, f: A -> B, y: B)
    ensures y in Map(s, f) <==> exists x :: x in s && f(x) == y
  {
    MapMembers(s, f);
    if y in Map(s, f) {
      var i :| 0 <= i < |s| && Map(s, f)[i] == y;
      assert s[i] in s && f(s[i]) == y;
    }
    forall x | x in s && f(x) == y ensures y in Map(s, f) {
      var i :| 0 <= i < |s| && s[i] == x;
      assert Map(s, f)[i] == y;
    }
  }

  // A plan holds exactly the entries of the day's active templates that were not removed, and the habits scheduled
  // that day that no such entry represents and that were not removed.
  lemma PlanMembers(defs: Definitions, o: DayOverrides, day: int, d: Draft)
    ensures d in Drafts(defs, o, day) <==>
      || (exists e :: e in defs.entries && EntryApplies(defs, o, day)(e) && DraftEntry(defs, o, day)(e) == d)
      || (exists h :: h in defs.habits && HabitApplies(o, day, PlacedHabits(defs, o, day))(h)
                   && DraftHabit(defs, o, day)(h) == d)
  {
    var entries := Filter(defs.entries, EntryApplies(defs, o, day));
    var habits := Filter(defs.habits, HabitApplies(o, day, PlacedHabits(defs, o, day)));
    FilterCounts(defs.entries, EntryApplies(defs, o, day));
    FilterCounts(defs.habits, HabitApplies(o, day, PlacedHabits(defs, o, day)));
    MapHas(entries, DraftEntry(defs, o, day), d);
    MapHas(habits, DraftHabit(defs, o, day), d);
  }

  // No plan holds both a routine entry placed for a habit and that habit itself.
  lemma NeverBothEntryAndHabit(defs: Definitions, o: DayOverrides, day: int, e: Entry, draft: Draft)
    requires e in defs.entries && e.habit.Some? && EntryApplies(defs, o, day)(e)
    requires draft in Drafts(defs, o, day)
    ensures draft.key != Key(Habit, e.habit.value, day)
  {
    PlanMembers(defs, o, day, draft);
    var i :| 0 <= i < |defs.entries| && defs.entries[i] == e;
    assert e.habit.value in PlacedHabits(defs, o, day);
  }

  // ------------------------------------------------------------------ what the user has edited

  function CreatedBefore(a: RoutineException, b: RoutineException): bool {
    a.at < b.at || (a.at == b.at && a.id <= b.id)
  }

  function OnDate(day: int): RoutineException -> bool {
    (x: RoutineException) => x.date == day
  }

  // The day's exceptions by creation time, then id.
  function ExceptionsOn(exceptions: seq<RoutineException>, day: int): seq<RoutineException> {
    Sorting.Sort(Filter(exceptions, OnDate(day)), CreatedBefore)
  }

  function RemovedIn(rows: seq<RoutineException>): set<int> {
    set i | 0 <= i < |rows| && rows[i].edit.Removed? :: rows[i].entry
  }

  // Later rows overwrite earlier ones.
  function MovedIn(rows: seq<RoutineException>): map<int, Window> {
    if rows == [] then map[]
    else
      var last := rows[|rows| - 1];
      var before := MovedIn(rows[..|rows| - 1]);
      if last.edit.Moved? then before[last.entry := last.edit.window] else before
  }

  function RemovedHabits(overrides: map<Key, Edit>, day: int): set<int> {
    set k | k in overrides && k.source == Habit && k.occurrence == day && overrides[k].Removed? :: k.id
  }

  function MovedHabitIds(overrides: map<Key, Edit>, day: int): set<int> {
    set k | k in overrides && k.source == Habit && k.occurrence == day && overrides[k].Moved? :: k.id
  }

  function MovedHabits(overrides: map<Key, Edit>, day: int): map<int, Window> {
    map h | h in MovedHabitIds(overrides, day) :: overrides[Key(Habit, h, day)].window
  }

  function OverridesOn(exceptions: seq<RoutineException>, overrides: map<Key, Edit>, day: int): DayOverrides {
    var rows := ExceptionsOn(exceptions, day);
    DayOverrides(RemovedIn(rows), MovedIn(rows), RemovedHabits(overrides, day), MovedHabits(overrides, day))
  }

  lemma RemovedNext(rows: seq<RoutineException>, i: nat)
    requires i < |rows|
    ensures RemovedIn(rows[..i + 1]) == RemovedIn(rows[..i]) + if rows[i].edit.Removed? then {rows[i].entry} else {}
  {
    var next := rows[..i + 1];
    assert next[i] == rows[i] && forall j :: 0 <= j < i ==> next[j] == rows[..i][j];
    forall e | e in RemovedIn(rows[..i]) ensures e in RemovedIn(next) {
      var j :| 0 <= j < i && rows[..i][j].edit.Removed? && rows[..i][j].entry == e;
      assert next[j] == rows[..i][j];
    }
  }

  // The override rows seen so far, when `left` is still to be read.
  ghost predicate ReadSoFar(
    overrides: map<Key, Edit>, day: int, left: set<Key>, removed: set<int>, moved: map<int, Window>)
  {
    && (forall h :: h in removed <==> h in RemovedHabits(overrides, day) && Key(Habit, h, day) !in left)
    && (forall h :: h in moved <==> h in MovedHabitIds(overrides, day) && Key(Habit, h, day) !in left)
    && (forall h :: h in moved ==> moved[h] == overrides[Key(Habit, h, day)].window)
  }

  lemma ReadAll(overrides: map<Key, Edit>, day: int, removed: set<int>, moved: map<int, Window>)
    requires ReadSoFar(overrides, day, {}, removed, moved)
    ensures removed == RemovedHabits(overrides, day) && moved == MovedHabits(overrides, day)
  {
    forall h ensures h in removed <==> h in RemovedHabits(overrides, day) {}
    var read := MovedHabits(overrides, day);
    assert read.Keys == MovedHabitIds(overrides, day);
    forall h ensures h in moved <==> h in read {}
    forall h | h in read ensures moved[h] == read[h] {}
    assert moved.Keys == read.Keys;
  }

  lemma ReadOne(
    overrides: map<Key, Edit>, day: int, left: set<Key>, removed: set<int>, moved: map<int, Window>, k: Key)
    requires ReadSoFar(overrides, day, left, removed, moved) && k in left && left <= overrides.Keys
    ensures k.source == Habit && k.occurrence == day && overrides[k].Removed? ==>
              ReadSoFar(overrides, day, left - {k}, removed + {k.id}, moved)
    ensures k.source == Habit && k.occurrence == day && overrides[k].Moved? ==>
              ReadSoFar(overrides, day, left - {k}, removed, moved[k.id := overrides[k].window])
    ensures !(k.source == Habit && k.occurrence == day) ==>
              ReadSoFar(overrides, day, left - {k}, removed, moved)
  {
  }

  // `_load_overrides`
  method LoadOverrides(exceptions: seq<RoutineException>, overrides: map<Key, Edit>, day: int) returns (o: DayOverrides)
    ensures o == OverridesOn(exceptions, overrides, day)
  {
    var rows := ExceptionsOn(exceptions, day);
    var removedEntries: set<int>, movedEntries: map<int, Window> := {}, map[];
    for i := 0 to |rows|
      invariant removedEntries == RemovedIn(rows[..i]) && movedEntries == MovedIn(rows[..i])
    {
      RemovedNext(rows, i);
      assert rows[..i + 1][..i] == rows[..i];
      match rows[i].edit {
        case Removed => removedEntries := removedEntries + {rows[i].entry};
        case Moved(window) => movedEntries := movedEntries[rows[i].entry := window];
      }
    }
    assert rows[..|rows|] == rows;

    var removedHabits: set<int>, movedHabits: map<int, Window> := {}, map[];
    var left := overrides.Keys;
    while left != {}
      invariant left <= overrides.Keys
      invariant ReadSoFar(overrides, day, left, removedHabits, movedHabits)
      decreases |left|
    {
      ghost var any := Inhabited(left);
      var k :| k in left;
      ReadOne(overrides, day, left, removedHabits, movedHabits, k);
      if k.source == Habit && k.occurrence == day {
        match overrides[k] {
          case Removed => removedHabits := removedHabits + {k.id};
          case Moved(window) => movedHabits := movedHabits[k.id := window];
        }
      }
      left := left - {k};
    }
    ReadAll(overrides, day, removedHabits, movedHabits);
    o := DayOverrides(removedEntries, movedEntries, removedHabits, movedHabits);
  }

  // ------------------------------------------------------------------ the state and its operations

  // `userCancelled` remembers which occurrences the user has cancelled; the code keeps no such list.
  datatype State = State(
    actions: seq<Action>, exceptions: seq<RoutineException>, overrides: map<Key, Edit>, history: seq<Change>,
    userCancelled: set<Key>)

  function Empty(): State { State([], [], map[], [], {}) }

  predicate Occupied(actions: seq<Action>, key: Key) {
    exists i :: 0 <= i < |actions| && actions[i].active && actions[i].key == key
  }

  // INSERT … ON CONFLICT (the occurrence, while active) DO NOTHING.
  function Inserted(actions: seq<Action>, d: Draft): seq<Action>
    requires d.window.Some?
  {
    if Occupied(actions, d.key) then actions
    else actions + [Action(d.key, d.key.occurrence, d.window.value, Actions.Planned, true)]
  }

  function Persisted(actions: seq<Action>, drafts: seq<Draft>): (after: seq<Action>)
    requires Resolvable(drafts)
    ensures |after| >= |actions|
  {
    if drafts == [] then actions
    else Inserted(Persisted(actions, drafts[..|drafts| - 1]), drafts[|drafts| - 1])
  }

  // `generate_for_user` for a list of days: one failing plan rolls everything back.
  function Generated(s: State, defs: Definitions, days: seq<int>): Result<State, Error> {
    if days == [] then Ok(s)
    else
      match Generated(s, defs, days[..|days| - 1])
      case Err(e) => Err(e)
      case Ok(before) =>
        var day := days[|days| - 1];
        var drafts := Drafts(defs, OverridesOn(s.exceptions, s.overrides, day), day);
        if Resolvable(drafts) then Ok(before.(actions := Persisted(before.actions, drafts))) else Err(ZeroBlock)
  }

  // Further days, once `rows` is what the first `k` of them lead to.
  lemma {:induction false} GeneratedStep(s: State, defs: Definitions, days: seq<int>, k: nat, rows: seq<Action>)
    requires k < |days| && Generated(s, defs, days[..k]) == Ok(s.(actions := rows))
    ensures var drafts := Drafts(defs, OverridesOn(s.exceptions, s.overrides, days[k]), days[k]);
            Generated(s, defs, days[..k + 1]) == if Resolvable(drafts) then Ok(s.(actions := Persisted(rows, drafts)))
                                                 else Err(ZeroBlock)
  {
    assert days[..k + 1][..k] == days[..k];
  }

  function Edited(s: State, i: nat, edit: Edit, at: int, id: int): State
    requires i < |s.actions|
  {
    var key := s.actions[i].key;
    match key.source
    case RoutineEntry => s.(exceptions := s.exceptions + [RoutineException(key.id, key.occurrence, edit, at, id)])
    case Habit => s.(overrides := s.overrides[key := edit])
  }

  function Rescheduled(s: State, i: nat, day: int, block: Option<Window>, archived: bool, at: int, id: int)
    : Result<State, Error>
  {
    if i >= |s.actions| then Err(NotFound)
    else
      var a := s.actions[i];
      if !a.active || a.status != Actions.Planned then Err(InvalidTransition)
      else if archived then Err(GoalArchived)
      else if block.None? then Err(ZeroBlock)
      else
        Ok(Edited(s, i, Moved(block.value), at, id)
           .(actions := s.actions[i := a.(day := day, window := block.value)],
             history := s.history + [Change(i, a.window, block)]))
  }

  function Ended(s: State, i: nat): State
    requires i < |s.actions|
  {
    s.(actions := s.actions[i := s.actions[i].(active := false)],
       history := s.history + [Change(i, s.actions[i].window, None)])
  }

  function Cancelled(s: State, i: nat, archived: bool, at: int, id: int): Result<State, Error> {
    if i >= |s.actions| then Err(NotFound)
    else
      var a := s.actions[i];
      if !a.active || a.status !in {Actions.Planned, Actions.Started} then Err(InvalidTransition)
      else if archived then Err(GoalArchived)
      else Ok(Ended(Edited(s, i, Removed, at, id), i).(userCancelled := s.userCancelled + {a.key}))
  }

  // `system_cancel`, called on active planned actions only; it records no edit.
  function SystemCancelled(s: State, i: nat): State {
    if i < |s.actions| && s.actions[i].active && s.actions[i].status == Actions.Planned then Ended(s, i) else s
  }

  function CheckedIn(s: State, i: nat, wanted: Actions.Status, note: Option<nat>, archived: bool)
    : Result<State, Error>
  {
    if i >= |s.actions| then Err(NotFound)
    else
      var a := s.actions[i];
      match Checkins.ValidateTransition(a.status, wanted, a.active, note)
      case Err(e) => Err(CheckinRejected(e))
      case Ok(_) =>
        if archived then Err(GoalArchived) else Ok(s.(actions := s.actions[i := a.(status := wanted)]))
  }

  datatype Op =
    | Generate(defs: Definitions, days: seq<int>)
    | Reschedule(i: nat, day: int, block: Option<Window>, archived: bool, at: int, id: int)
    | Cancel(i: nat, archived: bool, at: int, id: int)
    | SystemCancel(i: nat)
    | CheckIn(i: nat, wanted: Actions.Status, note: Option<nat>, archived: bool)

  function Attempt(s: State, op: Op): Result<State, Error> {
    match op
    case Generate(defs, days) => Generated(s, defs, days)
    case Reschedule(i, day, block, archived, at, id) => Rescheduled(s, i, day, block, archived, at, id)
    case Cancel(i, archived, at, id) => Cancelled(s, i, archived, at, id)
    case SystemCancel(i) => Ok(SystemCancelled(s, i))
    case CheckIn(i, wanted, note, archived) => CheckedIn(s, i, wanted, note, archived)
  }

  // A rejected operation changes nothing.
  function Next(s: State, op: Op): State {
    match Attempt(s, op)
    case Ok(after) => after
    case Err(_) => s
  }

  function RunFrom(s: State, ops: seq<Op>): State {
    if ops == [] then s else Next(RunFrom(s, ops[..|ops| - 1]), ops[|ops| - 1])
  }

  // ------------------------------------------------------------------ the invariant

  ghost predicate OneActivePerKey(actions: seq<Action>) {
    forall i, j :: 0 <= i < j < |actions| && actions[i].active && actions[j].active ==> actions[i].key != actions[j].key
  }

  ghost predicate EntryRemoved(exceptions: seq<RoutineException>, entry: int, day: int) {
    exists k :: 0 <= k < |exceptions| && exceptions[k].edit.Removed? && exceptions[k].entry == entry
      && exceptions[k].date == day
  }

  // The occurrence is recorded as removed, so planning leaves it out.
  ghost predicate RemovalRecorded(s: State, key: Key) {
    match key.source
    case RoutineEntry => EntryRemoved(s.exceptions, key.id, key.occurrence)
    case Habit => key in s.overrides && s.overrides[key].Removed?
  }

  // The last history row of an action.
  function LastChange(history: seq<Change>, i: nat): Option<Change> {
    if history == [] then None
    else if history[|history| - 1].action == i then Some(history[|history| - 1])
    else LastChange(history[..|history| - 1], i)
  }

  // The newest row describes the action as it is: where it was last moved, or that it is cancelled.
  ghost predicate HistoryTells(s: State) {
    && (forall k :: 0 <= k < |s.history| ==> s.history[k].action < |s.actions|)
    && (forall i :: 0 <= i < |s.actions| ==> ToldBy(s.actions[i], LastChange(s.history, i)))
  }

  ghost predicate ToldBy(a: Action, last: Option<Change>) {
    match last
    case None => a.active
    case Some(change) =>
      match change.next
      case None => !a.active
      case Some(window) => a.active && a.window == window
  }

  // Each row starts where the previous row of the same action ended; nothing follows a cancellation.
  ghost predicate HistoryChains(history: seq<Change>) {
    forall k :: 0 <= k < |history| ==>
      Continues(LastChange(history[..k], history[k].action), history[k])
  }

  ghost predicate Continues(last: Option<Change>, change: Change) {
    last.Some? ==> last.value.next == Some(change.previous)
  }

  ghost predicate Valid(s: State) {
    && OneActivePerKey(s.actions)
    && (forall key :: key in s.userCancelled ==> !Occupied(s.actions, key) && RemovalRecorded(s, key))
    && (forall key :: key in s.overrides && s.overrides[key].Removed? ==> key in s.userCancelled)
    && HistoryTells(s) && HistoryChains(s.history)
  }

  // ------------------------------------------------------------------ every operation keeps it

  lemma InsertedKeeps(actions: seq<Action>, d: Draft)
    requires d.window.Some? && OneActivePerKey(actions)
    ensures OneActivePerKey(Inserted(actions, d))
    ensures forall key :: Occupied(Inserted(actions, d), key) <==> Occupied(actions, key) || key == d.key
    ensures actions <= Inserted(actions, d)
    ensures forall i :: |actions| <= i < |Inserted(actions, d)| ==> Inserted(actions, d)[i].active
  {
    var after := Inserted(actions, d);
    forall key ensures Occupied(after, key) <==> Occupied(actions, key) || key == d.key {
      if Occupied(actions, key) {
        var i :| 0 <= i < |actions| && actions[i].active && actions[i].key == key;
        assert after[i] == actions[i];
      } else if key == d.key {
        assert after[|actions|].key == key;
      }
    }
  }

  lemma {:induction false} PersistedKeeps(actions: seq<Action>, drafts: seq<Draft>)
    requires Resolvable(drafts) && OneActivePerKey(actions)
    ensures OneActivePerKey(Persisted(actions, drafts))
    ensures forall key :: Occupied(Persisted(actions, drafts), key) <==>
                            Occupied(actions, key) || exists i :: 0 <= i < |drafts| && drafts[i].key == key
    ensures actions <= Persisted(actions, drafts)
    ensures forall i :: |actions| <= i < |Persisted(actions, drafts)| ==> Persisted(actions, drafts)[i].active
  {
    if drafts != [] {
      var last := |drafts| - 1;
      PersistedKeeps(actions, drafts[..last]);
      InsertedKeeps(Persisted(actions, drafts[..last]), drafts[last]);
      forall key ensures Occupied(Persisted(actions, drafts), key) <==>
                           Occupied(actions, key) || exists i :: 0 <= i < |drafts| && drafts[i].key == key
      {
        if i :| 0 <= i < |drafts[..last]| && drafts[..last][i].key == key {
          assert drafts[i].key == key;
        }
        if i :| 0 <= i < |drafts| && drafts[i].key == key && i != last {
          assert drafts[..last][i].key == key;
        }
      }
    }
  }

  lemma RemovedEntriesMean(exceptions: seq<RoutineException>, overrides: map<Key, Edit>, day: int, e: int)
    ensures e in OverridesOn(exceptions, overrides, day).removedEntries <==> EntryRemoved(exceptions, e, day)
  {
    var kept := Filter(exceptions, OnDate(day));
    var rows := ExceptionsOn(exceptions, day);
    FilterCounts(exceptions, OnDate(day));
    Sorting.SortCorrect(kept, CreatedBefore);
    if e in OverridesOn(exceptions, overrides, day).removedEntries {
      var i :| 0 <= i < |rows| && rows[i].edit.Removed? && rows[i].entry == e;
      assert rows[i] in exceptions;
      var k :| 0 <= k < |exceptions| && exceptions[k] == rows[i];
    }
    if EntryRemoved(exceptions, e, day) {
      var k :| 0 <= k < |exceptions| && exceptions[k].edit.Removed? && exceptions[k].entry == e
        && exceptions[k].date == day;
      assert exceptions[k] in rows;
      var i :| 0 <= i < |rows| && rows[i] == exceptions[k];
    }
  }

  lemma RemovedHabitsMean(exceptions: seq<RoutineException>, overrides: map<Key, Edit>, day: int, h: int)
    ensures h in OverridesOn(exceptions, overrides, day).removedHabits <==>
              Key(Habit, h, day) in overrides && overrides[Key(Habit, h, day)].Removed?
  {
  }

  // A removed occurrence is never drafted.
  lemma DraftNotRemoved(s: State, defs: Definitions, day: int, d: Draft)
    requires d in Drafts(defs, OverridesOn(s.exceptions, s.overrides, day), day)
    ensures d.key.occurrence == day && !RemovalRecorded(s, d.key)
  {
    var o := OverridesOn(s.exceptions, s.overrides, day);
    PlanMembers(defs, o, day, d);
    match d.key.source {
      case RoutineEntry => RemovedEntriesMean(s.exceptions, s.overrides, day, d.key.id);
      case Habit => RemovedHabitsMean(s.exceptions, s.overrides, day, d.key.id);
    }
  }

  // Generation only appends active actions, for occurrences that are not recorded as removed.
  ghost predicate Grown(s: State, t: State) {
    && t == s.(actions := t.actions)
    && s.actions <= t.actions
    && (forall i :: |s.actions| <= i < |t.actions| ==> t.actions[i].active)
    && OneActivePerKey(t.actions)
    && (forall key :: Occupied(t.actions, key) ==> Occupied(s.actions, key) || !RemovalRecorded(s, key))
    && (forall key :: Occupied(s.actions, key) ==> Occupied(t.actions, key))
  }

  lemma {:induction false} DayGrows(s: State, before: State, defs: Definitions, day: int)
    requires Grown(s, before)
    requires Resolvable(Drafts(defs, OverridesOn(s.exceptions, s.overrides, day), day))
    ensures var drafts := Drafts(defs, OverridesOn(s.exceptions, s.overrides, day), day);
            Grown(s, before.(actions := Persisted(before.actions, drafts)))
  {
    var drafts := Drafts(defs, OverridesOn(s.exceptions, s.overrides, day), day);
    PersistedKeeps(before.actions, drafts);
    var after := Persisted(before.actions, drafts);
    forall key | Occupied(after, key) && !Occupied(s.actions, key) ensures !RemovalRecorded(s, key) {
      if i :| 0 <= i < |drafts| && drafts[i].key == key {
        DraftNotRemoved(s, defs, day, drafts[i]);
      }
    }
    forall i | |s.actions| <= i < |after| ensures after[i].active {
      assert i < |before.actions| ==> after[i] == before.actions[i];
    }
  }

  lemma {:induction false} GeneratedGrows(s: State, defs: Definitions, days: seq<int>)
    requires OneActivePerKey(s.actions) && Generated(s, defs, days).Ok?
    ensures Grown(s, Generated(s, defs, days).value)
  {
    if days != [] {
      var last := |days| - 1;
      GeneratedGrows(s, defs, days[..last]);
      DayGrows(s, Generated(s, defs, days[..last]).value, defs, days[last]);
    }
  }

  lemma {:induction false} NoChangeYet(history: seq<Change>, i: nat)
    requires forall k :: 0 <= k < |history| ==> history[k].action != i
    ensures LastChange(history, i).None?
  {
    if history != [] {
      NoChangeYet(history[..|history| - 1], i);
    }
  }

  lemma GrownKeepsValid(s: State, t: State)
    requires Valid(s) && Grown(s, t)
    ensures Valid(t)
  {
    forall i | 0 <= i < |t.actions| ensures ToldBy(t.actions[i], LastChange(t.history, i)) {
      if i < |s.actions| {
        assert t.actions[i] == s.actions[i];
      } else {
        NoChangeYet(t.history, i);
      }
    }
  }

  // Replacing one action by one with the same key.
  lemma ReplacedKeys(actions: seq<Action>, i: nat, a: Action)
    requires i < |actions| && a.key == actions[i].key && (a.active ==> actions[i].active) && OneActivePerKey(actions)
    ensures OneActivePerKey(actions[i := a])
    ensures forall key :: Occupied(actions[i := a], key) ==> Occupied(actions, key)
    ensures actions[i].active && !a.active ==> !Occupied(actions[i := a], a.key)
    ensures forall key :: key != a.key || a.active == actions[i].active ==>
              (Occupied(actions[i := a], key) <==> Occupied(actions, key))
  {
    var after := actions[i := a];
    forall key ensures Occupied(after, key) ==> Occupied(actions, key) {
      if j :| 0 <= j < |after| && after[j].active && after[j].key == key {
        assert actions[j].active && actions[j].key == key;
      }
    }
    forall key | (key != a.key || a.active == actions[i].active) && Occupied(actions, key)
      ensures Occupied(after, key)
    {
      var j :| 0 <= j < |actions| && actions[j].active && actions[j].key == key;
      assert after[j].active && after[j].key == key;
    }
  }

  lemma LastChangeSnoc(history: seq<Change>, change: Change, i: nat)
    ensures LastChange(history + [change], i) == if change.action == i then Some(change) else LastChange(history, i)
  {
    assert (history + [change])[..|history|] == history;
  }

  // Appending the row of an active action that becomes what the row says.
  lemma {:induction false} HistoryGrows(s: State, t: State, i: nat, next: Option<Window>)
    requires HistoryTells(s) && HistoryChains(s.history) && i < |s.actions| && s.actions[i].active
    requires t.history == s.history + [Change(i, s.actions[i].window, next)]
    requires |t.actions| == |s.actions| && forall j :: 0 <= j < |s.actions| && j != i ==> t.actions[j] == s.actions[j]
    requires ToldBy(t.actions[i], Some(Change(i, s.actions[i].window, next)))
    ensures HistoryTells(t) && HistoryChains(t.history)
  {
    var change := Change(i, s.actions[i].window, next);
    forall j | 0 <= j < |t.actions| ensures ToldBy(t.actions[j], LastChange(t.history, j)) {
      LastChangeSnoc(s.history, change, j);
    }
    forall k | 0 <= k < |t.history|
      ensures Continues(LastChange(t.history[..k], t.history[k].action), t.history[k])
    {
      if k < |s.history| {
        assert t.history[..k] == s.history[..k];
        assert Continues(LastChange(s.history[..k], s.history[k].action), s.history[k]);
      } else {
        assert t.history[..k] == s.history;
        assert ToldBy(s.actions[i], LastChange(s.history, i));
      }
    }
  }

  lemma StillRemoved(s: State, i: nat, edit: Edit, at: int, id: int, key: Key)
    requires i < |s.actions| && RemovalRecorded(s, key)
    requires edit.Removed? || key != s.actions[i].key
    ensures RemovalRecorded(Edited(s, i, edit, at, id), key)
  {
    if key.source == RoutineEntry {
      var k :| 0 <= k < |s.exceptions| && s.exceptions[k].edit.Removed? && s.exceptions[k].entry == key.id
        && s.exceptions[k].date == key.occurrence;
      var after := Edited(s, i, edit, at, id).exceptions;
      assert after[k] == s.exceptions[k];
    }
  }

  lemma RescheduledKeeps(s: State, i: nat, day: int, block: Option<Window>, archived: bool, at: int, id: int)
    requires Valid(s) && Rescheduled(s, i, day, block, archived, at, id).Ok?
    ensures Valid(Rescheduled(s, i, day, block, archived, at, id).value)
  {
    var a := s.actions[i];
    var t := Rescheduled(s, i, day, block, archived, at, id).value;
    ReplacedKeys(s.actions, i, a.(day := day, window := block.value));
    HistoryGrows(s, t, i, block);
    assert Occupied(s.actions, a.key);
    forall key | key in t.userCancelled ensures !Occupied(t.actions, key) && RemovalRecorded(t, key) {
      assert key != a.key;
      StillRemoved(s, i, Moved(block.value), at, id, key);
    }
  }

  lemma RemovedNow(s: State, i: nat, at: int, id: int)
    requires i < |s.actions|
    ensures RemovalRecorded(Edited(s, i, Removed, at, id), s.actions[i].key)
  {
    if s.actions[i].key.source == RoutineEntry {
      var after := Edited(s, i, Removed, at, id).exceptions;
      assert after[|s.exceptions|].edit.Removed?;
    }
  }

  lemma CancelledKeeps(s: State, i: nat, archived: bool, at: int, id: int)
    requires Valid(s) && Cancelled(s, i, archived, at, id).Ok?
    ensures Valid(Cancelled(s, i, archived, at, id).value)
  {
    var a := s.actions[i];
    var t := Cancelled(s, i, archived, at, id).value;
    ReplacedKeys(s.actions, i, a.(active := false));
    HistoryGrows(s, t, i, None);
    RemovedNow(s, i, at, id);
    forall key | key in t.userCancelled ensures !Occupied(t.actions, key) && RemovalRecorded(t, key) {
      if key in s.userCancelled {
        StillRemoved(s, i, Removed, at, id, key);
      }
      assert RemovalRecorded(Edited(s, i, Removed, at, id), key);
    }
  }

  lemma {:induction false} SystemCancelledKeeps(s: State, i: nat)
    requires Valid(s)
    ensures Valid(SystemCancelled(s, i))
  {
    var t := SystemCancelled(s, i);
    if t != s {
      ReplacedKeys(s.actions, i, s.actions[i].(active := false));
      HistoryGrows(s, t, i, None);
    }
  }

  lemma CheckedInKeeps(s: State, i: nat, wanted: Actions.Status, note: Option<nat>, archived: bool)
    requires Valid(s) && CheckedIn(s, i, wanted, note, archived).Ok?
    ensures Valid(CheckedIn(s, i, wanted, note, archived).value)
  {
    ReplacedKeys(s.actions, i, s.actions[i].(status := wanted));
    var t := CheckedIn(s, i, wanted, note, archived).value;
    forall j | 0 <= j < |t.actions| ensures ToldBy(t.actions[j], LastChange(t.history, j)) {
      assert ToldBy(s.actions[j], LastChange(s.history, j));
    }
  }

  lemma NextKeepsValid(s: State, op: Op)
    requires Valid(s)
    ensures Valid(Next(s, op))
  {
    if Attempt(s, op).Ok? {
      match op {
        case Generate(defs, days) =>
          GeneratedGrows(s, defs, days);
          GrownKeepsValid(s, Next(s, op));
        case Reschedule(i, day, block, archived, at, id) => RescheduledKeeps(s, i, day, block, archived, at, id);
        case Cancel(i, archived, at, id) => CancelledKeeps(s, i, archived, at, id);
        case SystemCancel(i) => SystemCancelledKeeps(s, i);
        case CheckIn(i, wanted, note, archived) => CheckedInKeeps(s, i, wanted, note, archived);
      }
    }
  }

  lemma {:induction false} RunKeepsValid(s: State, ops: seq<Op>)
    requires Valid(s)
    ensures Valid(RunFrom(s, ops))
  {
    if ops != [] {
      RunKeepsValid(s, ops[..|ops| - 1]);
      NextKeepsValid(RunFrom(s, ops[..|ops| - 1]), ops[|ops| - 1]);
    }
  }

  // ------------------------------------------------------------------ what holds over all runs

  // At most one active action per occurrence; and the history log is complete: each row starts where the previous
  // row of its action ended, and the newest row says where the action is now, or that it is cancelled.
  lemma {:induction false} OnePerOccurrence(ops: seq<Op>)
    ensures var s := RunFrom(Empty(), ops);
            OneActivePerKey(s.actions) && HistoryTells(s) && HistoryChains(s.history)
  {
    RunKeepsValid(Empty(), ops);
  }

  lemma NextGrowsCancelled(s: State, op: Op)
    requires Valid(s)
    ensures s.userCancelled <= Next(s, op).userCancelled
  {
    if op.Generate? && Attempt(s, op).Ok? {
      GeneratedGrows(s, op.defs, op.days);
    }
  }

  lemma {:induction false} RunGrowsCancelled(s: State, ops: seq<Op>)
    requires Valid(s)
    ensures s.userCancelled <= RunFrom(s, ops).userCancelled
  {
    if ops != [] {
      RunGrowsCancelled(s, ops[..|ops| - 1]);
      RunKeepsValid(s, ops[..|ops| - 1]);
      NextGrowsCancelled(RunFrom(s, ops[..|ops| - 1]), ops[|ops| - 1]);
    }
  }

  // Once the user has cancelled an occurrence, nothing that happens later makes it active again.
  lemma {:induction false} CancelledNeverReturns(
    before: seq<Op>, i: nat, archived: bool, at: int, id: int, after: seq<Op>)
    requires Cancelled(RunFrom(Empty(), before), i, archived, at, id).Ok?
    ensures var s := RunFrom(Empty(), before);
            !Occupied(RunFrom(Cancelled(s, i, archived, at, id).value, after).actions, s.actions[i].key)
  {
    RunKeepsValid(Empty(), before);
    var s := RunFrom(Empty(), before);
    CancelledKeeps(s, i, archived, at, id);
    RunKeepsValid(Cancelled(s, i, archived, at, id).value, after);
    RunGrowsCancelled(Cancelled(s, i, archived, at, id).value, after);
  }

  // The occurrence whose active action a step cancels without recording an edit.
  ghost function SystemCancels(s: State, op: Op): set<Key> {
    if op.SystemCancel? && op.i < |s.actions| && s.actions[op.i].active then {s.actions[op.i].key} else {}
  }

  ghost function AllSystemCancels(s: State, ops: seq<Op>): set<Key> {
    if ops == [] then {}
    else
      var before := ops[..|ops| - 1];
      AllSystemCancels(s, before) + SystemCancels(RunFrom(s, before), ops[|ops| - 1])
  }

  // `u` comes after `s`, with the occurrences in `gone` cancelled by the system in between.
  ghost predicate Later(s: State, u: State, gone: set<Key>) {
    && s.userCancelled <= u.userCancelled
    && (forall key :: Occupied(s.actions, key) ==>
          Occupied(u.actions, key) || key in u.userCancelled || key in gone)
    && (forall key :: RemovalRecorded(s, key) ==> RemovalRecorded(u, key))
  }

  lemma RescheduleIsLater(s: State, i: nat, day: int, block: Option<Window>, archived: bool, at: int, id: int)
    requires Valid(s) && Rescheduled(s, i, day, block, archived, at, id).Ok?
    ensures var t := Rescheduled(s, i, day, block, archived, at, id).value;
            Later(s, t, {}) && forall key :: RemovalRecorded(t, key) ==> RemovalRecorded(s, key)
  {
    var a := s.actions[i];
    var t := Rescheduled(s, i, day, block, archived, at, id).value;
    ReplacedKeys(s.actions, i, a.(day := day, window := block.value));
    assert Occupied(s.actions, a.key);
    forall key | RemovalRecorded(s, key) ensures RemovalRecorded(t, key) {
      if key.source == RoutineEntry && key == a.key {
        RemovedStays(s.exceptions, t.exceptions, key);
      } else {
        StillRemoved(s, i, Moved(block.value), at, id, key);
      }
    }
    forall key | RemovalRecorded(t, key) ensures RemovalRecorded(s, key) {
      if key.source == RoutineEntry {
        var k :| 0 <= k < |t.exceptions| && t.exceptions[k].edit.Removed? && t.exceptions[k].entry == key.id
          && t.exceptions[k].date == key.occurrence;
        assert s.exceptions[k] == t.exceptions[k];
      }
    }
  }

  lemma RemovedStays(before: seq<RoutineException>, after: seq<RoutineException>, key: Key)
    requires before <= after && EntryRemoved(before, key.id, key.occurrence)
    ensures EntryRemoved(after, key.id, key.occurrence)
  {
    var k :| 0 <= k < |before| && before[k].edit.Removed? && before[k].entry == key.id
      && before[k].date == key.occurrence;
    assert after[k] == before[k];
  }

  lemma CancelIsLater(s: State, i: nat, archived: bool, at: int, id: int)
    requires Valid(s) && Cancelled(s, i, archived, at, id).Ok?
    ensures Later(s, Cancelled(s, i, archived, at, id).value, {})
  {
    var t := Cancelled(s, i, archived, at, id).value;
    ReplacedKeys(s.actions, i, s.actions[i].(active := false));
    forall key | RemovalRecorded(s, key) ensures RemovalRecorded(t, key) {
      StillRemoved(s, i, Removed, at, id, key);
      assert RemovalRecorded(Edited(s, i, Removed, at, id), key);
    }
  }

  lemma {:induction false} GenerateIsLater(s: State, defs: Definitions, days: seq<int>)
    requires Valid(s) && Generated(s, defs, days).Ok?
    ensures var t := Generated(s, defs, days).value;
            Later(s, t, {}) && t.userCancelled == s.userCancelled
            && forall key :: RemovalRecorded(t, key) ==> RemovalRecorded(s, key)
  {
    GeneratedGrows(s, defs, days);
    SameRemovals(s, Generated(s, defs, days).value);
  }

  lemma CheckInIsLater(s: State, i: nat, wanted: Actions.Status, note: Option<nat>, archived: bool)
    requires Valid(s) && CheckedIn(s, i, wanted, note, archived).Ok?
    ensures var t := CheckedIn(s, i, wanted, note, archived).value;
            Later(s, t, {}) && t.userCancelled == s.userCancelled
            && forall key :: RemovalRecorded(t, key) ==> RemovalRecorded(s, key)
  {
    ReplacedKeys(s.actions, i, s.actions[i].(status := wanted));
    SameRemovals(s, CheckedIn(s, i, wanted, note, archived).value);
  }

  lemma SystemCancelIsLater(s: State, i: nat)
    requires Valid(s)
    ensures var t := SystemCancelled(s, i);
            Later(s, t, SystemCancels(s, SystemCancel(i))) && t.userCancelled == s.userCancelled
            && forall key :: RemovalRecorded(t, key) ==> RemovalRecorded(s, key)
  {
    var t := SystemCancelled(s, i);
    if t != s {
      ReplacedKeys(s.actions, i, s.actions[i].(active := false));
    }
  }

  lemma {:induction false} NextIsLater(s: State, op: Op)
    requires Valid(s)
    ensures Later(s, Next(s, op), SystemCancels(s, op))
    ensures !op.Cancel? ==> forall key :: RemovalRecorded(Next(s, op), key) ==> RemovalRecorded(s, key)
    ensures !op.Cancel? ==> Next(s, op).userCancelled == s.userCancelled
  {
    if Attempt(s, op).Ok? {
      match op {
        case Generate(defs, days) => GenerateIsLater(s, defs, days);
        case Reschedule(i, day, block, archived, at, id) => RescheduleIsLater(s, i, day, block, archived, at, id);
        case Cancel(i, archived, at, id) => CancelIsLater(s, i, archived, at, id);
        case SystemCancel(i) => SystemCancelIsLater(s, i);
        case CheckIn(i, wanted, note, archived) => CheckInIsLater(s, i, wanted, note, archived);
      }
    }
  }

  ghost predicate NoSystemCancel(ops: seq<Op>) {
    forall k :: 0 <= k < |ops| ==> !ops[k].SystemCancel?
  }

  ghost predicate NoCancel(ops: seq<Op>) {
    forall k :: 0 <= k < |ops| ==> !ops[k].Cancel?
  }

  lemma LaterChains(s: State, t: State, u: State, gone: set<Key>, more: set<Key>)
    requires Later(s, t, gone) && Later(t, u, more)
    ensures Later(s, u, gone + more)
  {
  }

  lemma {:induction false} RunIsLater(s: State, ops: seq<Op>)
    requires Valid(s)
    ensures Later(s, RunFrom(s, ops), AllSystemCancels(s, ops))
    ensures NoCancel(ops) ==> forall key :: RemovalRecorded(RunFrom(s, ops), key) ==> RemovalRecorded(s, key)
    ensures NoCancel(ops) ==> RunFrom(s, ops).userCancelled == s.userCancelled
  {
    if ops != [] {
      var init := ops[..|ops| - 1];
      RunIsLater(s, init);
      RunKeepsValid(s, init);
      var t := RunFrom(s, init);
      NextIsLater(t, ops[|ops| - 1]);
      LaterChains(s, t, RunFrom(s, ops), AllSystemCancels(s, init), SystemCancels(t, ops[|ops| - 1]));
    }
  }

  lemma {:induction false} NoneSystemCancelled(s: State, ops: seq<Op>)
    requires NoSystemCancel(ops)
    ensures AllSystemCancels(s, ops) == {}
  {
    if ops != [] {
      NoneSystemCancelled(s, ops[..|ops| - 1]);
    }
  }

  ghost predicate DraftedOn(s: State, defs: Definitions, day: int, key: Key) {
    exists d :: d in Drafts(defs, OverridesOn(s.exceptions, s.overrides, day), day) && d.key == key
  }

  ghost predicate AnyOf(days: seq<int>, p: int -> bool) {
    exists k :: 0 <= k < |days| && p(days[k])
  }

  ghost function DraftsKey(s: State, defs: Definitions, key: Key): int -> bool {
    day => DraftedOn(s, defs, day, key)
  }

  lemma DayOccupies(s: State, actions: seq<Action>, defs: Definitions, day: int, key: Key)
    requires OneActivePerKey(actions)
    requires Resolvable(Drafts(defs, OverridesOn(s.exceptions, s.overrides, day), day))
    ensures var drafts := Drafts(defs, OverridesOn(s.exceptions, s.overrides, day), day);
            Occupied(Persisted(actions, drafts), key) <==> Occupied(actions, key) || DraftsKey(s, defs, key)(day)
  {
    PersistedKeeps(actions, Drafts(defs, OverridesOn(s.exceptions, s.overrides, day), day));
  }

  // After a generation an occurrence is active exactly when it was before or is in one of the days' plans.
  lemma {:induction false} GeneratedOccupies(s: State, defs: Definitions, days: seq<int>, key: Key)
    requires OneActivePerKey(s.actions) && Generated(s, defs, days).Ok?
    ensures Occupied(Generated(s, defs, days).value.actions, key) <==>
              Occupied(s.actions, key) || AnyOf(days, DraftsKey(s, defs, key))
  {
    if days != [] {
      var last := |days| - 1;
      var day := days[last];
      GeneratedOccupies(s, defs, days[..last], key);
      GeneratedGrows(s, defs, days[..last]);
      DayOccupies(s, Generated(s, defs, days[..last]).value.actions, defs, day, key);
      AnySnoc(days, DraftsKey(s, defs, key));
    }
  }

  lemma AnySnoc(days: seq<int>, p: int -> bool)
    requires days != []
    ensures AnyOf(days, p) <==> AnyOf(days[..|days| - 1], p) || p(days[|days| - 1])
  {
    var init := days[..|days| - 1];
    if k :| 0 <= k < |init| && p(init[k]) {
      assert p(days[k]);
    }
    if k :| 0 <= k < |days| && p(days[k]) && k < |init| {
      assert p(init[k]);
    }
  }

  // The occurrence belongs to a habit that one of the day's routine entries represented.
  ghost predicate RepresentedByEntry(s: State, defs: Definitions, key: Key) {
    key.source == Habit
    && key.id in PlacedHabits(defs, OverridesOn(s.exceptions, s.overrides, key.occurrence), key.occurrence)
  }

  // Same sources; wake time and time zone may have changed.
  ghost predicate SameSources(a: Definitions, b: Definitions) {
    a.templates == b.templates && a.entries == b.entries && a.habits == b.habits
  }

  lemma PlacedOnly(a: State, b: State, defs: Definitions, other: Definitions, day: int)
    requires SameSources(defs, other)
    requires forall key :: RemovalRecorded(a, key) ==> RemovalRecorded(b, key)
    ensures PlacedHabits(other, OverridesOn(b.exceptions, b.overrides, day), day)
         <= PlacedHabits(defs, OverridesOn(a.exceptions, a.overrides, day), day)
  {
    var oa := OverridesOn(a.exceptions, a.overrides, day);
    var ob := OverridesOn(b.exceptions, b.overrides, day);
    forall h | h in PlacedHabits(other, ob, day) ensures h in PlacedHabits(defs, oa, day) {
      var i :| 0 <= i < |defs.entries| && EntryApplies(other, ob, day)(defs.entries[i])
        && defs.entries[i].habit == Some(h);
      EntryAppliedBefore(a, b, defs, other, day, defs.entries[i]);
    }
  }

  lemma EntryAppliedBefore(a: State, b: State, defs: Definitions, other: Definitions, day: int, e: Entry)
    requires SameSources(defs, other)
    requires forall key :: RemovalRecorded(a, key) ==> RemovalRecorded(b, key)
    requires EntryApplies(other, OverridesOn(b.exceptions, b.overrides, day), day)(e)
    ensures EntryApplies(defs, OverridesOn(a.exceptions, a.overrides, day), day)(e)
  {
    RemovedEntriesMean(a.exceptions, a.overrides, day, e.id);
    RemovedEntriesMean(b.exceptions, b.overrides, day, e.id);
    assert RemovalRecorded(a, Key(RoutineEntry, e.id, day)) ==> RemovalRecorded(b, Key(RoutineEntry, e.id, day));
    assert TemplateActive(other, day, e.template) ==> TemplateActive(defs, day, e.template);
  }

  lemma SameRemovals(s: State, t: State)
    requires t == s.(actions := t.actions)
    ensures forall key :: RemovalRecorded(s, key) <==> RemovalRecorded(t, key)
  {
  }

  // What the sources say of an occurrence, before any edit: an entry of a template active that day, a scheduled habit.
  ghost predicate EntryDue(defs: Definitions, key: Key) {
    exists e :: e in defs.entries && e.id == key.id && TemplateActive(defs, key.occurrence, e.template)
  }

  ghost predicate HabitDue(defs: Definitions, key: Key) {
    exists h :: h in defs.habits && h.id == key.id && HabitScheduledOn(h, key.occurrence)
  }

  ghost predicate Due(defs: Definitions, key: Key) {
    match key.source
    case RoutineEntry => EntryDue(defs, key)
    case Habit => HabitDue(defs, key)
  }

  lemma {:induction false} EntryDraftedExactly(s: State, defs: Definitions, key: Key)
    requires key.source == RoutineEntry
    ensures DraftedOn(s, defs, key.occurrence, key) <==> EntryDue(defs, key) && !RemovalRecorded(s, key)
  {
    var day := key.occurrence;
    var o := OverridesOn(s.exceptions, s.overrides, day);
    RemovedEntriesMean(s.exceptions, s.overrides, day, key.id);
    if DraftedOn(s, defs, day, key) {
      var d :| d in Drafts(defs, o, day) && d.key == key;
      PlanMembers(defs, o, day, d);
    }
    if EntryDue(defs, key) && !RemovalRecorded(s, key) {
      var e :| e in defs.entries && e.id == key.id && TemplateActive(defs, day, e.template);
      PlanMembers(defs, o, day, DraftEntry(defs, o, day)(e));
    }
  }

  // A habit is in a day's plan exactly when it is scheduled, not removed, and no entry of the day represents it.
  lemma {:induction false} HabitDraftedExactly(s: State, defs: Definitions, key: Key)
    requires key.source == Habit
    ensures DraftedOn(s, defs, key.occurrence, key) <==>
              HabitDue(defs, key) && !RepresentedByEntry(s, defs, key) && !RemovalRecorded(s, key)
  {
    var day := key.occurrence;
    var o := OverridesOn(s.exceptions, s.overrides, day);
    RemovedHabitsMean(s.exceptions, s.overrides, day, key.id);
    if DraftedOn(s, defs, day, key) {
      var d :| d in Drafts(defs, o, day) && d.key == key;
      PlanMembers(defs, o, day, d);
    }
    if HabitDue(defs, key) && !RepresentedByEntry(s, defs, key) && !RemovalRecorded(s, key) {
      var h :| h in defs.habits && h.id == key.id && HabitScheduledOn(h, day);
      PlanMembers(defs, o, day, DraftHabit(defs, o, day)(h));
    }
  }

  // The plan of one of the days has the occurrence: it is due, not removed, and not represented by an entry.
  ghost predicate Planned(s: State, defs: Definitions, days: seq<int>, key: Key) {
    key.occurrence in days && Due(defs, key) && !RemovalRecorded(s, key) && !RepresentedByEntry(s, defs, key)
  }

  lemma {:induction false} PlannedExactly(s: State, defs: Definitions, days: seq<int>, key: Key)
    ensures AnyOf(days, DraftsKey(s, defs, key)) <==> Planned(s, defs, days, key)
  {
    match key.source {
      case RoutineEntry => EntryDraftedExactly(s, defs, key);
      case Habit => HabitDraftedExactly(s, defs, key);
    }
    if k :| 0 <= k < |days| && DraftsKey(s, defs, key)(days[k]) {
      DraftedForItsDay(s, defs, days[k], key);
    }
    if Planned(s, defs, days, key) {
      var k :| 0 <= k < |days| && days[k] == key.occurrence;
      assert DraftsKey(s, defs, key)(days[k]);
    }
  }

  lemma DraftedForItsDay(s: State, defs: Definitions, day: int, key: Key)
    requires DraftedOn(s, defs, day, key)
    ensures key.occurrence == day
  {
    var d :| d in Drafts(defs, OverridesOn(s.exceptions, s.overrides, day), day) && d.key == key;
    DraftNotRemoved(s, defs, day, d);
  }

  // Why an occurrence may be missing although the days were generated before from `s` and `t` was the result: an entry
  // represented its habit, the system has cancelled it since, its day was not among them or it was not due.
  ghost predicate LeftOpen(s: State, t: State, ops: seq<Op>, defs: Definitions, days: seq<int>, key: Key) {
    || RepresentedByEntry(s, defs, key)
    || key in AllSystemCancels(t, ops)
    || key.occurrence !in days
    || !Due(defs, key)
  }

  // What a second generation is about to create: planned occurrences without an active action, left open by the first.
  ghost predicate Missing(
    s: State, t: State, ops: seq<Op>, defs: Definitions, days: seq<int>, other: Definitions, again: seq<int>, key: Key)
  {
    var u := RunFrom(t, ops);
    Planned(u, other, again, key) && !Occupied(u.actions, key) && LeftOpen(s, t, ops, defs, days, key)
  }

  lemma {:induction false} PlannedStaysActive(
    s: State, t: State, ops: seq<Op>, defs: Definitions, days: seq<int>, key: Key)
    requires Valid(s) && Generated(s, defs, days) == Ok(t)
    requires !RemovalRecorded(RunFrom(t, ops), key) && !LeftOpen(s, t, ops, defs, days, key)
    ensures Occupied(RunFrom(t, ops).actions, key)
  {
    GeneratedGrows(s, defs, days);
    GrownKeepsValid(s, t);
    RunKeepsValid(t, ops);
    RunIsLater(t, ops);
    SameRemovals(s, t);
    PlannedExactly(s, defs, days, key);
    GeneratedOccupies(s, defs, days, key);
  }

  // Exactly which occurrences a second generation creates, from any sources, for any days, and after any generations,
  // check-ins, reschedules, user and system cancellations.
  lemma {:induction false} RegenerationAddsExactly(
    s: State, defs: Definitions, days: seq<int>, ops: seq<Op>, other: Definitions, again: seq<int>, key: Key)
    requires Valid(s) && Generated(s, defs, days).Ok?
    requires Generated(RunFrom(Generated(s, defs, days).value, ops), other, again).Ok?
    ensures var t := Generated(s, defs, days).value;
            var u := RunFrom(t, ops);
            var w := Generated(u, other, again).value;
            Occupied(w.actions, key) && !Occupied(u.actions, key) <==>
              Missing(s, t, ops, defs, days, other, again, key)
  {
    var t := Generated(s, defs, days).value;
    var u := RunFrom(t, ops);
    GeneratedGrows(s, defs, days);
    GrownKeepsValid(s, t);
    RunKeepsValid(t, ops);
    GeneratedOccupies(u, other, again, key);
    PlannedExactly(u, other, again, key);
    if Planned(u, other, again, key) && !LeftOpen(s, t, ops, defs, days, key) {
      PlannedStaysActive(s, t, ops, defs, days, key);
    }
  }

  lemma NewWasFree(u: State, w: State, i: nat)
    requires Grown(u, w) && |u.actions| <= i < |w.actions|
    ensures Occupied(w.actions, w.actions[i].key) && !Occupied(u.actions, w.actions[i].key)
  {
    assert forall j :: 0 <= j < |u.actions| ==> w.actions[j] == u.actions[j];
  }

  // So it changes nothing if and only if it fails or nothing is missing.
  lemma {:induction false} RegenerationIdempotentExactly(
    s: State, defs: Definitions, days: seq<int>, ops: seq<Op>, other: Definitions, again: seq<int>)
    requires Valid(s) && Generated(s, defs, days).Ok?
    ensures var t := Generated(s, defs, days).value;
            var u := RunFrom(t, ops);
            Next(u, Generate(other, again)) == u <==>
              Generated(u, other, again).Err? || forall key :: !Missing(s, t, ops, defs, days, other, again, key)
  {
    var t := Generated(s, defs, days).value;
    var u := RunFrom(t, ops);
    GeneratedGrows(s, defs, days);
    GrownKeepsValid(s, t);
    RunKeepsValid(t, ops);
    if Generated(u, other, again).Ok? {
      var w := Generated(u, other, again).value;
      GeneratedGrows(u, other, again);
      forall key {
        RegenerationAddsExactly(s, defs, days, ops, other, again, key);
      }
      if |u.actions| < |w.actions| {
        NewWasFree(u, w, |u.actions|);
      }
    }
  }

  // A scheduled habit of one of the days that an entry represented when the days were first generated and none
  // represents now, neither removed itself nor active.
  ghost predicate Freed(s: State, u: State, defs: Definitions, other: Definitions, days: seq<int>, key: Key) {
    && key.source == Habit && key.occurrence in days
    && RepresentedByEntry(s, defs, key) && !RepresentedByEntry(u, other, key)
    && HabitDue(other, key) && !RemovalRecorded(u, key) && !Occupied(u.actions, key)
  }

  // Generating the same days again from the same sources, with no system cancellation in between, creates exactly the
  // actions of habits whose representing routine entry has been removed.
  lemma {:induction false} RegenerationAddsExactlyFreedHabits(
    s: State, defs: Definitions, days: seq<int>, ops: seq<Op>, other: Definitions, key: Key)
    requires Valid(s) && Generated(s, defs, days).Ok? && NoSystemCancel(ops) && SameSources(defs, other)
    requires Generated(RunFrom(Generated(s, defs, days).value, ops), other, days).Ok?
    ensures var u := RunFrom(Generated(s, defs, days).value, ops);
            var w := Generated(u, other, days).value;
            Occupied(w.actions, key) && !Occupied(u.actions, key) <==> Freed(s, u, defs, other, days, key)
  {
    RegenerationAddsExactly(s, defs, days, ops, other, days, key);
    NoneSystemCancelled(Generated(s, defs, days).value, ops);
    SameDue(defs, other, key);
  }

  lemma SameDue(defs: Definitions, other: Definitions, key: Key)
    requires SameSources(defs, other)
    ensures Due(defs, key) <==> Due(other, key)
  {
    var day := key.occurrence;
    assert forall template :: TemplateActive(defs, day, template) <==> TemplateActive(other, day, template);
  }

  lemma {:induction false} RegenerationAddsOnlyFreedHabits(
    s: State, defs: Definitions, days: seq<int>, ops: seq<Op>, other: Definitions)
    requires Valid(s) && Generated(s, defs, days).Ok? && NoSystemCancel(ops) && SameSources(defs, other)
    ensures var u := RunFrom(Generated(s, defs, days).value, ops);
            Generated(u, other, days).Ok? ==>
              var w := Generated(u, other, days).value;
              && w == u.(actions := w.actions) && u.actions <= w.actions
              && forall i :: |u.actions| <= i < |w.actions| ==> RepresentedByEntry(s, defs, w.actions[i].key)
  {
    var t := Generated(s, defs, days).value;
    var u := RunFrom(t, ops);
    GeneratedGrows(s, defs, days);
    GrownKeepsValid(s, t);
    RunKeepsValid(t, ops);
    if Generated(u, other, days).Ok? {
      var w := Generated(u, other, days).value;
      GeneratedGrows(u, other, days);
      forall i | |u.actions| <= i < |w.actions| ensures RepresentedByEntry(s, defs, w.actions[i].key) {
        NewWasFree(u, w, i);
        RegenerationAddsExactlyFreedHabits(s, defs, days, ops, other, w.actions[i].key);
      }
    }
  }

  // With no user cancellation in between either, generating again creates nothing at all.
  lemma {:induction false} RegenerationCreatesNothing(
    s: State, defs: Definitions, days: seq<int>, ops: seq<Op>, other: Definitions)
    requires Valid(s) && Generated(s, defs, days).Ok? && SameSources(defs, other)
    requires NoSystemCancel(ops) && NoCancel(ops)
    ensures var u := RunFrom(Generated(s, defs, days).value, ops);
            Next(u, Generate(other, days)) == u
  {
    var t := Generated(s, defs, days).value;
    var u := RunFrom(t, ops);
    GeneratedGrows(s, defs, days);
    GrownKeepsValid(s, t);
    RunIsLater(t, ops);
    SameRemovals(s, t);
    NoneSystemCancelled(t, ops);
    RegenerationIdempotentExactly(s, defs, days, ops, other, days);
    forall key ensures !Missing(s, t, ops, defs, days, other, days, key) {
      SameDue(defs, other, key);
      PlacedOnly(u, s, other, defs, key.occurrence);
    }
  }

  // Cancelling the action of the only routine entry that represented a habit brings the habit's own occurrence back
  // with the next generation of that day.
  lemma {:induction false} CancelledEntryFreesItsHabit(
    s: State, i: nat, archived: bool, at: int, id: int, defs: Definitions, e: Entry, h: HabitSpec, day: int)
    requires Valid(s) && Cancelled(s, i, archived, at, id).Ok? && s.actions[i].key == Key(RoutineEntry, e.id, day)
    requires h in defs.habits && HabitScheduledOn(h, day) && !RemovalRecorded(s, Key(Habit, h.id, day))
    requires forall x :: x in defs.entries && x.habit == Some(h.id) ==> x.id == e.id
    requires Generated(Cancelled(s, i, archived, at, id).value, defs, [day]).Ok?
    ensures Occupied(Generated(Cancelled(s, i, archived, at, id).value, defs, [day]).value.actions,
                     Key(Habit, h.id, day))
  {
    var t := Cancelled(s, i, archived, at, id).value;
    CancelledKeeps(s, i, archived, at, id);
    RemovedNow(s, i, at, id);
    var o := OverridesOn(t.exceptions, t.overrides, day);
    RemovedEntriesMean(t.exceptions, t.overrides, day, e.id);
    assert h.id !in PlacedHabits(defs, o, day);
    PlanMembers(defs, o, day, DraftHabit(defs, o, day)(h));
    assert DraftedOn(t, defs, [day][0], Key(Habit, h.id, day));
    GeneratedOccupies(t, defs, [day], Key(Habit, h.id, day));
  }

  // One entry, every day, that places one daily habit.
  function PlacedHabitDay(instants: (int, int, int) -> Window): Definitions {
    Definitions(
      [Template(1, [0, 1, 2, 3, 4, 5, 6])], [Entry(10, 1, 3600, 7200, Some(7))],
      [HabitSpec(7, true, [], None, None, None, None, 0, [], false)], None, instants)
  }

  lemma EntryPlacesHabit(defs: Definitions, o: DayOverrides)
    requires defs == PlacedHabitDay(defs.instants) && o.removedEntries == {}
    ensures EntryApplies(defs, o, 100)(defs.entries[0]) && 7 in PlacedHabits(defs, o, 100)
  {
    assert defs.templates[0].id == 1 && SundayZero(100) == 2 && 2 in defs.templates[0].activeDays;
    assert defs.entries[0].habit.value in PlacedHabits(defs, o, 100);
  }

  lemma FirstPlan(defs: Definitions, o: DayOverrides)
    requires defs == PlacedHabitDay(defs.instants) && o.removedEntries == {} && o.movedEntries == map[]
    ensures Drafts(defs, o, 100) == [Draft(Key(RoutineEntry, 10, 100), Some(defs.instants(100, 3600, 7200)))]
  {
    EntryPlacesHabit(defs, o);
    FilterAll(defs.entries, EntryApplies(defs, o, 100));
    FilterNone(defs.habits, HabitApplies(o, 100, PlacedHabits(defs, o, 100)));
    MapMembers(defs.entries, DraftEntry(defs, o, 100));
    assert Map([], DraftHabit(defs, o, 100)) == [];
  }

  lemma NoEdits()
    ensures OverridesOn([], map[], 100).removedEntries == {} && OverridesOn([], map[], 100).movedEntries == map[]
  {
    assert ExceptionsOn([], 100) == [];
  }

  lemma FirstGeneration(instants: (int, int, int) -> Window)
    ensures Generated(Empty(), PlacedHabitDay(instants), [100])
         == Ok(Empty().(actions := [Action(Key(RoutineEntry, 10, 100), 100, instants(100, 3600, 7200),
                                           Actions.Planned, true)]))
  {
    var d := Draft(Key(RoutineEntry, 10, 100), Some(instants(100, 3600, 7200)));
    NoEdits();
    FirstPlan(PlacedHabitDay(instants), OverridesOn([], map[], 100));
    assert [100][..0] == [] && [100][..1] == [100];
    GeneratedStep(Empty(), PlacedHabitDay(instants), [100], 0, []);
    assert [d][..0] == [];
    assert Persisted([], [d][..0]) == [];
    assert Persisted([], [d]) == Inserted([], d);
    assert [] + [Action(d.key, 100, d.window.value, Actions.Planned, true)]
        == [Action(d.key, 100, d.window.value, Actions.Planned, true)];
  }

  lemma ResolvesEntry(defs: Definitions, o: DayOverrides, d: Draft, e: Entry)
    requires defs == PlacedHabitDay(defs.instants) && e in defs.entries && DraftEntry(defs, o, 100)(e) == d
    ensures d.window.Some?
  {
  }

  lemma ResolvesHabit(defs: Definitions, o: DayOverrides, d: Draft, h: HabitSpec)
    requires defs == PlacedHabitDay(defs.instants) && h in defs.habits && DraftHabit(defs, o, 100)(h) == d
    ensures d.window.Some?
  {
    assert HabitBegin(defs, h) == 28800 && HabitMinutes(h) == 30;
  }

  lemma AlwaysResolves(defs: Definitions, o: DayOverrides)
    requires defs == PlacedHabitDay(defs.instants)
    ensures Resolvable(Drafts(defs, o, 100))
  {
    var drafts := Drafts(defs, o, 100);
    forall i | 0 <= i < |drafts| ensures drafts[i].window.Some? {
      var d := drafts[i];
      assert d in drafts;
      PlanMembers(defs, o, 100, d);
      if e :| e in defs.entries && EntryApplies(defs, o, 100)(e) && DraftEntry(defs, o, 100)(e) == d {
        ResolvesEntry(defs, o, d, e);
      } else {
        var h :| h in defs.habits && HabitApplies(o, 100, PlacedHabits(defs, o, 100))(h)
          && DraftHabit(defs, o, 100)(h) == d;
        ResolvesHabit(defs, o, d, h);
      }
    }
  }

  lemma AlwaysGenerates(s: State, defs: Definitions)
    requires defs == PlacedHabitDay(defs.instants)
    ensures Generated(s, defs, [100]).Ok?
  {
    AlwaysResolves(defs, OverridesOn(s.exceptions, s.overrides, 100));
    assert [100][..0] == [] && [100][..1] == [100];
    GeneratedStep(s, defs, [100], 0, s.actions);
  }

  lemma GeneratedFromEmpty(defs: Definitions, days: seq<int>)
    requires Generated(Empty(), defs, days).Ok?
    ensures Valid(Generated(Empty(), defs, days).value)
  {
    RunKeepsValid(Empty(), []);
    GeneratedGrows(Empty(), defs, days);
    GrownKeepsValid(Empty(), Generated(Empty(), defs, days).value);
  }

  lemma CancelThenGenerate(t: State, defs: Definitions)
    requires defs == PlacedHabitDay(defs.instants) && Valid(t) && t.overrides == map[] && |t.actions| == 1
    requires t.actions[0].key == Key(RoutineEntry, 10, 100) && t.actions[0].active
    requires t.actions[0].status == Actions.Planned
    ensures Cancelled(t, 0, false, 0, 0).Ok?
    ensures var u := Cancelled(t, 0, false, 0, 0).value;
            && Generated(u, defs, [100]).Ok?
            && Occupied(Generated(u, defs, [100]).value.actions, Key(Habit, 7, 100))
  {
    AlwaysGenerates(Cancelled(t, 0, false, 0, 0).value, defs);
    CancelledEntryFreesItsHabit(t, 0, false, 0, 0, defs, defs.entries[0], defs.habits[0], 100);
  }

  // The case is real: on this day, generating leaves the habit to its routine entry; once that is cancelled,
  // generating again creates the habit's own action.
  lemma FreedHabitExample(instants: (int, int, int) -> Window) returns (t: State, u: State)
    ensures Generated(Empty(), PlacedHabitDay(instants), [100]) == Ok(t)
    ensures |t.actions| == 1 && t.actions[0].key == Key(RoutineEntry, 10, 100)
    ensures Cancelled(t, 0, false, 0, 0) == Ok(u)
    ensures Generated(u, PlacedHabitDay(instants), [100]).Ok?
    ensures Occupied(Generated(u, PlacedHabitDay(instants), [100]).value.actions, Key(Habit, 7, 100))
  {
    var defs := PlacedHabitDay(instants);
    FirstGeneration(instants);
    t := Generated(Empty(), defs, [100]).value;
    GeneratedFromEmpty(defs, [100]);
    CancelThenGenerate(t, defs);
    u := Cancelled(t, 0, false, 0, 0).value;
  }

  // In a sorted day's list, the move of an entry that no later row overwrites is the one in force.
  lemma {:induction false} LastMoveWins(rows: seq<RoutineException>, m: nat, window: Window)
    requires m < |rows| && rows[m].edit == Moved(window)
    requires forall j :: m < j < |rows| && rows[j].entry == rows[m].entry && rows[j].edit.Moved? ==>
               rows[j].edit == Moved(window)
    ensures rows[m].entry in MovedIn(rows) && MovedIn(rows)[rows[m].entry] == window
  {
    if m < |rows| - 1 {
      LastMoveWins(rows[..|rows| - 1], m, window);
    }
  }

  lemma CreationOrder()
    ensures Sorting.TotalPreorder(CreatedBefore)
  {
  }

  // `x` is a move of its entry on its date, and every other such move was made before it, by time and then id.
  ghost predicate LastMove(exceptions: seq<RoutineException>, x: RoutineException) {
    && x in exceptions && x.edit.Moved?
    && (forall y :: y in exceptions && y.entry == x.entry && y.date == x.date && y.edit.Moved? && y != x ==>
          !CreatedBefore(x, y))
  }

  // Whatever order the exceptions are stored in, the last move of an occurrence is the one in force.
  lemma LastMoveInForce(exceptions: seq<RoutineException>, overrides: map<Key, Edit>, x: RoutineException)
    requires LastMove(exceptions, x)
    ensures var moved := OverridesOn(exceptions, overrides, x.date).movedEntries;
            x.entry in moved && moved[x.entry] == x.edit.window
  {
    var rows := ExceptionsOn(exceptions, x.date);
    FilterCounts(exceptions, OnDate(x.date));
    CreationOrder();
    Sorting.SortCorrect(Filter(exceptions, OnDate(x.date)), CreatedBefore);
    assert x in rows;
    var m :| 0 <= m < |rows| && rows[m] == x;
    forall j | m < j < |rows| && rows[j].entry == x.entry && rows[j].edit.Moved? ensures rows[j] == x {
      assert CreatedBefore(rows[m], rows[j]);
      assert rows[j] in rows;
    }
    LastMoveWins(rows, m, x.edit.window);
  }

  // A reschedule decides where the generator would put the occurrence: a habit's at once, a routine entry's unless
  // another move of the same occurrence comes after it by time and then id.
  lemma LatestRescheduleWins(s: State, i: nat, day: int, block: Option<Window>, archived: bool, at: int, id: int)
    requires Rescheduled(s, i, day, block, archived, at, id).Ok?
    ensures var t := Rescheduled(s, i, day, block, archived, at, id).value;
            var key := s.actions[i].key;
            var o := OverridesOn(t.exceptions, t.overrides, key.occurrence);
            match key.source
            case RoutineEntry =>
              LastMove(t.exceptions, RoutineException(key.id, key.occurrence, Moved(block.value), at, id)) ==>
                key.id in o.movedEntries && Some(o.movedEntries[key.id]) == block
            case Habit => key.id in o.movedHabits && Some(o.movedHabits[key.id]) == block
  {
    var key := s.actions[i].key;
    var t := Rescheduled(s, i, day, block, archived, at, id).value;
    match key.source {
      case Habit =>
        assert key in t.overrides;
        assert key.id in MovedHabitIds(t.overrides, key.occurrence);
      case RoutineEntry =>
        var move := RoutineException(key.id, key.occurrence, Moved(block.value), at, id);
        if LastMove(t.exceptions, move) {
          LastMoveInForce(t.exceptions, t.overrides, move);
        }
    }
  }

  // ------------------------------------------------------------------ the services

  class Schedule {
    var actions: seq<Action>
    var exceptions: seq<RoutineException>
    var overrides: map<Key, Edit>
    var history: seq<Change>
    ghost var userCancelled: set<Key>

    constructor ()
      ensures Abstract() == Empty()
    {
      actions, exceptions, overrides, history := [], [], map[], [];
      userCancelled := {};
    }

    ghost function Abstract(): State
      reads this
    {
      State(actions, exceptions, overrides, history, userCancelled)
    }

    // The outcome is that of the specification; a rejected operation changes nothing.
    ghost predicate Answers(before: State, op: Op, error: Option<Error>)
      reads this
    {
      match Attempt(before, op)
      case Ok(after) => error.None? && Abstract() == after
      case Err(e) => error == Some(e) && Abstract() == before
    }

    // `_persist`
    method Persist(rows: seq<Action>, plan: seq<Draft>) returns (after: seq<Action>, created: nat)
      requires Resolvable(plan)
      ensures after == Persisted(rows, plan) && created == |after| - |rows|
    {
      after, created := rows, 0;
      for k := 0 to |plan|
        invariant after == Persisted(rows, plan[..k]) && created == |after| - |rows|
      {
        var p := plan[k];
        assert plan[..k + 1][..k] == plan[..k];
        if Occupied(after, p.key) {
          continue;
        }
        after := after + [Action(p.key, p.key.occurrence, p.window.value, Actions.Planned, true)];
        created := created + 1;
      }
      assert plan[..|plan|] == plan;
    }

    // `generate_for_user`: everything is written by one transaction, at the end.
    method GenerateForUser(defs: Definitions, days: seq<int>) returns (result: Result<nat, Error>)
      modifies this`actions
      ensures Answers(old(Abstract()), Generate(defs, days), if result.Ok? then None else Some(result.error))
      ensures result.Ok? ==> result.value == |actions| - |old(actions)|
    {
      ghost var s := Abstract();
      var rows, created := actions, 0;
      for k := 0 to |days|
        invariant Abstract() == s && s == old(Abstract())
        invariant Generated(s, defs, days[..k]) == Ok(s.(actions := rows))
        invariant created == |rows| - |actions|
      {
        GeneratedStep(s, defs, days, k, rows);
        var o := LoadOverrides(exceptions, overrides, days[k]);
        var plan := PlanOccurrences(defs, o, days[k]);
        if plan.Err? {
          GenerationFails(s, defs, days, k + 1);
          return Err(plan.error);
        }
        var n;
        rows, n := Persist(rows, plan.value);
        created := created + n;
      }
      assert days[..|days|] == days;
      actions := rows;
      return Ok(created);
    }

    // `reschedule`
    method RescheduleAction(i: nat, day: int, block: Option<Window>, archived: bool, at: int, id: int)
      returns (error: Option<Error>)
      modifies this
      ensures Answers(old(Abstract()), Reschedule(i, day, block, archived, at, id), error)
    {
      if i >= |actions| {
        return Some(NotFound);
      }
      var a := actions[i];
      if !a.active || a.status != Actions.Planned {
        return Some(InvalidTransition);
      }
      if archived {
        return Some(GoalArchived);
      }
      if block.None? {
        return Some(ZeroBlock);
      }
      RecordEdit(a.key, Moved(block.value), at, id);
      history := history + [Change(i, a.window, block)];
      actions := actions[i := a.(day := day, window := block.value)];
      return None;
    }

    // A Routine Exception row, or the habit override upserted.
    method RecordEdit(key: Key, edit: Edit, at: int, id: int)
      modifies this`exceptions, this`overrides
      ensures key.source == RoutineEntry ==>
        exceptions == old(exceptions) + [RoutineException(key.id, key.occurrence, edit, at, id)]
        && overrides == old(overrides)
      ensures key.source == Habit ==> exceptions == old(exceptions) && overrides == old(overrides)[key := edit]
    {
      match key.source {
        case RoutineEntry =>
          exceptions := exceptions + [RoutineException(key.id, key.occurrence, edit, at, id)];
        case Habit =>
          overrides := overrides[key := edit];
      }
    }

    // `cancel`
    method CancelAction(i: nat, archived: bool, at: int, id: int) returns (error: Option<Error>)
      modifies this
      ensures Answers(old(Abstract()), Cancel(i, archived, at, id), error)
    {
      if i >= |actions| {
        return Some(NotFound);
      }
      var a := actions[i];
      if !a.active || (a.status != Actions.Planned && a.status != Actions.Started) {
        return Some(InvalidTransition);
      }
      if archived {
        return Some(GoalArchived);
      }
      RecordEdit(a.key, Removed, at, id);
      history := history + [Change(i, a.window, None)];
      actions := actions[i := a.(active := false)];
      userCancelled := userCancelled + {a.key};
      return None;
    }

    // `system_cancel`
    method SystemCancelAction(i: nat)
      requires i < |actions|
      modifies this`actions, this`history
      ensures Abstract() == Ended(old(Abstract()), i)
    {
      history := history + [Change(i, actions[i].window, None)];
      actions := actions[i := actions[i].(active := false)];
    }

    // What a habit pause or delete and a goal archive do with each candidate: active planned ones only.
    method CancelCandidate(i: nat)
      modifies this`actions, this`history
      ensures Answers(old(Abstract()), SystemCancel(i), None)
    {
      if i < |actions| && actions[i].active && actions[i].status == Actions.Planned {
        SystemCancelAction(i);
      }
    }

    method CheckInAction(i: nat, wanted: Actions.Status, note: Option<nat>, archived: bool)
      returns (error: Option<Error>)
      modifies this`actions
      ensures Answers(old(Abstract()), CheckIn(i, wanted, note, archived), error)
    {
      if i >= |actions| {
        return Some(NotFound);
      }
      var a := actions[i];
      var cleaned := Checkins.ValidateTransition(a.status, wanted, a.active, note);
      if cleaned.Err? {
        return Some(CheckinRejected(cleaned.error));
      }
      if archived {
        return Some(GoalArchived);
      }
      actions := actions[i := a.(status := wanted)];
      return None;
    }
  }

  lemma {:induction false} GenerationFails(s: State, defs: Definitions, days: seq<int>, k: nat)
    requires k <= |days| && Generated(s, defs, days[..k]).Err?
    ensures Generated(s, defs, days) == Err(ZeroBlock)
    decreases |days| - k
  {
    if k == |days| {
      assert days[..k] == days;
      FailureIsZeroBlock(s, defs, days);
    } else {
      assert days[..k + 1][..k] == days[..k];
      GenerationFails(s, defs, days, k + 1);
    }
  }

  lemma {:induction false} FailureIsZeroBlock(s: State, defs: Definitions, days: seq<int>)
    requires Generated(s, defs, days).Err?
    ensures Generated(s, defs, days) == Err(ZeroBlock)
  {
    if days != [] && Generated(s, defs, days[..|days| - 1]).Err? {
      FailureIsZeroBlock(s, defs, days[..|days| - 1]);
    }
  }
}
