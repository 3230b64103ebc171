// The check-in log (backend/src/lifeos/domain/checkins.py) and the two readers that put it back in order:
// `chain_order` and the completion rate's `status_as_of` (backend/src/lifeos/domain/analytics/completion.py).
module Checkins {
  import opened Prelude
  import opened Actions
  import Sorting

  // One Check-in Record. The first record of an action comes from no status at all.
  datatype Record = Record(id: int, at: int, previous: Option<Status>, status: Status)

  datatype Error = InvalidTransition | NoteTooLong | SkipReasonRequired | GoalArchived

  const NOTE_MAX := 2000

  // `note` is the length of the note once stripped, if one was given; so is the result.
  function ValidateTransition(current: Status, wanted: Status, active: bool, note: Option<nat>)
    : Result<Option<nat>, Error>
  {
    if !active || wanted !in Transitions(current) then Err(InvalidTransition)
    else if note.Some? && note.value > NOTE_MAX then Err(NoteTooLong)
    else if wanted == Skipped && (note.None? || note.value == 0) then Err(SkipReasonRequired)
    else Ok(if note == Some(0) then None else note)
  }

  // ------------------------------------------------------------------ putting records in order

  // The position of the first record that continues from `last`, or 0 when none does.
  function Pick(group: seq<Record>, last: Option<Status>): (i: nat)
    requires group != []
    ensures i < |group|
    ensures group[i].previous == last ==> forall j :: 0 <= j < i ==> group[j].previous != last
    ensures group[i].previous != last ==> i == 0 && forall j :: 0 <= j < |group| ==> group[j].previous != last
  {
    if group[0].previous == last || |group| == 1 then 0
    else
      var i := Pick(group[1..], last);
      assert forall j :: 1 <= j < |group| ==> group[j] == group[1..][j - 1];
      if group[i + 1].previous == last then i + 1 else 0
  }

  // `list.remove`: drop the first occurrence.
  function Without(s: seq<Record>, r: Record): seq<Record> {
    if s == [] then [] else if s[0] == r then s[1..] else [s[0]] + Without(s[1..], r)
  }

  function AtTime(t: int): Record -> bool {
    (r: Record) => r.at == t
  }

  function Earliest(records: seq<Record>): (t: int)
    requires records != []
    ensures forall i :: 0 <= i < |records| ==> t <= records[i].at
    ensures exists i :: 0 <= i < |records| && records[i].at == t
  {
    if |records| == 1 then records[0].at
    else
      assert forall i :: 1 <= i < |records| ==> records[i] == records[1..][i - 1];
      Min(records[0].at, Earliest(records[1..]))
  }

  lemma {:induction false} WithoutRemovesOne(s: seq<Record>, r: Record)
    requires r in s
    ensures |Without(s, r)| == |s| - 1
    ensures multiset(Without(s, r)) == multiset(s) - multiset{r}
  {
    assert s == [s[0]] + s[1..];
    if s[0] != r {
      WithoutRemovesOne(s[1..], r);
    }
  }

  // The records still to be placed, taken earliest first; among records of that instant, the first that continues
  // from the status reached so far, or else simply the first.
  function NextRecord(last: Option<Status>, records: seq<Record>): (r: Record)
    requires records != []
    ensures r in records && r.at == Earliest(records)
  {
    var group := Filter(records, AtTime(Earliest(records)));
    FilterCounts(records, AtTime(Earliest(records)));
    assert group != [] by {
      var i :| 0 <= i < |records| && records[i].at == Earliest(records);
      assert records[i] in group;
    }
    var r := group[Pick(group, last)];
    assert r in group;
    r
  }

  function Chain(last: Option<Status>, records: seq<Record>): seq<Record>
    decreases |records|
  {
    if records == [] then []
    else
      var r := NextRecord(last, records);
      WithoutRemovesOne(records, r);
      [r] + Chain(Some(r.status), Without(records, r))
  }

  lemma {:induction false} ChainPermutes(last: Option<Status>, records: seq<Record>)
    ensures multiset(Chain(last, records)) == multiset(records)
    decreases |records|
  {
    if records != [] {
      var r := NextRecord(last, records);
      WithoutRemovesOne(records, r);
      ChainPermutes(Some(r.status), Without(records, r));
      assert multiset{r} + (multiset(records) - multiset{r}) == multiset(records);
    }
  }

  // Removing a record leaves the groups of other instants alone and shortens its own.
  lemma {:induction false} WithoutInGroup(s: seq<Record>, r: Record, t: int)
    ensures Filter(Without(s, r), AtTime(t))
         == if r.at == t then Without(Filter(s, AtTime(t)), r) else Filter(s, AtTime(t))
  {
    if s == [] {
    } else if s[0] == r {
    } else {
      WithoutInGroup(s[1..], r, t);
      assert Without(s, r)[1..] == Without(s[1..], r);
    }
  }

  lemma GroupsHold(records: seq<Record>, t: int)
    ensures forall r :: r in Filter(records, AtTime(t)) <==> r in records && r.at == t
  {
    FilterCounts(records, AtTime(t));
  }

  ghost predicate Grouped(times: seq<int>, byTime: map<int, seq<Record>>, records: seq<Record>) {
    && Distinct(times)
    && (forall t :: t in times <==> t in byTime)
    && (forall t :: t in byTime ==> byTime[t] == Filter(records, AtTime(t)) && byTime[t] != [])
    && (forall r :: r in records ==> r.at in byTime)
  }

  lemma GroupOfNext(records: seq<Record>, r: Record, t: int)
    ensures Filter(records + [r], AtTime(t)) == Filter(records, AtTime(t)) + (if r.at == t then [r] else [])
  {
    FilterConcat(records, [r], AtTime(t));
  }

  lemma GroupedNext(times: seq<int>, byTime: map<int, seq<Record>>, records: seq<Record>, r: Record)
    requires Grouped(times, byTime, records)
    ensures r.at in byTime ==> Grouped(times, byTime[r.at := byTime[r.at] + [r]], records + [r])
    ensures r.at !in byTime ==> Grouped(times + [r.at], byTime[r.at := [r]], records + [r])
  {
    forall t {
      GroupOfNext(records, r, t);
    }
    if r.at !in byTime {
      FilterNone(records, AtTime(r.at));
    }
  }

  // The groups by instant, with their keys in order of first appearance.
  method GroupByTime(records: seq<Record>) returns (times: seq<int>, byTime: map<int, seq<Record>>)
    ensures Grouped(times, byTime, records)
  {
    times, byTime := [], map[];
    for i := 0 to |records|
      invariant Grouped(times, byTime, records[..i])
    {
      var r := records[i];
      GroupedNext(times, byTime, records[..i], r);
      assert records[..i + 1] == records[..i] + [r];
      if r.at in byTime {
        byTime := byTime[r.at := byTime[r.at] + [r]];
      } else {
        times := times + [r.at];
        byTime := byTime[r.at := [r]];
      }
    }
    assert records[..|records|] == records;
  }

  predicate AtMost(a: int, b: int) { a <= b }

  lemma {:induction false} NextFromGroup(last: Option<Status>, left: seq<Record>, group: seq<Record>, t: int)
    requires group != [] && group == Filter(left, AtTime(t))
    requires forall r :: r in left ==> t <= r.at
    ensures left != [] && NextRecord(last, left) == group[Pick(group, last)]
  {
    GroupsHold(left, t);
    assert group[0] in group;
  }

  lemma FewerMembers(s: seq<Record>, r: Record)
    requires r in s
    ensures forall x :: x in Without(s, r) ==> x in s
  {
    WithoutRemovesOne(s, r);
    forall x | x in Without(s, r) ensures x in s {
      assert x in multiset(Without(s, r));
      assert x in multiset(s);
    }
  }

  function LastStatus(ordered: seq<Record>): Option<Status> {
    if ordered == [] then None else Some(ordered[|ordered| - 1].status)
  }

  function NotAtTime(t: int): Record -> bool {
    (r: Record) => r.at != t
  }

  function StatusAfter(last: Option<Status>, placed: seq<Record>): Option<Status> {
    if placed == [] then last else LastStatus(placed)
  }

  // `group` is the earliest instant's share of `left`.
  ghost predicate EarliestGroup(left: seq<Record>, group: seq<Record>, t: int) {
    group == Filter(left, AtTime(t)) && forall r :: r in left ==> t <= r.at
  }

  lemma {:induction false} WithoutKeepsOthers(s: seq<Record>, r: Record, t: int)
    requires r.at == t
    ensures Filter(Without(s, r), NotAtTime(t)) == Filter(s, NotAtTime(t))
  {
    if s != [] && s[0] != r {
      WithoutKeepsOthers(s[1..], r, t);
      assert Without(s, r)[1..] == Without(s[1..], r);
    }
  }

  lemma ChainStep(last: Option<Status>, left: seq<Record>, group: seq<Record>, t: int)
    requires EarliestGroup(left, group, t) && group != []
    ensures var next := group[Pick(group, last)];
            && next in left && next.at == t
            && Chain(last, left) == [next] + Chain(Some(next.status), Without(left, next))
            && |Without(left, next)| < |left|
            && EarliestGroup(Without(left, next), Without(group, next), t)
  {
    var next := group[Pick(group, last)];
    NextFromGroup(last, left, group, t);
    GroupsHold(left, t);
    assert next in group;
    WithoutInGroup(left, next, t);
    FewerMembers(left, next);
    WithoutRemovesOne(left, next);
  }

  // A group of one instant is its own earliest group.
  lemma GroupAlone(left: seq<Record>, group: seq<Record>, t: int)
    requires group == Filter(left, AtTime(t))
    ensures EarliestGroup(group, group, t)
  {
    GroupsHold(left, t);
    assert forall i :: 0 <= i < |group| ==> group[i] in group;
    FilterAll(group, AtTime(t));
  }

  // The chain places the whole group of the earliest instant first, and then everything else.
  lemma {:induction false} GroupComesFirst(last: Option<Status>, left: seq<Record>, group: seq<Record>, t: int)
    requires EarliestGroup(left, group, t)
    ensures Chain(last, left) == Chain(last, group)
                               + Chain(StatusAfter(last, Chain(last, group)), Filter(left, NotAtTime(t)))
    decreases |left|
  {
    if group == [] {
      GroupsHold(left, t);
      assert forall i :: 0 <= i < |left| ==> left[i] in left;
      FilterAll(left, NotAtTime(t));
    } else {
      var next := group[Pick(group, last)];
      var status := Some(next.status);
      GroupAlone(left, group, t);
      ChainStep(last, left, group, t);
      ChainStep(last, group, group, t);
      GroupComesFirst(status, Without(left, next), Without(group, next), t);
      WithoutKeepsOthers(left, next, t);
      OneThenRest(next, Chain(status, Without(group, next)), last, Chain(status, Without(left, next)),
                  Filter(left, NotAtTime(t)));
    }
  }

  lemma {:induction false} OneThenRest(
    next: Record, placed: seq<Record>, last: Option<Status>, whole: seq<Record>, later: seq<Record>)
    requires whole == placed + Chain(StatusAfter(Some(next.status), placed), later)
    ensures [next] + whole == ([next] + placed) + Chain(StatusAfter(last, [next] + placed), later)
  {
    Associative([next], placed, Chain(StatusAfter(Some(next.status), placed), later));
  }

  // One pass over the group of a single instant.
  method DrainGroup(before: seq<Record>, all: seq<Record>, ghost t: int) returns (ordered: seq<Record>)
    requires EarliestGroup(all, all, t)
    ensures ordered == before + Chain(LastStatus(before), all)
  {
    ordered := before;
    var group := all;
    var last := LastStatus(ordered);
    while group != []
      invariant EarliestGroup(group, group, t)
      invariant last == LastStatus(ordered)
      invariant before + Chain(LastStatus(before), all) == ordered + Chain(last, group)
      decreases |group|
    {
      ChainStep(last, group, group, t);
      var next := group[Pick(group, last)];
      Associative(ordered, [next], Chain(Some(next.status), Without(group, next)));
      group := Without(group, next);
      ordered := ordered + [next];
      last := Some(next.status);
    }
  }

  lemma StrictInstants(times: seq<int>, instants: seq<int>)
    requires Distinct(times) && multiset(times) == multiset(instants) && Sorting.SortedBy(instants, AtMost)
    ensures Increasing(instants)
  {
    DistinctPermutation(times, instants);
    forall i, j | 0 <= i < j < |instants| ensures instants[i] < instants[j] {
      assert AtMost(instants[i], instants[j]);
    }
  }

  ghost predicate Increasing(instants: seq<int>) {
    forall i, j :: 0 <= i < j < |instants| ==> instants[i] < instants[j]
  }

  // The records from the k-th instant on.
  function FromInstant(records: seq<Record>, instants: seq<int>, k: nat): seq<Record>
    requires k <= |instants|
  {
    Filter(records, (r: Record) => r.at in instants[k..])
  }

  lemma {:induction false} FilterTwice(s: seq<Record>, a: Record -> bool, b: Record -> bool, c: Record -> bool)
    requires forall i :: 0 <= i < |s| ==> (c(s[i]) <==> a(s[i]) && b(s[i]))
    ensures Filter(Filter(s, a), b) == Filter(s, c)
  {
    if s != [] {
      FilterTwice(s[1..], a, b, c);
    }
  }

  lemma InRest(instants: seq<int>, k: nat, t: int)
    requires k < |instants| && Increasing(instants)
    ensures t in instants[k..] ==> instants[k] <= t
    ensures t in instants[k + 1..] <==> t in instants[k..] && t != instants[k]
  {
    if t in instants[k..] {
      var j :| 0 <= j < |instants[k..]| && instants[k..][j] == t;
      assert instants[k..][j] == instants[k + j];
      assert t != instants[k] ==> instants[k + 1..][j - 1] == t;
    }
    if t in instants[k + 1..] {
      var j :| 0 <= j < |instants[k + 1..]| && instants[k + 1..][j] == t;
      assert instants[k..][j + 1] == t;
    }
  }

  // The group of the k-th instant is the earliest of what remains, and what is not in it remains next.
  lemma InstantSplits(records: seq<Record>, instants: seq<int>, k: nat)
    requires k < |instants| && Increasing(instants)
    ensures var left := FromInstant(records, instants, k);
            && EarliestGroup(left, Filter(records, AtTime(instants[k])), instants[k])
            && Filter(left, NotAtTime(instants[k])) == FromInstant(records, instants, k + 1)
  {
    var t := instants[k];
    var keep := (r: Record) => r.at in instants[k..];
    forall u {
      InRest(instants, k, u);
    }
    assert instants[k..][0] == t;
    FilterCounts(records, keep);
    FilterTwice(records, keep, AtTime(t), AtTime(t));
    FilterTwice(records, keep, NotAtTime(t), (r: Record) => r.at in instants[k + 1..]);
  }

  // `chain_order`: group by instant, take the instants in order, and walk each group along the transition chain.
  method ChainOrder(records: seq<Record>) returns (ordered: seq<Record>)
    ensures ordered == Chain(None, records)
  {
    var times, byTime := GroupByTime(records);
    var instants := Sorting.Sort(times, AtMost);
    Sorting.SortCorrect(times, AtMost);
    StrictInstants(times, instants);
    AllRemain(records, times, byTime, instants);
    ordered := [];
    for k := 0 to |instants|
      invariant Chain(None, records) == ordered + Chain(LastStatus(ordered), FromInstant(records, instants, k))
    {
      var group := byTime[instants[k]];
      PlaceGroup(records, instants, k, ordered);
      GroupAlone(records, group, instants[k]);
      ordered := DrainGroup(ordered, group, instants[k]);
    }
    NoneRemain(records, instants);
  }

  lemma {:induction false} PlaceGroup(records: seq<Record>, instants: seq<int>, k: nat, ordered: seq<Record>)
    requires k < |instants| && Increasing(instants)
    ensures var placed := ordered + Chain(LastStatus(ordered), Filter(records, AtTime(instants[k])));
            placed + Chain(LastStatus(placed), FromInstant(records, instants, k + 1))
            == ordered + Chain(LastStatus(ordered), FromInstant(records, instants, k))
  {
    var last := LastStatus(ordered);
    var left, group := FromInstant(records, instants, k), Filter(records, AtTime(instants[k]));
    InstantSplits(records, instants, k);
    GroupComesFirst(last, left, group, instants[k]);
    Associative(ordered, Chain(last, group),
                Chain(StatusAfter(last, Chain(last, group)), FromInstant(records, instants, k + 1)));
  }

  lemma AllRemain(records: seq<Record>, times: seq<int>, byTime: map<int, seq<Record>>, instants: seq<int>)
    requires Grouped(times, byTime, records)
    requires forall t :: t in instants <==> t in times
    ensures FromInstant(records, instants, 0) == records
    ensures forall k :: 0 <= k < |instants| ==>
      instants[k] in byTime && byTime[instants[k]] == Filter(records, AtTime(instants[k]))
  {
    forall k | 0 <= k < |instants| ensures instants[k] in byTime {
      var t := instants[k];
      assert t in instants;
    }
    assert instants[0..] == instants;
    forall i | 0 <= i < |records| ensures records[i].at in instants {
      assert records[i] in records;
    }
    FilterAll(records, (r: Record) => r.at in instants[0..]);
  }

  lemma NoneRemain(records: seq<Record>, instants: seq<int>)
    ensures FromInstant(records, instants, |instants|) == []
  {
    FilterNone(records, (r: Record) => r.at in instants[|instants|..]);
  }

  // ------------------------------------------------------------------ logs that are chains

  // Each record continues from the one before it (the first from `from`), times never go back and no status recurs.
  ghost predicate LogChain(log: seq<Record>, from: Option<Status>) {
    && (log != [] ==> log[0].previous == from)
    && (forall i :: 1 <= i < |log| ==> log[i].previous == Some(log[i - 1].status))
    && (forall i, j :: 0 <= i < j < |log| ==> log[i].at <= log[j].at)
    && (forall i, j :: 0 <= i < j < |log| ==> log[i].status != log[j].status)
    && (forall i :: 0 <= i < |log| ==> from != Some(log[i].status))
  }

  // In a chain nothing but the record before it leads to a record, and nothing but the first continues from `from`.
  lemma OneSource(log: seq<Record>, from: Option<Status>, j: nat)
    requires LogChain(log, from) && j < |log|
    ensures log[j].previous == from <==> j == 0
    ensures forall k :: 0 <= k < |log| ==> (log[j].previous == Some(log[k].status) <==> j == k + 1)
  {
    forall k | 0 <= k < |log| ensures log[j].previous == Some(log[k].status) <==> j == k + 1 {
      assert j > 0 && j - 1 < k ==> log[j - 1].status != log[k].status;
      assert j > 0 && k < j - 1 ==> log[k].status != log[j - 1].status;
    }
    assert j > 0 ==> from != Some(log[j - 1].status);
  }

  lemma FirstIsEarliest(log: seq<Record>, shuffled: seq<Record>, from: Option<Status>)
    requires LogChain(log, from) && log != [] && multiset(shuffled) == multiset(log)
    ensures shuffled != [] && Earliest(shuffled) == log[0].at
  {
    Sorting.SameMembers(shuffled, log);
    assert log[0] in shuffled;
    var k :| 0 <= k < |shuffled| && shuffled[k].at == Earliest(shuffled);
    assert shuffled[k] in log;
    var i :| 0 <= i < |shuffled| && shuffled[i] == log[0];
  }

  lemma FirstOfChain(log: seq<Record>, shuffled: seq<Record>, from: Option<Status>)
    requires LogChain(log, from) && log != [] && multiset(shuffled) == multiset(log)
    ensures shuffled != [] && log[0] in shuffled && NextRecord(from, shuffled) == log[0]
  {
    FirstIsEarliest(log, shuffled, from);
    Sorting.SameMembers(shuffled, log);
    GroupsHold(shuffled, log[0].at);
    var group := Filter(shuffled, AtTime(log[0].at));
    assert log[0] in group;
    var j :| 0 <= j < |group| && group[j] == log[0];
    OneSource(log, from, 0);
    var r := group[Pick(group, from)];
    assert r.previous == from;
    assert r in group;
    var m :| 0 <= m < |log| && log[m] == r;
    OneSource(log, from, m);
  }

  lemma RestIsChain(log: seq<Record>, shuffled: seq<Record>, from: Option<Status>)
    requires LogChain(log, from) && log != [] && log[0] in shuffled && multiset(shuffled) == multiset(log)
    ensures LogChain(log[1..], Some(log[0].status))
    ensures multiset(Without(shuffled, log[0])) == multiset(log[1..])
  {
    WithoutRemovesOne(shuffled, log[0]);
    Sorting.TailMultiset(log);
  }

  // Whatever order the rows come back in, `chain_order` restores the chain.
  lemma {:induction false} ChainRestored(log: seq<Record>, shuffled: seq<Record>, from: Option<Status>)
    requires LogChain(log, from) && multiset(shuffled) == multiset(log)
    ensures Chain(from, shuffled) == log
    decreases |log|
  {
    if log == [] {
      assert |multiset(shuffled)| == 0;
    } else {
      FirstOfChain(log, shuffled, from);
      RestIsChain(log, shuffled, from);
      assert log == [log[0]] + log[1..];
      ChainRestored(log[1..], Without(shuffled, log[0]), Some(log[0].status));
    }
  }

  // ------------------------------------------------------------------ status at an instant

  function VisibleAt(asOf: int): Record -> bool {
    (r: Record) => r.at <= asOf
  }

  function Latest(records: seq<Record>): (t: int)
    requires records != []
    ensures forall i :: 0 <= i < |records| ==> records[i].at <= t
    ensures exists i :: 0 <= i < |records| && records[i].at == t
  {
    if |records| == 1 then records[0].at
    else
      assert forall i :: 1 <= i < |records| ==> records[i] == records[1..][i - 1];
      Max(records[0].at, Latest(records[1..]))
  }

  function Sources(tied: seq<Record>): set<Option<Status>> {
    set r | r in tied :: r.previous
  }

  function IsHead(tied: seq<Record>): Record -> bool {
    (r: Record) => Some(r.status) !in Sources(tied)
  }

  function StatusAsOf(checkins: seq<Record>, asOf: int): Status {
    var visible := Filter(checkins, VisibleAt(asOf));
    if visible == [] then Planned
    else
      var tied := Filter(visible, AtTime(Latest(visible)));
      var heads := Filter(tied, IsHead(tied));
      assert tied != [] by {
        GroupsHold(visible, Latest(visible));
        var i :| 0 <= i < |visible| && visible[i].at == Latest(visible);
        assert visible[i] in tied;
      }
      if heads != [] then heads[|heads| - 1].status else tied[|tied| - 1].status
  }

  // The records visible at `asOf` are the first `n` of the chain.
  ghost predicate VisiblePrefix(log: seq<Record>, asOf: int, n: nat) {
    && n <= |log|
    && (forall i :: 0 <= i < n ==> log[i].at <= asOf)
    && (forall i :: n <= i < |log| ==> asOf < log[i].at)
  }

  // How much of a log was written by `asOf`.
  function VisibleCount(log: seq<Record>, asOf: int): nat {
    if log == [] then 0
    else if log[|log| - 1].at <= asOf then |log|
    else VisibleCount(log[..|log| - 1], asOf)
  }

  lemma {:induction false} VisibleCountIsPrefix(log: seq<Record>, asOf: int)
    requires forall i, j :: 0 <= i < j < |log| ==> log[i].at <= log[j].at
    ensures VisiblePrefix(log, asOf, VisibleCount(log, asOf))
  {
    if log != [] {
      var last := |log| - 1;
      if log[last].at <= asOf {
        assert forall i :: 0 <= i < last ==> log[i].at <= log[last].at;
      } else {
        VisibleCountIsPrefix(log[..last], asOf);
      }
    }
  }

  // Among the records of the latest instant only the last of the chain leads nowhere.
  lemma OnlyTheLastIsHead(log: seq<Record>, from: Option<Status>, n: nat, tied: seq<Record>)
    requires LogChain(log, from) && 0 < n <= |log|
    requires forall r :: r in tied <==> exists i :: 0 <= i < n && log[i] == r && r.at == log[n - 1].at
    ensures log[n - 1] in tied
    ensures forall r :: r in tied ==> (IsHead(tied)(r) <==> r == log[n - 1])
  {
    forall r | r in tied && r != log[n - 1] ensures !IsHead(tied)(r) {
      var i :| 0 <= i < n && log[i] == r && r.at == log[n - 1].at;
      assert log[i].at <= log[i + 1].at;
      assert i + 1 == n - 1 || log[i + 1].at <= log[n - 1].at;
      assert log[i + 1] in tied;
      assert log[i + 1].previous in Sources(tied);
    }
    forall s | s in tied ensures s.previous != Some(log[n - 1].status) {
      var j :| 0 <= j < n && log[j] == s && s.at == log[n - 1].at;
      OneSource(log, from, j);
    }
  }

  lemma HeadsAreTheLast(log: seq<Record>, from: Option<Status>, n: nat, tied: seq<Record>)
    requires LogChain(log, from) && 0 < n <= |log|
    requires forall r :: r in tied <==> exists i :: 0 <= i < n && log[i] == r && r.at == log[n - 1].at
    ensures var heads := Filter(tied, IsHead(tied));
            heads != [] && heads[|heads| - 1] == log[n - 1]
  {
    OnlyTheLastIsHead(log, from, n, tied);
    var heads := Filter(tied, IsHead(tied));
    FilterCounts(tied, IsHead(tied));
    assert log[n - 1] in heads;
    assert heads[|heads| - 1] in heads;
  }

  lemma VisibleAreTheFirst(log: seq<Record>, shuffled: seq<Record>, asOf: int, n: nat)
    requires multiset(shuffled) == multiset(log) && VisiblePrefix(log, asOf, n)
    ensures forall r :: r in Filter(shuffled, VisibleAt(asOf)) <==> exists i :: 0 <= i < n && log[i] == r
    ensures Filter(shuffled, VisibleAt(asOf)) == [] <==> n == 0
  {
    var visible := Filter(shuffled, VisibleAt(asOf));
    FilterCounts(shuffled, VisibleAt(asOf));
    Sorting.SameMembers(shuffled, log);
    forall r | r in visible ensures exists i :: 0 <= i < n && log[i] == r {
      assert r in log;
      var i :| 0 <= i < |log| && log[i] == r;
      assert i < n;
    }
    if n > 0 {
      assert log[n - 1] in log;
    } else if visible != [] {
      var r := SomeMember(visible);
    }
  }

  lemma LatestIsTheLastVisible(log: seq<Record>, from: Option<Status>, visible: seq<Record>, n: nat)
    requires LogChain(log, from) && 0 < n <= |log| && visible != []
    requires forall r :: r in visible <==> exists i :: 0 <= i < n && log[i] == r
    ensures Latest(visible) == log[n - 1].at
  {
    var k :| 0 <= k < |visible| && visible[k].at == Latest(visible);
    assert visible[k] in visible;
    var i :| 0 <= i < n && log[i] == visible[k];
    assert i == n - 1 || log[i].at <= log[n - 1].at;
    assert log[n - 1] in visible;
  }

  // At any instant, from the records in any order, the status is the one the visible part of the chain ends in.
  lemma StatusIsEndOfVisiblePrefix(
    log: seq<Record>, from: Option<Status>, shuffled: seq<Record>, asOf: int, n: nat)
    requires LogChain(log, from) && multiset(shuffled) == multiset(log)
    requires VisiblePrefix(log, asOf, n)
    ensures StatusAsOf(shuffled, asOf) == if n == 0 then Planned else log[n - 1].status
  {
    VisibleAreTheFirst(log, shuffled, asOf, n);
    var visible := Filter(shuffled, VisibleAt(asOf));
    if n > 0 {
      LatestIsTheLastVisible(log, from, visible, n);
      GroupsHold(visible, log[n - 1].at);
      HeadsAreTheLast(log, from, n, Filter(visible, AtTime(log[n - 1].at)));
    }
  }

  // ------------------------------------------------------------------ histories the service writes

  datatype Action = Action(status: Status, active: bool, completedAt: Option<int>, log: seq<Record>)

  // Generation and manual creation insert the action together with its first record.
  function Created(id: int, now: int): Action {
    Action(Planned, true, None, [Record(id, now, None, Planned)])
  }

  function Transitioned(a: Action, wanted: Status, note: Option<nat>, archived: bool, id: int, now: int)
    : Result<Action, Error>
  {
    match ValidateTransition(a.status, wanted, a.active, note)
    case Err(e) => Err(e)
    case Ok(_) =>
      if archived then Err(GoalArchived)
      else Ok(Action(wanted, a.active, if wanted == Completed then Some(now) else a.completedAt,
                     a.log + [Record(id, now, Some(a.status), wanted)]))
  }

  // A run of one action: check-ins (some rejected), cancellation, and time passing.
  datatype Op = CheckIn(wanted: Status, note: Option<nat>, archived: bool, id: int) | Cancel | Tick(seconds: nat)

  datatype World = World(action: Action, now: int)

  function Next(w: World, op: Op): World {
    match op
    case Tick(seconds) => w.(now := w.now + seconds)
    case Cancel => w.(action := w.action.(active := false))
    case CheckIn(wanted, note, archived, id) =>
      match Transitioned(w.action, wanted, note, archived, id, w.now)
      case Err(_) => w
      case Ok(after) => w.(action := after)
  }

  function Run(id: int, now: int, ops: seq<Op>): World {
    if ops == [] then World(Created(id, now), now)
    else Next(Run(id, now, ops[..|ops| - 1]), ops[|ops| - 1])
  }

  function Rank(s: Status): nat {
    match s
    case Planned => 0
    case Started => 1
    case _ => 2
  }

  ghost predicate Climbs(log: seq<Record>) {
    forall i, j :: 0 <= i < j < |log| ==> Rank(log[i].status) < Rank(log[j].status)
  }

  // The log is the chain from creation to the stored status.
  ghost predicate Logged(w: World) {
    var a := w.action;
    && a.log != [] && a.log[0].status == Planned
    && LogChain(a.log, None) && Climbs(a.log)
    && a.log[|a.log| - 1].status == a.status
    && (forall i :: 0 <= i < |a.log| ==> a.log[i].at <= w.now)
    && a.completedAt == (if a.status == Completed then Some(a.log[|a.log| - 1].at) else None)
  }

  lemma ClimbOn(log: seq<Record>, r: Record)
    requires log != [] && Climbs(log) && Rank(log[|log| - 1].status) < Rank(r.status)
    ensures Climbs(log + [r])
    ensures forall i :: 0 <= i < |log| ==> log[i].status != r.status
  {
    forall i | 0 <= i < |log| ensures Rank(log[i].status) < Rank(r.status) {
      assert i == |log| - 1 || Rank(log[i].status) < Rank(log[|log| - 1].status);
    }
  }

  lemma ChainOn(log: seq<Record>, r: Record)
    requires log != [] && LogChain(log, None) && r.previous == Some(log[|log| - 1].status)
    requires forall i :: 0 <= i < |log| ==> log[i].at <= r.at && log[i].status != r.status
    ensures LogChain(log + [r], None)
  {
  }

  lemma NextKeepsLogged(w: World, op: Op)
    requires Logged(w)
    ensures Logged(Next(w, op))
  {
    if op.CheckIn? && Transitioned(w.action, op.wanted, op.note, op.archived, op.id, w.now).Ok? {
      var last := Record(op.id, w.now, Some(w.action.status), op.wanted);
      ClimbOn(w.action.log, last);
      ChainOn(w.action.log, last);
    }
  }

  lemma {:induction false} RunIsLogged(id: int, now: int, ops: seq<Op>)
    ensures Logged(Run(id, now, ops))
  {
    if ops != [] {
      RunIsLogged(id, now, ops[..|ops| - 1]);
      NextKeepsLogged(Run(id, now, ops[..|ops| - 1]), ops[|ops| - 1]);
    }
  }

  // Both readers agree with the row, for every history the service can write and whatever order it is read in:
  // `chain_order` returns the history, `status_as_of` follows its visible prefix, and from the last record on it
  // gives the stored status.
  lemma ReadersAgree(id: int, now: int, ops: seq<Op>, shuffled: seq<Record>, asOf: int)
    requires multiset(shuffled) == multiset(Run(id, now, ops).action.log)
    ensures var action := Run(id, now, ops).action;
            var n := VisibleCount(action.log, asOf);
            && VisiblePrefix(action.log, asOf, n)
            && Chain(None, shuffled) == action.log
            && StatusAsOf(shuffled, asOf) == (if n == 0 then Planned else action.log[n - 1].status)
            && (n == |action.log| ==> StatusAsOf(shuffled, asOf) == action.status)
  {
    RunIsLogged(id, now, ops);
    var log := Run(id, now, ops).action.log;
    ChainRestored(log, shuffled, None);
    var n := VisibleCount(log, asOf);
    VisibleCountIsPrefix(log, asOf);
    StatusIsEndOfVisiblePrefix(log, None, shuffled, asOf, n);
  }

  // A check-in is refused for an action that is not active or whose status does not allow the new one, for a note over
  // two thousand characters, for a skip without a reason, and for an archived goal. Otherwise it changes the status,
  // stamps a completion, and adds one record from the old status to the new.
  lemma CheckInEffect(id: int, now: int, ops: seq<Op>, wanted: Status, note: Option<nat>, archived: bool, record: int)
    ensures var w := Run(id, now, ops);
            var after := Run(id, now, ops + [CheckIn(wanted, note, archived, record)]);
            var answer := Transitioned(w.action, wanted, note, archived, record, w.now);
            var status := w.action.status;
            if !w.action.active || status in {Completed, Skipped} || wanted == Planned || wanted == status then
              answer == Err(InvalidTransition) && after == w
            else if note.Some? && note.value > 2000 then answer == Err(NoteTooLong) && after == w
            else if wanted == Skipped && note in {None, Some(0)} then answer == Err(SkipReasonRequired) && after == w
            else if archived then answer == Err(GoalArchived) && after == w
            else
              var done := if wanted == Completed then Some(w.now) else None;
              var log := w.action.log + [Record(record, w.now, Some(status), wanted)];
              ValidateTransition(status, wanted, true, note) == Ok(if note == Some(0) then None else note)
              && after == World(Action(wanted, true, done, log), w.now) && answer == Ok(after.action)
  {
    assert (ops + [CheckIn(wanted, note, archived, record)])[..|ops|] == ops;
    RunIsLogged(id, now, ops);
  }

  // Creation writes the first record; a cancellation only makes the action inactive, and time only moves on.
  lemma QuietEffects(id: int, now: int, ops: seq<Op>, seconds: nat)
    ensures Run(id, now, []) == World(Action(Planned, true, None, [Record(id, now, None, Planned)]), now)
    ensures var w := Run(id, now, ops);
            && Run(id, now, ops + [Cancel]) == w.(action := w.action.(active := false))
            && Run(id, now, ops + [Tick(seconds)]) == w.(now := w.now + seconds)
  {
    assert (ops + [Cancel])[..|ops|] == ops && (ops + [Tick(seconds)])[..|ops|] == ops;
  }

  // `CheckinService.transition` on the locked row.
  class DailyAction {
    var status: Status
    var active: bool
    var completedAt: Option<int>
    var log: seq<Record>

    constructor (id: int, now: int)
      ensures Abstract() == Created(id, now)
    {
      status, active, completedAt := Planned, true, None;
      log := [Record(id, now, None, Planned)];
    }

    function Abstract(): Action
      reads this
    {
      Action(status, active, completedAt, log)
    }

    method Transition(wanted: Status, note: Option<nat>, archived: bool, id: int, now: int)
      returns (error: Option<Error>)
      modifies this
      ensures match Transitioned(old(Abstract()), wanted, note, archived, id, now)
              case Ok(after) => error.None? && Abstract() == after
              case Err(e) => error == Some(e) && Abstract() == old(Abstract())
    {
      var cleaned := ValidateTransition(status, wanted, active, note);
      if cleaned.Err? {
        return Some(cleaned.error);
      }
      if archived {
        return Some(GoalArchived);
      }
      log := log + [Record(id, now, Some(status), wanted)];
      status := wanted;
      if wanted == Completed {
        completedAt := Some(now);
      }
      return None;
    }
  }

  // ------------------------------------------------------------------ completion rate

  datatype Snapshot = Snapshot(date: int, createdAt: int, cancelledAt: Option<int>, checkins: seq<Record>)

  predicate Counted(s: Snapshot, first: int, last: int, asOf: int) {
    && first <= s.date <= last
    && s.createdAt <= asOf
    && !(s.cancelledAt.Some? && s.cancelledAt.value <= asOf)
  }

  function CountedAs(first: int, last: int, asOf: int, status: Status): Snapshot -> bool {
    (s: Snapshot) => Counted(s, first, last, asOf) && StatusAsOf(s.checkins, asOf) == status
  }

  function CountOf(snapshots: seq<Snapshot>, first: int, last: int, asOf: int, status: Status): nat {
    |Filter(snapshots, CountedAs(first, last, asOf, status))|
  }

  datatype CompletionRate =
    CompletionRate(rate: Option<nat>, completed: nat, planned: nat, started: nat, skipped: nat)
  {
    function Total(): nat { completed + planned + started + skipped }
  }

  // Nothing when nothing was scheduled; otherwise completed / total to four decimals, in ten-thousandths.
  function Rate(completed: nat, total: nat): (r: Option<nat>)
    requires completed <= total
    ensures r.None? <==> total == 0
    ensures r.Some? ==>
      && r.value <= 10000
      && 2 * (r.value * total) <= 2 * (10000 * completed) + total < 2 * (r.value * total) + 2 * total
  {
    if total == 0 then None
    else
      HalfUpAtMost(10000 * completed, total, 10000);
      Some(HalfUp(10000 * completed, total))
  }

  // A predicate that is exactly one of two others keeps as many as both together.
  lemma {:induction false} FilterSplits(s: seq<Snapshot>, whole: Snapshot -> bool, a: Snapshot -> bool,
                                        b: Snapshot -> bool)
    requires forall x :: whole(x) <==> a(x) || b(x)
    requires forall x :: !(a(x) && b(x))
    ensures |Filter(s, whole)| == |Filter(s, a)| + |Filter(s, b)|
  {
    if s != [] {
      FilterSplits(s[1..], whole, a, b);
    }
  }

  lemma {:induction false} FilterSize(s: seq<Snapshot>, keep: Snapshot -> bool, at: set<int>)
    requires forall i :: i in at <==> 0 <= i < |s| && keep(s[i])
    ensures |Filter(s, keep)| == |at|
    decreases |s|
  {
    if s == [] {
      forall i ensures i !in at {}
      assert at == {};
    } else {
      var last := |s| - 1;
      FilterConcat(s[..last], [s[last]], keep);
      assert s == s[..last] + [s[last]];
      if keep(s[last]) {
        FilterSize(s[..last], keep, at - {last});
        assert at == (at - {last}) + {last};
      } else {
        FilterSize(s[..last], keep, at);
      }
    }
  }

  // What is counted under a status: the actions dated in the period, created and not yet cancelled by then, whose last
  // visible record has it.
  lemma CountExactly(snapshots: seq<Snapshot>, first: int, last: int, asOf: int, status: Status, at: set<int>)
    requires forall i :: i in at <==>
               && 0 <= i < |snapshots| && first <= snapshots[i].date <= last && snapshots[i].createdAt <= asOf
               && (snapshots[i].cancelledAt.Some? ==> asOf < snapshots[i].cancelledAt.value)
               && StatusAsOf(snapshots[i].checkins, asOf) == status
    ensures CountOf(snapshots, first, last, asOf, status) == |at|
  {
    FilterSize(snapshots, CountedAs(first, last, asOf, status), at);
  }

  function SumOfDays(snapshots: seq<Snapshot>, first: int, last: int, asOf: int, status: Status): nat
    decreases last - first
  {
    if last < first then 0
    else SumOfDays(snapshots, first, last - 1, asOf, status) + CountOf(snapshots, last, last, asOf, status)
  }

  // The daily rates of a period count, between them, exactly what the rate of the whole period counts.
  lemma {:induction false} DaysAddUpToThePeriod(
    snapshots: seq<Snapshot>, first: int, last: int, asOf: int, status: Status)
    ensures CountOf(snapshots, first, last, asOf, status) == SumOfDays(snapshots, first, last, asOf, status)
    decreases last - first
  {
    if last < first {
      FilterNone(snapshots, CountedAs(first, last, asOf, status));
    } else {
      DaysAddUpToThePeriod(snapshots, first, last - 1, asOf, status);
      FilterSplits(snapshots, CountedAs(first, last, asOf, status), CountedAs(first, last - 1, asOf, status),
                   CountedAs(last, last, asOf, status));
    }
  }

  lemma CountNext(snapshots: seq<Snapshot>, s: Snapshot, first: int, last: int, asOf: int, status: Status)
    ensures CountOf(snapshots + [s], first, last, asOf, status)
         == CountOf(snapshots, first, last, asOf, status)
          + if CountedAs(first, last, asOf, status)(s) then 1 else 0
  {
    FilterConcat(snapshots, [s], CountedAs(first, last, asOf, status));
  }

  ghost predicate Tallied(counts: map<Status, nat>, snapshots: seq<Snapshot>, first: int, last: int, asOf: int) {
    && (forall status :: status in counts)
    && (forall status :: counts[status] == CountOf(snapshots, first, last, asOf, status))
  }

  lemma EmptyTally(counts: map<Status, nat>, first: int, last: int, asOf: int)
    requires counts == map[Planned := 0, Started := 0, Skipped := 0, Completed := 0]
    ensures Tallied(counts, [], first, last, asOf)
  {
    forall status ensures status in counts && counts[status] == 0 {
      assert status.Planned? || status.Started? || status.Skipped? || status.Completed?;
    }
  }

  lemma TallyNext(
    counts: map<Status, nat>, snapshots: seq<Snapshot>, s: Snapshot, first: int, last: int, asOf: int)
    requires Tallied(counts, snapshots, first, last, asOf)
    ensures var status := StatusAsOf(s.checkins, asOf);
            Tallied(if Counted(s, first, last, asOf) then counts[status := counts[status] + 1] else counts,
                    snapshots + [s], first, last, asOf)
  {
    forall status {
      CountNext(snapshots, s, first, last, asOf, status);
    }
  }

  // `compute`: every action of the period that existed and was not cancelled at `asOf` is counted once, under its
  // status then, and the rate is taken over those counts.
  method Compute(snapshots: seq<Snapshot>, first: int, last: int, asOf: int) returns (r: CompletionRate)
    ensures r.planned == CountOf(snapshots, first, last, asOf, Planned)
    ensures r.started == CountOf(snapshots, first, last, asOf, Started)
    ensures r.skipped == CountOf(snapshots, first, last, asOf, Skipped)
    ensures r.completed == CountOf(snapshots, first, last, asOf, Completed)
    ensures r.rate == Rate(r.completed, r.Total())
  {
    var counts: map<Status, nat> := map[Planned := 0, Started := 0, Skipped := 0, Completed := 0];
    EmptyTally(counts, first, last, asOf);
    for i := 0 to |snapshots|
      invariant Tallied(counts, snapshots[..i], first, last, asOf)
    {
      var s := snapshots[i];
      TallyNext(counts, snapshots[..i], s, first, last, asOf);
      assert snapshots[..i + 1] == snapshots[..i] + [s];
      if Counted(s, first, last, asOf) {
        var status := StatusAsOf(s.checkins, asOf);
        counts := counts[status := counts[status] + 1];
      }
    }
    assert snapshots[..|snapshots|] == snapshots;
    var total := counts[Planned] + counts[Started] + counts[Skipped] + counts[Completed];
    var rate := Rate(counts[Completed], total);
    r := CompletionRate(rate, counts[Completed], counts[Planned], counts[Started], counts[Skipped]);
  }
}
