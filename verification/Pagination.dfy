// Keyset pagination (backend/src/lifeos/domain/pagination.py): a listing ordered by (sort key, id) in either
// direction, read one page at a time while other writers change the table between pages.
module Pagination {
  import opened Prelude
  import Sorting

  const DEFAULT_LIMIT := 50
  const MAX_LIMIT := 200

  // What ordering looks at: the value of the sort column and the row's id.
  datatype Row = Row(key: int, id: int)

  // `next_cursor` carries the key and id of the last row shown.
  datatype Page = Page(items: seq<Row>, next: Option<Row>)

  datatype Error = InvalidLimit

  // `a` comes strictly earlier than `b` in the listing.
  predicate Before(a: Row, b: Row, descending: bool) {
    if descending then b.key < a.key || (b.key == a.key && b.id < a.id)
    else a.key < b.key || (a.key == b.key && a.id < b.id)
  }

  function Order(descending: bool): (Row, Row) -> bool {
    (a, b) => a == b || Before(a, b, descending)
  }

  // The WHERE clause: no clause for the first page, otherwise strictly after the cursor.
  function Following(cursor: Option<Row>, descending: bool): Row -> bool {
    row => cursor.None? || Before(cursor.value, row, descending)
  }

  function Take(s: seq<Row>, n: nat): seq<Row> {
    if |s| <= n then s else s[..n]
  }

  // WHERE … ORDER BY key, id LIMIT limit + 1, over rows stored in any order.
  function Fetch(table: seq<Row>, cursor: Option<Row>, limit: nat, descending: bool): seq<Row> {
    Take(Sorting.Sort(Filter(table, Following(cursor, descending)), Order(descending)), limit + 1)
  }

  function ToPage(rows: seq<Row>, limit: nat): Page
    requires limit >= 1
  {
    if |rows| <= limit then Page(rows, None) else Page(rows[..limit], Some(rows[limit - 1]))
  }

  function ClampLimit(limit: Option<int>): (r: Result<nat, Error>)
    ensures r.Ok? ==> 1 <= r.value <= MAX_LIMIT && (if limit.Some? then r.value == limit.value else r.value == 50)
    ensures r.Err? <==> limit.Some? && !(1 <= limit.value <= MAX_LIMIT)
  {
    match limit
    case None => Ok(DEFAULT_LIMIT)
    case Some(n) => if 1 <= n <= MAX_LIMIT then Ok(n) else Err(InvalidLimit)
  }

  // The table as it stood when a page was requested, and the limit asked for.
  datatype Request = Request(table: seq<Row>, limit: nat)

  // A client that follows `next_cursor` from the start until there is none.
  datatype Walk = Walk(shown: seq<Row>, next: Option<Row>, done: bool)

  ghost predicate Sound(requests: seq<Request>) {
    forall k :: 0 <= k < |requests| ==> requests[k].limit >= 1 && Distinct(requests[k].table)
  }

  function PageFor(walk: Walk, request: Request, descending: bool): Page
    requires request.limit >= 1
  {
    ToPage(Fetch(request.table, walk.next, request.limit, descending), request.limit)
  }

  function Asked(walk: Walk, request: Request, descending: bool): Walk
    requires request.limit >= 1
  {
    if walk.done then walk
    else
      var page := PageFor(walk, request, descending);
      Walk(walk.shown + page.items, page.next, page.next.None?)
  }

  // Page k is answered from `requests[k]`; a finished walk asks for nothing more.
  ghost function Follow(requests: seq<Request>, descending: bool): Walk
    requires Sound(requests)
  {
    if requests == [] then Walk([], None, false)
    else
      var last := |requests| - 1;
      Asked(Follow(requests[..last], descending), requests[last], descending)
  }

  ghost predicate StrictlyOrdered(s: seq<Row>, descending: bool) {
    forall i, j :: 0 <= i < j < |s| ==> Before(s[i], s[j], descending)
  }

  lemma OrderIsTotal(descending: bool)
    ensures Sorting.TotalPreorder(Order(descending)) && Sorting.Antisymmetric(Order(descending))
  {
  }

  // Sorting rows that are pairwise different puts them in strict order.
  lemma SortIsStrict(s: seq<Row>, descending: bool)
    requires forall x :: multiset(s)[x] <= 1
    ensures StrictlyOrdered(Sorting.Sort(s, Order(descending)), descending)
    ensures multiset(Sorting.Sort(s, Order(descending))) == multiset(s)
    ensures forall x :: x in Sorting.Sort(s, Order(descending)) <==> x in s
  {
    OrderIsTotal(descending);
    Sorting.SortCorrect(s, Order(descending));
    var t := Sorting.Sort(s, Order(descending));
    forall i, j | 0 <= i < j < |t| ensures Before(t[i], t[j], descending) {
      if t[i] == t[j] {
        RepeatCounts(t, i, j);
      }
    }
  }

  ghost function Remaining(table: seq<Row>, cursor: Option<Row>, descending: bool): seq<Row> {
    Sorting.Sort(Filter(table, Following(cursor, descending)), Order(descending))
  }

  lemma RemainingCorrect(table: seq<Row>, cursor: Option<Row>, descending: bool)
    requires Distinct(table)
    ensures StrictlyOrdered(Remaining(table, cursor, descending), descending)
    ensures forall x :: x in Remaining(table, cursor, descending) <==> x in table && Following(cursor, descending)(x)
    ensures multiset(Remaining(table, cursor, descending)) == multiset(Filter(table, Following(cursor, descending)))
  {
    var keep := Following(cursor, descending);
    FilterCounts(table, keep);
    forall x ensures multiset(Filter(table, keep))[x] <= 1 {
      DistinctCount(table, x);
    }
    SortIsStrict(Filter(table, keep), descending);
  }

  // A page is the next `limit` rows after the cursor; there is a further page exactly when rows are left over.
  lemma PageIsNextRows(table: seq<Row>, cursor: Option<Row>, limit: nat, descending: bool)
    requires limit >= 1
    ensures var rest := Remaining(table, cursor, descending);
            var page := ToPage(Fetch(table, cursor, limit, descending), limit);
            && page.items == Take(rest, limit)
            && page.next == if |rest| <= limit then None else Some(rest[limit - 1])
  {
  }

  predicate UpTo(next: Option<Row>, x: Row, descending: bool) {
    next.None? || Order(descending)(x, next.value)
  }

  lemma CutExact(rest: seq<Row>, limit: nat, descending: bool)
    requires StrictlyOrdered(rest, descending) && limit >= 1
    ensures var next := if |rest| <= limit then None else Some(rest[limit - 1]);
            && StrictlyOrdered(Take(rest, limit), descending)
            && (forall x :: x in Take(rest, limit) <==> x in rest && UpTo(next, x, descending))
  {
    var next := if |rest| <= limit then None else Some(rest[limit - 1]);
    forall x | x in Take(rest, limit) ensures x in rest && UpTo(next, x, descending) {
      var i :| 0 <= i < |Take(rest, limit)| && rest[i] == x;
    }
    forall x | x in rest && UpTo(next, x, descending) ensures x in Take(rest, limit) {
      var i :| 0 <= i < |rest| && rest[i] == x;
      assert i < limit;
      assert Take(rest, limit)[i] == x;
    }
  }

  // A page holds, in order, exactly the rows of its table after the cursor and up to the next one.
  lemma PageExact(table: seq<Row>, cursor: Option<Row>, limit: nat, descending: bool)
    requires limit >= 1 && Distinct(table)
    ensures var page := ToPage(Fetch(table, cursor, limit, descending), limit);
            && StrictlyOrdered(page.items, descending)
            && (forall x :: x in page.items <==>
                  x in table && Following(cursor, descending)(x) && UpTo(page.next, x, descending))
            && (page.next.Some? ==> page.items != [] && page.next.value == page.items[|page.items| - 1])
            && |page.items| <= limit && (page.next.Some? ==> |page.items| == limit)
            && (page.next.Some? <==> exists x :: x in table && Following(cursor, descending)(x) && x !in page.items)
  {
    PageIsNextRows(table, cursor, limit, descending);
    RemainingCorrect(table, cursor, descending);
    var rest := Remaining(table, cursor, descending);
    CutExact(rest, limit, descending);
    if |rest| > limit {
      assert rest[limit] in rest && rest[limit] !in Take(rest, limit) by {
        forall i | 0 <= i < limit ensures rest[i] != rest[limit] {
          assert Before(rest[i], rest[limit], descending);
        }
      }
    }
  }

  // What a walk has shown is in order, and its cursor is the last row shown.
  ghost predicate Orderly(walk: Walk, descending: bool) {
    && StrictlyOrdered(walk.shown, descending)
    && (walk.next.Some? ==> walk.shown != [] && walk.next.value == walk.shown[|walk.shown| - 1])
    && (walk.next.None? && !walk.done ==> walk.shown == [])
    && (walk.done ==> walk.next.None?)
  }

  lemma StrictConcat(a: seq<Row>, b: seq<Row>, descending: bool)
    requires StrictlyOrdered(a, descending) && StrictlyOrdered(b, descending)
    requires a != [] ==> forall j :: 0 <= j < |b| ==> Before(a[|a| - 1], b[j], descending)
    ensures StrictlyOrdered(a + b, descending)
  {
    forall i, j | 0 <= i < j < |a + b| ensures Before((a + b)[i], (a + b)[j], descending) {
      if i < |a| <= j {
        assert i == |a| - 1 || Before(a[i], a[|a| - 1], descending);
        assert Before(a[|a| - 1], b[j - |a|], descending);
      }
    }
  }

  // `after` shows, besides what `walk` showed, exactly the rows of the table between the two cursors.
  ghost predicate Extends(walk: Walk, after: Walk, table: seq<Row>, descending: bool) {
    forall x :: x in after.shown <==>
      x in walk.shown || (x in table && Following(walk.next, descending)(x) && UpTo(after.next, x, descending))
  }

  // One more page keeps the walk in order, moves its cursor strictly forward, and shows the rows in between.
  lemma AskedIsOrderly(walk: Walk, request: Request, descending: bool)
    requires Orderly(walk, descending) && !walk.done && request.limit >= 1 && Distinct(request.table)
    ensures var after := Asked(walk, request, descending);
            && Orderly(after, descending)
            && (after.next.Some? ==> Following(walk.next, descending)(after.next.value))
            && (after.done <==> after.next.None?)
            && Extends(walk, after, request.table, descending)
  {
    PageExact(request.table, walk.next, request.limit, descending);
    var page := PageFor(walk, request, descending);
    forall j | 0 <= j < |page.items| ensures Following(walk.next, descending)(page.items[j]) {
      assert page.items[j] in page.items;
    }
    StrictConcat(walk.shown, page.items, descending);
  }

  lemma {:induction false} WalkIsOrderly(requests: seq<Request>, descending: bool)
    requires Sound(requests)
    ensures Orderly(Follow(requests, descending), descending)
    ensures requests == [] <==> !Follow(requests, descending).done && Follow(requests, descending).next.None?
  {
    if requests != [] {
      var last := |requests| - 1;
      WalkIsOrderly(requests[..last], descending);
      if !Follow(requests[..last], descending).done {
        AskedIsOrderly(Follow(requests[..last], descending), requests[last], descending);
      }
    }
  }

  // The row, with this key, is in every table that was read.
  ghost predicate Throughout(x: Row, requests: seq<Request>) {
    forall k :: 0 <= k < |requests| ==> x in requests[k].table
  }

  ghost predicate WasThere(x: Row, requests: seq<Request>) {
    exists k :: 0 <= k < |requests| && x in requests[k].table
  }

  predicate Reached(x: Row, walk: Walk, descending: bool) {
    walk.done || (walk.next.Some? && Order(descending)(x, walk.next.value))
  }

  // Every row shown was there, and every row that was there throughout and lies before the cursor has been shown.
  ghost predicate Progress(requests: seq<Request>, walk: Walk, descending: bool) {
    && (forall x :: x in walk.shown ==> WasThere(x, requests))
    && (forall x :: Throughout(x, requests) && requests != [] && Reached(x, walk, descending) ==> x in walk.shown)
  }

  lemma StillThere(requests: seq<Request>, x: Row)
    requires requests != [] && WasThere(x, requests[..|requests| - 1])
    ensures WasThere(x, requests)
  {
    var k :| 0 <= k < |requests| - 1 && x in requests[..|requests| - 1][k].table;
    assert requests[k] == requests[..|requests| - 1][k];
  }

  lemma ExtendedProgress(requests: seq<Request>, walk: Walk, after: Walk, descending: bool)
    requires requests != [] && Progress(requests[..|requests| - 1], walk, descending) && !walk.done
    requires |requests| == 1 ==> walk.next.None?
    requires Extends(walk, after, requests[|requests| - 1].table, descending) && (after.done <==> after.next.None?)
    ensures Progress(requests, after, descending)
  {
    var last := |requests| - 1;
    forall x | x in after.shown ensures WasThere(x, requests) {
      if x in walk.shown {
        StillThere(requests, x);
      }
    }
    forall x | Throughout(x, requests) && Reached(x, after, descending) ensures x in after.shown {
      assert Throughout(x, requests[..last]) && x in requests[last].table;
    }
  }

  lemma DoneProgress(requests: seq<Request>, walk: Walk, descending: bool)
    requires |requests| > 1 && Progress(requests[..|requests| - 1], walk, descending) && walk.done
    ensures Progress(requests, walk, descending)
  {
    forall x | x in walk.shown ensures WasThere(x, requests) {
      StillThere(requests, x);
    }
    forall x | Throughout(x, requests) ensures x in walk.shown {
      assert Throughout(x, requests[..|requests| - 1]);
    }
  }

  lemma {:induction false} WalkProgresses(requests: seq<Request>, descending: bool)
    requires Sound(requests)
    ensures Progress(requests, Follow(requests, descending), descending)
  {
    if requests != [] {
      var last := |requests| - 1;
      var walk := Follow(requests[..last], descending);
      WalkProgresses(requests[..last], descending);
      WalkIsOrderly(requests[..last], descending);
      if walk.done {
        DoneProgress(requests, walk, descending);
      } else {
        AskedIsOrderly(walk, requests[last], descending);
        ExtendedProgress(requests, walk, Asked(walk, requests[last], descending), descending);
      }
    }
  }

  // While rows are inserted, deleted and re-keyed between pages, the walk's output stays strictly ordered (so no
  // row is shown twice), shows only rows that were really there, and, once it ends, shows every row that was
  // present with the same key at every page.
  lemma NothingMissedNothingTwice(requests: seq<Request>, descending: bool)
    requires Sound(requests)
    ensures var walk := Follow(requests, descending);
            && StrictlyOrdered(walk.shown, descending) && Distinct(walk.shown)
            && (forall i, j :: 0 <= i < j < |walk.shown| ==>
                  var a, b := walk.shown[i], walk.shown[j];
                  if descending then a.key > b.key || (a.key == b.key && a.id > b.id)
                  else a.key < b.key || (a.key == b.key && a.id < b.id))
            && (forall x :: x in walk.shown ==> WasThere(x, requests))
            && (walk.done ==> forall x :: Throughout(x, requests) ==> x in walk.shown)
  {
    WalkIsOrderly(requests, descending);
    WalkProgresses(requests, descending);
  }

  // Keys never change: the same id always comes with the same key.
  ghost predicate KeysFixed(requests: seq<Request>) {
    forall j, k, x, y ::
      (0 <= j < |requests| && 0 <= k < |requests| && x in requests[j].table && y in requests[k].table
       && x.id == y.id) ==> x == y
  }

  lemma {:induction false} FixedKeysShowEachIdOnce(requests: seq<Request>, descending: bool)
    requires Sound(requests) && KeysFixed(requests)
    ensures var shown := Follow(requests, descending).shown;
            forall i, j :: 0 <= i < j < |shown| ==> shown[i].id != shown[j].id
  {
    WalkIsOrderly(requests, descending);
    WalkProgresses(requests, descending);
    var shown := Follow(requests, descending).shown;
    forall i, j | 0 <= i < j < |shown| ensures shown[i].id != shown[j].id {
      assert Before(shown[i], shown[j], descending);
      assert shown[i] in shown && shown[j] in shown;
      var k :| 0 <= k < |requests| && shown[i] in requests[k].table;
      var l :| 0 <= l < |requests| && shown[j] in requests[l].table;
    }
  }

  function Arranged(a: Row, b: Row, keep: Row -> bool, leq: (Row, Row) -> bool): seq<Row> {
    if keep(a) && keep(b) then if leq(a, b) then [a, b] else [b, a]
    else if keep(a) then [a]
    else if keep(b) then [b]
    else []
  }

  lemma FetchFromTwo(a: Row, b: Row, cursor: Option<Row>, limit: nat, descending: bool)
    ensures Fetch([a, b], cursor, limit, descending)
         == Take(Arranged(a, b, Following(cursor, descending), Order(descending)), limit + 1)
  {
    var keep, leq := Following(cursor, descending), Order(descending);
    assert [a, b][1..] == [b] && [b][1..] == [];
    assert Filter([b], keep) == if keep(b) then [b] else [];
    assert Sorting.Sort([b], leq) == [b] by {
      assert Sorting.Sort([b][1..], leq) == [];
    }
    assert Sorting.Sort([a], leq) == [a] by {
      assert Sorting.Sort([a][1..], leq) == [];
    }
    assert Sorting.Insert(a, [b], leq) == if leq(a, b) then [a, b] else [b, a];
  }

  lemma MissedRow()
    ensures var before, after := [Row(1, 1), Row(2, 2)], [Row(1, 1), Row(0, 2)];
            var walk := Follow([Request(before, 1), Request(after, 1)], false);
            walk.done && walk.shown == [Row(1, 1)]
  {
    var before, after := [Row(1, 1), Row(2, 2)], [Row(1, 1), Row(0, 2)];
    TwoPages(Request(before, 1), Request(after, 1));
    FetchFromTwo(Row(1, 1), Row(2, 2), None, 1, false);
    FetchFromTwo(Row(1, 1), Row(0, 2), Some(Row(1, 1)), 1, false);
  }

  lemma RepeatedRow()
    ensures var before, after := [Row(1, 1), Row(2, 2)], [Row(5, 1), Row(2, 2)];
            var walk := Follow([Request(before, 1), Request(after, 2)], false);
            walk.done && walk.shown == [Row(1, 1), Row(2, 2), Row(5, 1)]
  {
    var before, after := [Row(1, 1), Row(2, 2)], [Row(5, 1), Row(2, 2)];
    TwoPages(Request(before, 1), Request(after, 2));
    FetchFromTwo(Row(1, 1), Row(2, 2), None, 1, false);
    FetchFromTwo(Row(5, 1), Row(2, 2), Some(Row(1, 1)), 2, false);
  }

  lemma TwoPages(a: Request, b: Request)
    requires Sound([a, b]) && Sound([a]) && a.limit >= 1 && b.limit >= 1
    ensures Follow([a, b], false) == Asked(Asked(Walk([], None, false), a, false), b, false)
  {
    assert [a, b][..1] == [a] && [a][..0] == [];
    assert Follow([a], false) == Asked(Walk([], None, false), a, false);
  }

  // ------------------------------------------------------------------ keys that move between pages

  // `id` is the table's primary key.
  ghost predicate IdsUnique(requests: seq<Request>) {
    forall k, x, y ::
      (0 <= k < |requests| && x in requests[k].table && y in requests[k].table && x.id == y.id) ==> x == y
  }

  function WithId(id: int): Row -> bool {
    (r: Row) => r.id == id
  }

  function Times(shown: seq<Row>, id: int): nat {
    |Filter(shown, WithId(id))|
  }

  lemma {:induction false} TimesOnPage(items: seq<Row>, x: Row, descending: bool)
    requires StrictlyOrdered(items, descending)
    requires forall y :: y in items && y.id == x.id ==> y == x
    ensures Times(items, x.id) == if x in items then 1 else 0
  {
    if items != [] {
      TimesOnPage(items[1..], x, descending);
      assert forall i :: 1 <= i < |items| ==> items[i] == items[1..][i - 1] && Before(items[0], items[i], descending);
    }
  }

  // The page asked for from `walk`, leading to `after`, is the one that shows `x`.
  predicate Catches(walk: Walk, after: Walk, x: Row, descending: bool) {
    !walk.done && Following(walk.next, descending)(x) && UpTo(after.next, x, descending)
  }

  // How many pages show the row, when it is `rows(k)` in the k-th table.
  ghost function Caught(requests: seq<Request>, rows: nat -> Row, descending: bool): nat
    requires Sound(requests)
  {
    if requests == [] then 0
    else
      var last := |requests| - 1;
      Caught(requests[..last], rows, descending)
      + if Catches(Follow(requests[..last], descending), Follow(requests, descending), rows(last), descending)
        then 1 else 0
  }

  // The key of a row may move any number of times: the row is shown once for every page whose stretch of the order
  // it stands in at that moment.
  lemma {:induction false} ShownOncePerCatch(requests: seq<Request>, rows: nat -> Row, id: int, descending: bool)
    requires Sound(requests) && IdsUnique(requests)
    requires forall k :: 0 <= k < |requests| ==> rows(k) in requests[k].table && rows(k).id == id
    ensures Times(Follow(requests, descending).shown, id) == Caught(requests, rows, descending)
  {
    if requests != [] {
      var last := |requests| - 1;
      var walk := Follow(requests[..last], descending);
      ShownOncePerCatch(requests[..last], rows, id, descending);
      if !walk.done {
        var page := PageFor(walk, requests[last], descending);
        PageExact(requests[last].table, walk.next, requests[last].limit, descending);
        TimesOnPage(page.items, rows(last), descending);
        FilterConcat(walk.shown, page.items, WithId(id));
      }
    }
  }

  // Once the cursor has passed a row's place, it has passed it for good.
  lemma ReachedStays(walk: Walk, request: Request, x: Row, descending: bool)
    requires Orderly(walk, descending) && request.limit >= 1 && Distinct(request.table)
    ensures Reached(x, walk, descending) ==> Reached(x, Asked(walk, request, descending), descending)
    ensures !walk.done ==>
      (Catches(walk, Asked(walk, request, descending), x, descending)
       <==> !Reached(x, walk, descending) && Reached(x, Asked(walk, request, descending), descending))
  {
    if !walk.done {
      AskedIsOrderly(walk, request, descending);
    }
  }

  // While a row's key stays put from page m on, the pages from there show it once if they pass it, else never.
  lemma {:induction false} CaughtWhilePut(requests: seq<Request>, m: nat, rows: nat -> Row, x: Row, descending: bool)
    requires Sound(requests) && m <= |requests| && forall k :: m <= k < |requests| ==> rows(k) == x
    ensures var start, end := Follow(requests[..m], descending), Follow(requests, descending);
            && (Reached(x, start, descending) ==> Reached(x, end, descending))
            && Caught(requests, rows, descending) == Caught(requests[..m], rows, descending)
                 + if !Reached(x, start, descending) && Reached(x, end, descending) then 1 else 0
  {
    if m == |requests| {
      assert requests[..m] == requests;
    } else {
      var last := |requests| - 1;
      assert requests[..last][..m] == requests[..m];
      CaughtWhilePut(requests[..last], m, rows, x, descending);
      CaughtNext(requests, rows, descending);
    }
  }

  // The last page shows the row when it is the one that passes it.
  lemma CaughtNext(requests: seq<Request>, rows: nat -> Row, descending: bool)
    requires Sound(requests) && requests != []
    ensures var last := |requests| - 1;
            var walk, after := Follow(requests[..last], descending), Follow(requests, descending);
            && (Reached(rows(last), walk, descending) ==> Reached(rows(last), after, descending))
            && Caught(requests, rows, descending) == Caught(requests[..last], rows, descending)
                 + if !Reached(rows(last), walk, descending) && Reached(rows(last), after, descending) then 1 else 0
  {
    var last := |requests| - 1;
    WalkIsOrderly(requests[..last], descending);
    ReachedStays(Follow(requests[..last], descending), requests[last], rows(last), descending);
  }

  lemma PutFromTheStart(requests: seq<Request>, rows: nat -> Row, x: Row, descending: bool)
    requires Sound(requests) && forall k :: 0 <= k < |requests| ==> rows(k) == x
    ensures Caught(requests, rows, descending) == if Reached(x, Follow(requests, descending), descending) then 1 else 0
  {
    assert requests[..0] == [];
    CaughtWhilePut(requests, 0, rows, x, descending);
  }

  lemma MovedKeyCaught(requests: seq<Request>, m: nat, a: Row, b: Row, descending: bool)
    requires Sound(requests) && IdsUnique(requests) && 0 < m <= |requests| && a.id == b.id
    requires forall k :: 0 <= k < m ==> a in requests[k].table
    requires forall k :: m <= k < |requests| ==> b in requests[k].table
    requires Follow(requests, descending).done
    ensures Times(Follow(requests, descending).shown, a.id)
         == (if Reached(a, Follow(requests[..m], descending), descending) then 1 else 0)
          + (if Reached(b, Follow(requests[..m], descending), descending) then 0 else 1)
  {
    var rows := (k: nat) => if k < m then a else b;
    ShownOncePerCatch(requests, rows, a.id, descending);
    CaughtWhilePut(requests, m, rows, b, descending);
    PutFromTheStart(requests[..m], rows, a, descending);
  }

  // When the key of one row moves from that of `a` to that of `b` before page m, a finished walk shows the row once
  // for each of these that holds: its old place was not beyond the cursor of that moment, its new place is. So it is
  // missed exactly when it moves back over the cursor, shown twice exactly when it moves forward over it, and shown
  // once otherwise.
  lemma MovedKeyShownExactly(requests: seq<Request>, m: nat, a: Row, b: Row, descending: bool)
    requires Sound(requests) && IdsUnique(requests) && 0 < m <= |requests| && a.id == b.id
    requires forall k :: 0 <= k < m ==> a in requests[k].table
    requires forall k :: m <= k < |requests| ==> b in requests[k].table
    requires !Follow(requests[..m], descending).done && Follow(requests, descending).done
    ensures Follow(requests[..m], descending).next.Some?
    ensures var c := Follow(requests[..m], descending).next.value;
            var times := Times(Follow(requests, descending).shown, a.id);
            && (times == 0 <==> Before(c, a, descending) && !Before(c, b, descending))
            && (times == 2 <==> !Before(c, a, descending) && Before(c, b, descending))
            && times <= 2
  {
    MovedKeyCaught(requests, m, a, b, descending);
    WalkIsOrderly(requests[..m], descending);
  }

  ghost function Limits(requests: seq<Request>): nat {
    if requests == [] then 0 else Limits(requests[..|requests| - 1]) + requests[|requests| - 1].limit
  }

  ghost predicate Unchanged(requests: seq<Request>, table: seq<Row>) {
    forall k :: 0 <= k < |requests| ==> requests[k].table == table
  }

  lemma CursorSplits(sorted: seq<Row>, m: nat, descending: bool)
    requires StrictlyOrdered(sorted, descending) && 0 < m <= |sorted|
    ensures forall i :: 0 <= i < |sorted| ==> (Before(sorted[m - 1], sorted[i], descending) <==> i >= m)
  {
    forall i | 0 <= i < m ensures !Before(sorted[m - 1], sorted[i], descending) {
      assert i == m - 1 || Before(sorted[i], sorted[m - 1], descending);
    }
  }

  lemma {:induction false} CursorCutsSorted(sorted: seq<Row>, m: nat, descending: bool)
    requires StrictlyOrdered(sorted, descending) && m <= |sorted|
    ensures Filter(sorted, Following(if m == 0 then None else Some(sorted[m - 1]), descending)) == sorted[m..]
  {
    var keep := Following(if m == 0 then None else Some(sorted[m - 1]), descending);
    if m > 0 {
      CursorSplits(sorted, m, descending);
    }
    FilterCut(sorted, m, keep);
  }

  lemma {:induction false} FilterCut(s: seq<Row>, m: nat, keep: Row -> bool)
    requires m <= |s| && forall i :: 0 <= i < |s| ==> (keep(s[i]) <==> i >= m)
    ensures Filter(s, keep) == s[m..]
  {
    FilterNone(s[..m], keep);
    FilterAll(s[m..], keep);
    FilterConcat(s[..m], s[m..], keep);
    assert s == s[..m] + s[m..];
  }

  // The rows after position m - 1 of the sorted table are what a cursor on that position selects.
  lemma RemainingIsSuffix(table: seq<Row>, m: nat, descending: bool)
    requires Distinct(table)
    requires m <= |Sorting.Sort(table, Order(descending))|
    ensures var sorted := Sorting.Sort(table, Order(descending));
            Remaining(table, if m == 0 then None else Some(sorted[m - 1]), descending) == sorted[m..]
  {
    var sorted := Sorting.Sort(table, Order(descending));
    var cursor := if m == 0 then None else Some(sorted[m - 1]);
    forall x ensures multiset(table)[x] <= 1 {
      DistinctCount(table, x);
    }
    SortIsStrict(table, descending);
    CursorCutsSorted(sorted, m, descending);
    RemainingCorrect(table, cursor, descending);
    SameRowsSameFilter(sorted, table, Following(cursor, descending));
    OrderIsTotal(descending);
    Sorting.SortedUnique(Remaining(table, cursor, descending), sorted[m..], Order(descending));
  }

  lemma SameRowsSameFilter(a: seq<Row>, b: seq<Row>, keep: Row -> bool)
    requires multiset(a) == multiset(b)
    ensures multiset(Filter(a, keep)) == multiset(Filter(b, keep))
  {
    FilterCounts(a, keep);
    FilterCounts(b, keep);
  }

  // What the walk looks like once `m` rows' worth of limits have been asked for.
  ghost predicate ShowsFirst(walk: Walk, sorted: seq<Row>, m: nat, started: bool) {
    && walk.shown == Take(sorted, m)
    && (walk.done <==> started && m >= |sorted|)
    && (!walk.done ==> walk.next == if started && 1 <= m <= |sorted| then Some(sorted[m - 1]) else None)
  }

  lemma NextPageShowsFirst(walk: Walk, request: Request, sorted: seq<Row>, m: nat, started: bool, descending: bool)
    requires Distinct(request.table) && request.limit >= 1 && (started <==> m > 0)
    requires sorted == Sorting.Sort(request.table, Order(descending)) && ShowsFirst(walk, sorted, m, started)
    ensures ShowsFirst(Asked(walk, request, descending), sorted, m + request.limit, true)
  {
    if !walk.done {
      RemainingIsSuffix(request.table, m, descending);
      PageIsNextRows(request.table, walk.next, request.limit, descending);
      CutShowsFirst(walk, PageFor(walk, request, descending), sorted, m, request.limit, started);
    }
  }

  lemma CutShowsFirst(walk: Walk, page: Page, sorted: seq<Row>, m: nat, limit: nat, started: bool)
    requires ShowsFirst(walk, sorted, m, started) && !walk.done && m <= |sorted| && limit >= 1
    requires page.items == Take(sorted[m..], limit)
    requires page.next == if |sorted| - m <= limit then None else Some(sorted[m..][limit - 1])
    ensures ShowsFirst(Walk(walk.shown + page.items, page.next, page.next.None?), sorted, m + limit, true)
  {
    assert Take(sorted, m) == sorted[..m];
    if |sorted| - m <= limit {
      assert sorted[..m] + sorted[m..] == sorted;
    } else {
      assert sorted[..m] + sorted[m..][..limit] == sorted[..m + limit];
    }
  }

  lemma LastPageShowsFirst(requests: seq<Request>, sorted: seq<Row>, descending: bool)
    requires Sound(requests) && requests != []
    requires sorted == Sorting.Sort(requests[|requests| - 1].table, Order(descending))
    requires var before := requests[..|requests| - 1];
             && ShowsFirst(Follow(before, descending), sorted, Limits(before), before != [])
             && (before != [] ==> Limits(before) > 0)
    ensures ShowsFirst(Follow(requests, descending), sorted, Limits(requests), true)
  {
    var before := requests[..|requests| - 1];
    NextPageShowsFirst(Follow(before, descending), requests[|requests| - 1], sorted, Limits(before), before != [],
                       descending);
  }

  // On a table that does not change, n pages show exactly the first rows of the fully sorted listing, and the walk
  // has ended exactly when the limits asked for add up to the whole table.
  lemma {:induction false} WalkIsTheSortedListing(
    requests: seq<Request>, table: seq<Row>, sorted: seq<Row>, descending: bool)
    requires Sound(requests) && Unchanged(requests, table) && Distinct(table)
    requires sorted == Sorting.Sort(table, Order(descending))
    ensures ShowsFirst(Follow(requests, descending), sorted, Limits(requests), requests != [])
    ensures requests != [] ==> Limits(requests) > 0
  {
    if requests != [] {
      WalkIsTheSortedListing(requests[..|requests| - 1], table, sorted, descending);
      LastPageShowsFirst(requests, sorted, descending);
    }
  }

  // Following `next_cursor` over an unchanging table, with the same limit throughout, ends after
  // max(1, ceil(rows / limit)) pages with the whole table in order.
  lemma {:induction false} EveryLimitListsEverything(table: seq<Row>, limit: nat, pages: nat, descending: bool)
    requires Distinct(table) && limit >= 1
    ensures var requests := seq(pages, _ => Request(table, limit));
            && Sound(requests)
            && (Follow(requests, descending).done <==> pages >= 1 && pages * limit >= |table|)
            && (Follow(requests, descending).done ==>
                  Follow(requests, descending).shown == Sorting.Sort(table, Order(descending)))
  {
    var requests := seq(pages, _ => Request(table, limit));
    LimitsOfCopies(requests, limit);
    WalkIsTheSortedListing(requests, table, Sorting.Sort(table, Order(descending)), descending);
    OrderIsTotal(descending);
    Sorting.SortCorrect(table, Order(descending));
  }

  lemma {:induction false} LimitsOfCopies(requests: seq<Request>, limit: nat)
    requires forall k :: 0 <= k < |requests| ==> requests[k].limit == limit
    ensures Limits(requests) == |requests| * limit
  {
    if requests != [] {
      LimitsOfCopies(requests[..|requests| - 1], limit);
      assert |requests| * limit == (|requests| - 1) * limit + limit;
    }
  }
}
