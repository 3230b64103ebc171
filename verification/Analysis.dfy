// Conflicts, merged busy time, gaps and overloaded windows of one local day
// (backend/src/lifeos/domain/schedule/analysis.py). Instants are seconds.
// Blocks are never empty: daily_actions carries CHECK (scheduled_end > scheduled_start).
module Analysis {
  import opened Prelude
  import opened Sorting

  const MINUTE := 60
  const WINDOW := 3 * 60 * MINUTE
  const MIN_GAP := 10 * MINUTE

  datatype Block = Block(id: int, start: int, end: int)

  predicate NonEmpty(blocks: seq<Block>) {
    forall b | b in blocks :: b.start < b.end
  }

  predicate Overlap(a: Block, b: Block) { a.start < b.end && b.start < a.end }

  predicate ByStartEndId(a: Block, b: Block) {
    a.start < b.start || (a.start == b.start && (a.end < b.end || (a.end == b.end && a.id <= b.id)))
  }

  predicate ByStartEnd(a: Block, b: Block) { a.start < b.start || (a.start == b.start && a.end <= b.end) }

  predicate ByStart(a: Block, b: Block) { a.start <= b.start }

  // ---------------------------------------------------------------- conflicts

  // Every pair of positions is looked at: no early exit.
  function OverlapsWith(b: Block, rest: seq<Block>): seq<(Block, Block)> {
    if rest == [] then []
    else (if Overlap(b, rest[0]) then [(b, rest[0])] else []) + OverlapsWith(b, rest[1..])
  }

  function AllOverlaps(ordered: seq<Block>): seq<(Block, Block)> {
    if ordered == [] then [] else OverlapsWith(ordered[0], ordered[1..]) + AllOverlaps(ordered[1..])
  }

  lemma {:induction false} OverlapsWithSnoc(b: Block, rest: seq<Block>, c: Block)
    ensures OverlapsWith(b, rest + [c]) == OverlapsWith(b, rest) + if Overlap(b, c) then [(b, c)] else []
  {
    if rest == [] {
      assert OverlapsWith(b, [c][1..]) == [];
    } else {
      OverlapsWithSnoc(b, rest[1..], c);
      assert (rest + [c])[1..] == rest[1..] + [c];
    }
  }

  lemma {:induction false} NoOverlapsWith(b: Block, rest: seq<Block>)
    requires forall c :: c in rest ==> !Overlap(b, c)
    ensures OverlapsWith(b, rest) == []
  {
    if rest != [] {
      NoOverlapsWith(b, rest[1..]);
    }
  }

  lemma {:induction false} OverlapsWithAppend(b: Block, left: seq<Block>, right: seq<Block>)
    ensures OverlapsWith(b, left + right) == OverlapsWith(b, left) + OverlapsWith(b, right)
  {
    if left == [] {
      assert left + right == right;
    } else {
      OverlapsWithAppend(b, left[1..], right);
      assert (left + right)[1..] == left[1..] + right;
    }
  }

  ghost predicate InStartOrder(ordered: seq<Block>) {
    && (forall i :: 0 <= i < |ordered| ==> ordered[i].start < ordered[i].end)
    && (forall i, j :: 0 <= i < j < |ordered| ==> ordered[i].start <= ordered[j].start)
  }

  // What `sorted` promises about the order the loops walk in.
  lemma SortedBlocks(blocks: seq<Block>, leq: (Block, Block) -> bool)
    requires NonEmpty(blocks) && leq in {ByStartEndId, ByStartEnd, ByStart}
    ensures InStartOrder(Sort(blocks, leq))
    ensures forall b :: b in Sort(blocks, leq) <==> b in blocks
  {
    assert TotalPreorder(leq);
    SortCorrect(blocks, leq);
    var ordered := Sort(blocks, leq);
    forall i | 0 <= i < |ordered| ensures ordered[i].start < ordered[i].end {
      assert ordered[i] in blocks;
    }
  }

  method Conflicts(blocks: seq<Block>) returns (found: seq<(Block, Block)>)
    requires NonEmpty(blocks)
    ensures found == AllOverlaps(Sort(blocks, ByStartEndId))
  {
    var ordered := Sort(blocks, ByStartEndId);
    SortedBlocks(blocks, ByStartEndId);
    found := [];
    for index := 0 to |ordered|
      invariant found + AllOverlaps(ordered[index..]) == AllOverlaps(ordered)
    {
      assert ordered[index..][1..] == ordered[index + 1..];
      found := ConflictsOf(ordered[index], ordered[index + 1..], found);
    }
  }

  // The inner loop, stopping at the first later block that starts after `block` has ended.
  method ConflictsOf(block: Block, rest: seq<Block>, before: seq<(Block, Block)>) returns (found: seq<(Block, Block)>)
    requires forall i :: 0 <= i < |rest| ==> rest[i].start < rest[i].end && block.start <= rest[i].start
    requires forall i, j :: 0 <= i < j < |rest| ==> rest[i].start <= rest[j].start
    ensures found == before + OverlapsWith(block, rest)
  {
    found := before;
    for k := 0 to |rest|
      invariant found == before + OverlapsWith(block, rest[..k])
    {
      if rest[k].start >= block.end {
        LaterBlocksStartLater(block, rest, k);
        OverlapsWithAppend(block, rest[..k], rest[k..]);
        assert rest == rest[..k] + rest[k..];
        return;
      }
      OverlapsWithSnoc(block, rest[..k], rest[k]);
      assert rest[..k + 1] == rest[..k] + [rest[k]];
      found := found + [(block, rest[k])];
    }
    assert rest[..|rest|] == rest;
  }

  // Why the early break loses nothing.
  lemma LaterBlocksStartLater(block: Block, rest: seq<Block>, k: nat)
    requires k < |rest| && rest[k].start >= block.end
    requires forall i, j :: 0 <= i < j < |rest| ==> rest[i].start <= rest[j].start
    ensures OverlapsWith(block, rest[k..]) == []
  {
    forall c | c in rest[k..] ensures !Overlap(block, c) {
      var j :| k <= j < |rest| && rest[j] == c;
    }
    NoOverlapsWith(block, rest[k..]);
  }

  lemma {:induction false} CountWith(b: Block, rest: seq<Block>, x: Block, y: Block)
    requires Distinct(rest) && b !in rest
    ensures multiset(OverlapsWith(b, rest))[(x, y)] == if x == b && y in rest && Overlap(x, y) then 1 else 0
  {
    if rest != [] {
      CountWith(b, rest[1..], x, y);
      assert rest == [rest[0]] + rest[1..];
    }
  }

  lemma {:induction false} CountPairs(ordered: seq<Block>, x: Block, y: Block)
    requires Distinct(ordered) && x in ordered && y in ordered
    ensures multiset(AllOverlaps(ordered))[(x, y)] + multiset(AllOverlaps(ordered))[(y, x)]
         == if x != y && Overlap(x, y) then 1 else 0
  {
    var head, rest := ordered[0], ordered[1..];
    assert ordered == [head] + rest;
    CountWith(head, rest, x, y);
    CountWith(head, rest, y, x);
    if x in rest && y in rest {
      CountPairs(rest, x, y);
    } else {
      NotCounted(rest, x, y);
      NotCounted(rest, y, x);
    }
  }

  lemma {:induction false} NotCounted(ordered: seq<Block>, x: Block, y: Block)
    requires Distinct(ordered) && (x !in ordered || y !in ordered)
    ensures multiset(AllOverlaps(ordered))[(x, y)] == 0
  {
    if ordered != [] {
      assert ordered == [ordered[0]] + ordered[1..];
      CountWith(ordered[0], ordered[1..], x, y);
      NotCounted(ordered[1..], x, y);
    }
  }

  // Each unordered overlapping pair of blocks is listed exactly once, in one order or the other, and no
  // other pair is listed.
  lemma ConflictsListEachPairOnce(blocks: seq<Block>, x: Block, y: Block)
    requires Distinct(blocks) && x in blocks && y in blocks
    ensures var found := multiset(AllOverlaps(Sort(blocks, ByStartEndId)));
            found[(x, y)] + found[(y, x)] == if x != y && Overlap(x, y) then 1 else 0
  {
    var ordered := Sort(blocks, ByStartEndId);
    SortCorrect(blocks, ByStartEndId);
    DistinctPermutation(blocks, ordered);
    CountPairs(ordered, x, y);
  }

  // ---------------------------------------------------------------- busy time

  datatype Span = Span(start: int, end: int)

  predicate Covers(s: Span, t: int) { s.start <= t < s.end }

  ghost predicate InSpans(spans: seq<Span>, t: int) {
    exists i :: 0 <= i < |spans| && Covers(spans[i], t)
  }

  ghost predicate Busy(blocks: seq<Block>, t: int) {
    exists b :: b in blocks && b.start <= t < b.end
  }

  // Non-empty spans in order, with free time between neighbours.
  ghost predicate Separated(spans: seq<Span>) {
    && (forall i :: 0 <= i < |spans| ==> spans[i].start < spans[i].end)
    && (forall i, j :: 0 <= i < j < |spans| ==> spans[i].end < spans[j].start)
  }

  ghost predicate StartsBlock(blocks: seq<Block>, t: int) {
    exists b :: b in blocks && b.start == t
  }

  ghost predicate Merges(spans: seq<Span>, blocks: seq<Block>) {
    && Separated(spans)
    && (forall t :: InSpans(spans, t) <==> Busy(blocks, t))
    && (forall i :: 0 <= i < |spans| ==> StartsBlock(blocks, spans[i].start))
  }

  method Merge(blocks: seq<Block>) returns (merged: seq<Span>)
    requires NonEmpty(blocks)
    ensures Merges(merged, blocks)
  {
    var ordered := Sort(blocks, ByStartEnd);
    SortedBlocks(blocks, ByStartEnd);
    merged := [];
    for k := 0 to |ordered|
      invariant Merges(merged, ordered[..k])
      invariant k < |ordered| && merged != [] ==> merged[|merged| - 1].start <= ordered[k].start
    {
      var block := ordered[k];
      assert ordered[..k + 1] == ordered[..k] + [block];
      ghost var before := merged;
      if merged != [] && block.start <= merged[|merged| - 1].end {
        var last := merged[|merged| - 1];
        merged := merged[..|merged| - 1] + [Span(last.start, Max(last.end, block.end))];
        ExtendLast(before, ordered[..k], block, merged);
      } else {
        merged := merged + [Span(block.start, block.end)];
        AppendSpan(before, ordered[..k], block, merged);
      }
    }
    assert ordered[..|ordered|] == ordered;
    SameBlocksMerge(merged, ordered, blocks);
  }

  lemma SameBlocksMerge(spans: seq<Span>, a: seq<Block>, b: seq<Block>)
    requires Merges(spans, a) && forall c :: c in a <==> c in b
    ensures Merges(spans, b)
  {
    assert forall t :: Busy(a, t) <==> Busy(b, t);
    assert forall t :: StartsBlock(a, t) ==> StartsBlock(b, t);
  }

  lemma BusySnoc(blocks: seq<Block>, b: Block, t: int)
    ensures Busy(blocks + [b], t) <==> Busy(blocks, t) || b.start <= t < b.end
  {
    assert b in blocks + [b];
  }

  lemma StartsSnoc(blocks: seq<Block>, b: Block)
    ensures forall t :: StartsBlock(blocks, t) ==> StartsBlock(blocks + [b], t)
    ensures StartsBlock(blocks + [b], b.start)
  {
    assert b in blocks + [b];
    assert forall c :: c in blocks ==> c in blocks + [b];
  }

  lemma ExtendLast(spans: seq<Span>, blocks: seq<Block>, b: Block, longer: seq<Span>)
    requires Merges(spans, blocks) && spans != [] && b.start < b.end
    requires spans[|spans| - 1].start <= b.start <= spans[|spans| - 1].end
    requires var last := spans[|spans| - 1];
             longer == spans[..|spans| - 1] + [Span(last.start, Max(last.end, b.end))]
    ensures Merges(longer, blocks + [b])
  {
    var n := |spans| - 1;
    forall t ensures InSpans(longer, t) <==> Busy(blocks + [b], t) {
      BusySnoc(blocks, b, t);
      if InSpans(spans, t) {
        var i :| 0 <= i < |spans| && Covers(spans[i], t);
        assert Covers(longer[i], t);
      }
      if b.start <= t < b.end {
        assert Covers(longer[n], t);
      }
      if InSpans(longer, t) {
        var i :| 0 <= i < |longer| && Covers(longer[i], t);
        assert Covers(spans[i], t) || b.start <= t < b.end;
      }
    }
    StartsSnoc(blocks, b);
  }

  lemma AppendSpan(spans: seq<Span>, blocks: seq<Block>, b: Block, longer: seq<Span>)
    requires Merges(spans, blocks) && b.start < b.end
    requires spans != [] ==> spans[|spans| - 1].end < b.start
    requires longer == spans + [Span(b.start, b.end)]
    ensures Merges(longer, blocks + [b])
  {
    assert forall i :: 0 <= i < |spans| - 1 ==> spans[i].end < spans[|spans| - 1].start;
    forall t ensures InSpans(longer, t) <==> Busy(blocks + [b], t) {
      BusySnoc(blocks, b, t);
      if InSpans(spans, t) {
        var i :| 0 <= i < |spans| && Covers(spans[i], t);
        assert Covers(longer[i], t);
      }
      if b.start <= t < b.end {
        assert Covers(longer[|spans|], t);
      }
      if InSpans(longer, t) {
        var i :| 0 <= i < |longer| && Covers(longer[i], t);
        assert i < |spans| ==> Covers(spans[i], t);
      }
    }
    StartsSnoc(blocks, b);
  }

  function Total(spans: seq<Span>): int {
    if spans == [] then 0 else Total(spans[..|spans| - 1]) + spans[|spans| - 1].end - spans[|spans| - 1].start
  }

  // Every instant some block covers.
  function Covered(blocks: seq<Block>): set<int> {
    if blocks == [] then {} else Covered(blocks[1..]) + Range(blocks[0].start, blocks[0].end)
  }

  function Lengths(blocks: seq<Block>): int {
    if blocks == [] then 0 else Lengths(blocks[1..]) + blocks[0].end - blocks[0].start
  }

  lemma {:induction false} CoveredIsBusy(blocks: seq<Block>, t: int)
    ensures t in Covered(blocks) <==> Busy(blocks, t)
  {
    if blocks != [] {
      CoveredIsBusy(blocks[1..], t);
      assert blocks == [blocks[0]] + blocks[1..];
    }
  }

  lemma SplitLastSpan(spans: seq<Span>, t: int)
    requires Separated(spans) && spans != []
    ensures var last := spans[|spans| - 1];
            && (Covers(last, t) ==> InSpans(spans, t))
            && (InSpans(spans[..|spans| - 1], t) <==> InSpans(spans, t) && !Covers(last, t))
  {
    var init, last := spans[..|spans| - 1], spans[|spans| - 1];
    if InSpans(init, t) {
      var i :| 0 <= i < |init| && Covers(init[i], t);
      assert Covers(spans[i], t) && spans[i].end < last.start;
    }
    if InSpans(spans, t) && !Covers(last, t) {
      var i :| 0 <= i < |spans| && Covers(spans[i], t);
      assert Covers(init[i], t);
    }
  }

  lemma {:induction false} SpansCount(spans: seq<Span>, busy: set<int>)
    requires Separated(spans)
    requires forall t :: t in busy <==> InSpans(spans, t)
    ensures |busy| == Total(spans)
    decreases |spans|
  {
    if spans == [] {
      assert forall t :: !InSpans(spans, t);
      if busy != {} {
        var t := Inhabited(busy);
      }
    } else {
      var init, last := spans[..|spans| - 1], spans[|spans| - 1];
      var own := Range(last.start, last.end);
      forall t ensures t in busy - own <==> InSpans(init, t) {
        SplitLastSpan(spans, t);
      }
      SpansCount(init, busy - own);
      forall t | t in own ensures t in busy {
        SplitLastSpan(spans, t);
      }
      assert busy == (busy - own) + own;
    }
  }

  // Double-booked time is counted once: the merged length is the number of covered instants.
  lemma MergedLengthIsCoverage(spans: seq<Span>, blocks: seq<Block>)
    requires Merges(spans, blocks)
    ensures Total(spans) == |Covered(blocks)|
  {
    forall t ensures t in Covered(blocks) <==> InSpans(spans, t) {
      CoveredIsBusy(blocks, t);
    }
    SpansCount(spans, Covered(blocks));
  }

  method BookedMinutes(blocks: seq<Block>) returns (minutes: int)
    requires NonEmpty(blocks)
    ensures minutes == |Covered(blocks)| / MINUTE
  {
    var merged := Merge(blocks);
    MergedLengthIsCoverage(merged, blocks);
    var seconds := 0;
    for i := 0 to |merged|
      invariant seconds == Total(merged[..i])
    {
      assert merged[..i + 1][..i] == merged[..i];
      seconds := seconds + merged[i].end - merged[i].start;
    }
    assert merged[..|merged|] == merged;
    return seconds / MINUTE;
  }

  lemma {:induction false} CoverageAgainstLengths(blocks: seq<Block>)
    requires NonEmpty(blocks)
    ensures |Covered(blocks)| <= Lengths(blocks)
    ensures |Covered(blocks)| == Lengths(blocks) <==> AllOverlaps(blocks) == []
  {
    if blocks != [] {
      var b, rest := blocks[0], blocks[1..];
      assert blocks == [b] + rest;
      CoverageAgainstLengths(rest);
      var own := Range(b.start, b.end);
      assert |Covered(rest) + own| == |Covered(rest)| + |own| - |Covered(rest) * own|;
      if OverlapsWith(b, rest) == [] {
        forall t | t in Covered(rest) ensures t !in own {
          CoveredIsBusy(rest, t);
          var c :| c in rest && c.start <= t < c.end;
          NoneOverlaps(b, rest, c);
        }
        assert Covered(rest) * own == {};
      } else {
        var c := SomeOverlaps(b, rest);
        var t := Max(b.start, c.start);
        CoveredIsBusy(rest, t);
        assert t in Covered(rest) * own;
      }
    }
  }

  lemma {:induction false} NoneOverlaps(b: Block, rest: seq<Block>, c: Block)
    requires OverlapsWith(b, rest) == [] && c in rest
    ensures !Overlap(b, c)
  {
    if c != rest[0] {
      NoneOverlaps(b, rest[1..], c);
    }
  }

  lemma {:induction false} SomeOverlaps(b: Block, rest: seq<Block>) returns (c: Block)
    requires OverlapsWith(b, rest) != []
    ensures c in rest && Overlap(b, c)
  {
    if Overlap(b, rest[0]) {
      c := rest[0];
    } else {
      c := SomeOverlaps(b, rest[1..]);
    }
  }

  lemma {:induction false} LengthsAppend(a: seq<Block>, b: seq<Block>)
    ensures Lengths(a + b) == Lengths(a) + Lengths(b)
  {
    if a == [] {
      assert a + b == b;
    } else {
      LengthsAppend(a[1..], b);
      assert (a + b)[1..] == a[1..] + b;
    }
  }

  lemma {:induction false} LengthsPermutation(a: seq<Block>, b: seq<Block>)
    requires multiset(a) == multiset(b)
    ensures Lengths(a) == Lengths(b)
    decreases |a|
  {
    if a == [] {
      assert |multiset(b)| == 0;
    } else {
      assert a[0] in multiset(b);
      var i :| 0 <= i < |b| && b[i] == a[0];
      var rest := b[..i] + b[i + 1..];
      assert b == b[..i] + ([b[i]] + b[i + 1..]);
      assert a == [a[0]] + a[1..];
      assert multiset(rest) == multiset(b) - multiset{a[0]};
      LengthsPermutation(a[1..], rest);
      LengthsAppend(b[..i], b[i + 1..]);
      LengthsAppend(b[..i], [b[i]] + b[i + 1..]);
      assert ([b[i]] + b[i + 1..])[1..] == b[i + 1..];
    }
  }

  // There is no conflict exactly when merging loses no time.
  lemma ConflictFreeIffNothingMerged(blocks: seq<Block>, spans: seq<Span>)
    requires NonEmpty(blocks) && Merges(spans, blocks)
    ensures AllOverlaps(Sort(blocks, ByStartEndId)) == [] <==> Total(spans) == Lengths(blocks)
  {
    var ordered := Sort(blocks, ByStartEndId);
    SortCorrect(blocks, ByStartEndId);
    CoverageAgainstLengths(ordered);
    LengthsPermutation(blocks, ordered);
    MergedLengthIsCoverage(spans, blocks);
    forall t ensures t in Covered(ordered) <==> t in Covered(blocks) {
      CoveredIsBusy(ordered, t);
      CoveredIsBusy(blocks, t);
    }
    assert Covered(ordered) == Covered(blocks);
  }

  // ---------------------------------------------------------------- gaps and overloaded windows

  ghost predicate Free(spans: seq<Span>, a: int, b: int) {
    forall t :: a <= t < b ==> !InSpans(spans, t)
  }

  ghost predicate FreeWithin(spans: seq<Span>, start: int, end: int, a: int, b: int) {
    start <= a <= b <= end && Free(spans, a, b)
  }

  // The length of the longest free stretch inside [start, end): an upper bound that is attained.
  ghost predicate IsLargestGap(spans: seq<Span>, start: int, end: int, gap: int) {
    && (exists a, b :: FreeWithin(spans, start, end, a, b) && b - a == gap)
    && (forall a, b :: FreeWithin(spans, start, end, a, b) ==> b - a <= gap)
  }

  // Before the cursor: nothing free is longer than `gap`, some free stretch has that length, and the cursor
  // stands at the window's start or right after busy time.
  ghost predicate GapSoFar(spans: seq<Span>, start: int, end: int, k: nat, cursor: int, gap: int) {
    && start <= cursor <= end && k <= |spans|
    && (exists a, b :: FreeWithin(spans, start, end, a, b) && b - a == gap)
    && (forall a, b :: FreeWithin(spans, start, cursor, a, b) ==> b - a <= gap)
    && (cursor == start || InSpans(spans, cursor - 1))
    && (forall i :: 0 <= i < k ==> Passed(spans[i], cursor, end))
  }

  predicate Passed(s: Span, cursor: int, end: int) { s.end <= cursor || s.start >= end || cursor == end }

  lemma GapStep(spans: seq<Span>, start: int, end: int, k: nat, cursor: int, gap: int)
    requires Separated(spans) && GapSoFar(spans, start, end, k, cursor, gap) && k < |spans|
    requires spans[k].end > start && spans[k].start < end
    ensures var gap' := Max(gap, Min(spans[k].start, end) - cursor);
            var cursor' := Max(cursor, Min(spans[k].end, end));
            GapSoFar(spans, start, end, k + 1, cursor', gap')
  {
    var s := spans[k];
    var gap' := Max(gap, s.start - cursor);
    var cursor' := Max(cursor, Min(s.end, end));
    forall t | s.start <= t < s.end ensures InSpans(spans, t) {
      assert Covers(spans[k], t);
    }
    if s.start > cursor {
      forall t | cursor <= t < s.start ensures !InSpans(spans, t) {
        BetweenSpans(spans, start, end, k, cursor, t);
      }
      assert FreeWithin(spans, start, end, cursor, s.start);
    }
    forall a, b | FreeWithin(spans, start, cursor', a, b) ensures b - a <= gap' {
      if a < b {
        assert a < cursor < b ==> !InSpans(spans, cursor - 1);
        if b <= cursor {
          assert FreeWithin(spans, start, cursor, a, b);
        } else if a >= cursor {
          assert !InSpans(spans, b - 1) && !InSpans(spans, a);
        }
      }
    }
    assert cursor' > cursor ==> Covers(spans[k], cursor' - 1);
  }

  lemma BetweenSpans(spans: seq<Span>, start: int, end: int, k: nat, cursor: int, t: int)
    requires Separated(spans)
    requires k < |spans| && cursor <= t < spans[k].start < end
    requires forall i :: 0 <= i < k ==> Passed(spans[i], cursor, end)
    ensures !InSpans(spans, t)
  {
    forall i | 0 <= i < |spans| ensures !Covers(spans[i], t) {
      assert i > k ==> spans[k].end < spans[i].start;
    }
  }

  lemma GapAtTheEnd(spans: seq<Span>, start: int, end: int, cursor: int, gap: int)
    requires Separated(spans) && GapSoFar(spans, start, end, |spans|, cursor, gap)
    ensures IsLargestGap(spans, start, end, Max(gap, end - cursor))
  {
    forall t | cursor <= t < end ensures !InSpans(spans, t) {
      forall i | 0 <= i < |spans| ensures !Covers(spans[i], t) {
        assert Passed(spans[i], cursor, end);
      }
    }
    assert FreeWithin(spans, start, end, cursor, end);
    forall a, b | FreeWithin(spans, start, end, a, b) ensures b - a <= Max(gap, end - cursor) {
      if a < b {
        assert a < cursor < b ==> !InSpans(spans, cursor - 1);
        if b <= cursor {
          assert FreeWithin(spans, start, cursor, a, b);
        }
      }
    }
  }

  method LargestGap(busy: seq<Span>, start: int, end: int) returns (gap: int)
    requires Separated(busy) && start <= end
    ensures IsLargestGap(busy, start, end, gap)
  {
    gap := 0;
    var cursor := start;
    assert FreeWithin(busy, start, end, start, start);
    for k := 0 to |busy|
      invariant GapSoFar(busy, start, end, k, cursor, gap)
    {
      if busy[k].end <= start || busy[k].start >= end {
        continue;
      }
      GapStep(busy, start, end, k, cursor, gap);
      gap := Max(gap, Min(busy[k].start, end) - cursor);
      cursor := Max(cursor, Min(busy[k].end, end));
    }
    GapAtTheEnd(busy, start, end, cursor, gap);
    return Max(gap, end - cursor);
  }

  datatype OverloadedWindow = OverloadedWindow(start: int, end: int, largestGapMinutes: int)

  ghost predicate Idle(blocks: seq<Block>, a: int, b: int) {
    forall u :: a <= u < b ==> !Busy(blocks, u)
  }

  // Three hours from `t` without a free stretch of ten minutes.
  ghost predicate Solid(blocks: seq<Block>, t: int) {
    forall a, b :: t <= a <= b <= t + WINDOW && Idle(blocks, a, b) ==> b - a < MIN_GAP
  }

  // The window's length and its longest free stretch, in whole minutes.
  ghost predicate Describes(blocks: seq<Block>, w: OverloadedWindow) {
    && w.end == w.start + WINDOW
    && exists a, b :: LongestIdle(blocks, w, a, b) && w.largestGapMinutes == (b - a) / MINUTE
  }

  ghost predicate LongestIdle(blocks: seq<Block>, w: OverloadedWindow, a: int, b: int) {
    && w.start <= a <= b <= w.end && Idle(blocks, a, b)
    && forall c, d :: w.start <= c <= d <= w.end && Idle(blocks, c, d) ==> d - c <= b - a
  }

  lemma GapDescribes(spans: seq<Span>, blocks: seq<Block>, w: OverloadedWindow, gap: int)
    requires Merges(spans, blocks) && w.end == w.start + WINDOW
    requires IsLargestGap(spans, w.start, w.end, gap) && w.largestGapMinutes == gap / MINUTE
    ensures Describes(blocks, w)
  {
    assert forall a, b :: Free(spans, a, b) <==> Idle(blocks, a, b);
    var a, b :| FreeWithin(spans, w.start, w.end, a, b) && b - a == gap;
    forall c, d | w.start <= c <= d <= w.end && Idle(blocks, c, d) ensures d - c <= gap {
      assert FreeWithin(spans, w.start, w.end, c, d);
    }
    assert LongestIdle(blocks, w, a, b);
  }

  lemma SolidByGap(spans: seq<Span>, blocks: seq<Block>, t: int, gap: int)
    requires Merges(spans, blocks) && IsLargestGap(spans, t, t + WINDOW, gap)
    ensures Solid(blocks, t) <==> gap < MIN_GAP
  {
    assert forall a, b :: Free(spans, a, b) <==> Idle(blocks, a, b);
    if gap < MIN_GAP {
      forall a, b | t <= a <= b <= t + WINDOW && Idle(blocks, a, b) ensures b - a < MIN_GAP {
        assert FreeWithin(spans, t, t + WINDOW, a, b);
      }
    }
  }

  ghost predicate Reported(found: seq<OverloadedWindow>, t: int) {
    exists i :: 0 <= i < |found| && found[i].start == t
  }

  // Exactly the solid windows that start with a block, each once, earliest first.
  method OverloadedWindows(blocks: seq<Block>) returns (found: seq<OverloadedWindow>)
    requires NonEmpty(blocks)
    ensures forall i :: 0 <= i < |found| ==> Describes(blocks, found[i])
    ensures forall i, j :: 0 <= i < j < |found| ==> found[i].start < found[j].start
    ensures forall t :: Reported(found, t) <==> StartsBlock(blocks, t) && Solid(blocks, t)
  {
    var busy := Merge(blocks);
    var ordered := Sort(blocks, ByStart);
    SortedBlocks(blocks, ByStart);
    found := [];
    for k := 0 to |ordered|
      invariant forall i :: 0 <= i < |found| ==> Describes(blocks, found[i])
      invariant forall i, j :: 0 <= i < j < |found| ==> found[i].start < found[j].start
      invariant forall t :: Reported(found, t) <==> StartsBlock(ordered[..k], t) && Solid(blocks, t)
      invariant forall i :: 0 <= i < |found| && k < |ordered| ==> found[i].start <= ordered[k].start
    {
      var start := ordered[k].start;
      var gap := LargestGap(busy, start, start + WINDOW);
      SolidByGap(busy, blocks, start, gap);
      assert ordered[..k + 1] == ordered[..k] + [ordered[k]];
      StartsOneMore(ordered[..k], ordered[k]);
      if gap < MIN_GAP && !(exists i | 0 <= i < |found| :: found[i].start == start) {
        var window := OverloadedWindow(start, start + WINDOW, gap / MINUTE);
        ReportedOneMore(found, window);
        GapDescribes(busy, blocks, window, gap);
        found := found + [window];
      }
    }
    assert ordered[..|ordered|] == ordered;
    assert forall t :: StartsBlock(ordered, t) <==> StartsBlock(blocks, t);
  }

  lemma StartsOneMore(blocks: seq<Block>, b: Block)
    ensures forall t :: StartsBlock(blocks + [b], t) <==> StartsBlock(blocks, t) || t == b.start
  {
    StartsSnoc(blocks, b);
    assert forall c :: c in blocks + [b] <==> c in blocks || c == b;
  }

  lemma ReportedOneMore(found: seq<OverloadedWindow>, window: OverloadedWindow)
    ensures forall t :: Reported(found + [window], t) <==> Reported(found, t) || t == window.start
  {
    var longer := found + [window];
    forall t ensures Reported(longer, t) <==> Reported(found, t) || t == window.start {
      if Reported(found, t) {
        var i :| 0 <= i < |found| && found[i].start == t;
        assert longer[i].start == t;
      }
      assert longer[|found|] == window;
    }
  }

  // A solid window that begins on busy time can be slid back to the start of the block run it begins in.
  lemma SlideToBlockStart(blocks: seq<Block>, spans: seq<Span>, t: int) returns (s: int)
    requires NonEmpty(blocks) && Merges(spans, blocks) && Busy(blocks, t) && Solid(blocks, t)
    ensures s <= t && StartsBlock(blocks, s) && Solid(blocks, s)
    ensures forall u :: s <= u <= t ==> Busy(blocks, u)
  {
    assert InSpans(spans, t);
    var i :| 0 <= i < |spans| && Covers(spans[i], t);
    s := spans[i].start;
    forall u | s <= u < spans[i].end ensures Busy(blocks, u) {
      assert Covers(spans[i], u);
    }
    forall a, b | s <= a <= b <= s + WINDOW && Idle(blocks, a, b) ensures b - a < MIN_GAP {
      assert a < b ==> !Busy(blocks, a);
    }
  }

  // Something is reported exactly when some three-hour window beginning on busy time is solid. For windows
  // beginning on free time the promise in the source comment does not hold.
  lemma ReportedIffBusyStart(blocks: seq<Block>, spans: seq<Span>, found: seq<OverloadedWindow>)
    requires NonEmpty(blocks) && Merges(spans, blocks)
    requires forall t :: Reported(found, t) <==> StartsBlock(blocks, t) && Solid(blocks, t)
    ensures found != [] <==> exists t :: Busy(blocks, t) && Solid(blocks, t)
  {
    if found != [] {
      var t := found[0].start;
      assert Reported(found, t);
      var b :| b in blocks && b.start == t;
      assert Busy(blocks, t);
    }
    if t :| Busy(blocks, t) && Solid(blocks, t) {
      var s := SlideToBlockStart(blocks, spans, t);
      assert Reported(found, s);
    }
  }

  // One 170-minute block: the three hours starting five minutes before it are solid, yet no window anchored
  // at a block start is.
  lemma SolidWindowOnFreeTimeIsMissed()
    ensures var blocks := [Block(1, 5 * MINUTE, 175 * MINUTE)];
            Solid(blocks, 0) && forall t :: StartsBlock(blocks, t) ==> !Solid(blocks, t)
  {
    var b := Block(1, 5 * MINUTE, 175 * MINUTE);
    var blocks := [b];
    assert forall u :: Busy(blocks, u) <==> b.start <= u < b.end;
    forall x, y | 0 <= x <= y <= WINDOW && Idle(blocks, x, y) ensures y - x < MIN_GAP {
      if x < y {
        assert !Busy(blocks, x) && !Busy(blocks, y - 1);
        assert x < b.start < y ==> Busy(blocks, b.start);
      }
    }
    assert Idle(blocks, 175 * MINUTE, 185 * MINUTE);
    assert forall t :: StartsBlock(blocks, t) ==> t == b.start;
  }
}
