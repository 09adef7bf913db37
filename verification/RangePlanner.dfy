/** Which block windows to scan, and how to narrow one the RPC rejects. */
module RangePlanner {
  import opened Wrappers

  datatype BlockRange = BlockRange(from: int, to: int)
  datatype PlanError = BadMaxRange | BadConfirmations

  /** The windows from `start` on: each as wide as allowed. */
  function PlanFrom(start: int, safeHead: int, maxRange: int): seq<BlockRange>
    requires maxRange >= 1
    decreases safeHead - start
  {
    if start > safeHead then []
    else
      var end := if start + maxRange - 1 < safeHead then start + maxRange - 1 else safeHead;
      [BlockRange(start, end)] + PlanFrom(end + 1, safeHead, maxRange)
  }

  function Plan(head: int, cursor: int, maxRange: int, confirmations: int): Result<seq<BlockRange>, PlanError> {
    if maxRange < 1 then Failure(BadMaxRange)
    else if confirmations < 0 then Failure(BadConfirmations)
    else Success(PlanFrom(cursor + 1, head - confirmations, maxRange))
  }

  method PlanRanges(head: int, cursor: int, maxRange: int, confirmations: int)
      returns (r: Result<seq<BlockRange>, PlanError>)
    ensures r == Plan(head, cursor, maxRange, confirmations)
  {
    if maxRange < 1 { return Failure(BadMaxRange); }
    if confirmations < 0 { return Failure(BadConfirmations); }
    var safeHead := head - confirmations;
    var from := cursor + 1;
    if safeHead < from { return Success([]); }

    var ranges: seq<BlockRange> := [];
    var start := from;
    while start <= safeHead
      invariant PlanFrom(from, safeHead, maxRange) == ranges + PlanFrom(start, safeHead, maxRange)
      decreases safeHead - start
    {
      var end := if start + maxRange - 1 < safeHead then start + maxRange - 1 else safeHead;
      ranges := ranges + [BlockRange(start, end)];
      start := end + 1;
    }
    assert ranges + PlanFrom(start, safeHead, maxRange) == ranges;
    r := Success(ranges);
  }

  function Halve(range: BlockRange): seq<BlockRange> {
    if range.to <= range.from then [range]
    else
      var mid := (range.from + range.to) / 2;
      [BlockRange(range.from, mid), BlockRange(mid + 1, range.to)]
  }

  /** The windows follow each other without gap or overlap, from `start` to `end`, none empty. */
  ghost predicate Tiles(ranges: seq<BlockRange>, start: int, end: int)
    decreases |ranges|
  {
    if ranges == [] then start == end + 1
    else ranges[0].from == start && ranges[0].from <= ranges[0].to <= end && Tiles(ranges[1..], ranges[0].to + 1, end)
  }

  /** Planning tiles exactly the blocks after the cursor up to the confirmed head, in windows of at most maxRange. */
  lemma {:induction false} PlanTiles(start: int, safeHead: int, maxRange: int)
    requires maxRange >= 1 && start <= safeHead + 1
    ensures Tiles(PlanFrom(start, safeHead, maxRange), start, safeHead)
    ensures forall r :: r in PlanFrom(start, safeHead, maxRange) ==> r.to - r.from + 1 <= maxRange
    decreases safeHead - start
  {
    if start <= safeHead {
      var end := if start + maxRange - 1 < safeHead then start + maxRange - 1 else safeHead;
      PlanTiles(end + 1, safeHead, maxRange);
      assert PlanFrom(start, safeHead, maxRange)[1..] == PlanFrom(end + 1, safeHead, maxRange);
    }
  }

  /** All windows but the last are as wide as allowed. */
  ghost predicate Greedy(ranges: seq<BlockRange>, maxRange: int) {
    forall i :: 0 <= i < |ranges| - 1 ==> ranges[i].to - ranges[i].from + 1 == maxRange
  }

  lemma {:induction false} PlanIsGreedy(start: int, safeHead: int, maxRange: int)
    requires maxRange >= 1
    ensures Greedy(PlanFrom(start, safeHead, maxRange), maxRange)
    decreases safeHead - start
  {
    if start <= safeHead {
      var end := if start + maxRange - 1 < safeHead then start + maxRange - 1 else safeHead;
      PlanIsGreedy(end + 1, safeHead, maxRange);
      var ranges := PlanFrom(start, safeHead, maxRange);
      assert ranges == [BlockRange(start, end)] + PlanFrom(end + 1, safeHead, maxRange);
    }
  }

  /** The plan of a poll: refused for a width below one or negative confirmations; empty without a confirmed block after
      the cursor; else windows that tile those blocks, each as wide as allowed but for the last. */
  lemma PlanExactly(head: int, cursor: int, maxRange: int, confirmations: int)
    ensures var plan := Plan(head, cursor, maxRange, confirmations);
            if maxRange < 1 then plan == Failure(BadMaxRange)
            else if confirmations < 0 then plan == Failure(BadConfirmations)
            else if head - confirmations <= cursor then plan == Success([])
            else
              && plan.Success? && Tiles(plan.value, cursor + 1, head - confirmations)
              && (forall r :: r in plan.value ==> r.to - r.from < maxRange)
              && Greedy(plan.value, maxRange)
  {
    if maxRange >= 1 && confirmations >= 0 && head - confirmations > cursor {
      PlanTiles(cursor + 1, head - confirmations, maxRange);
      PlanIsGreedy(cursor + 1, head - confirmations, maxRange);

    }
  }

  /** The halves of a wide window tile it, are narrower, and are as wide as each other or the first by one more. */
  lemma HalvesTile(range: BlockRange)
    requires range.from < range.to
    ensures var halves := Halve(range);
            |halves| == 2 && Tiles(halves, range.from, range.to)
            && (forall h :: h in halves ==> h.from <= h.to && h.to - h.from < range.to - range.from)
            && 0 <= (halves[0].to - halves[0].from) - (halves[1].to - halves[1].from) <= 1
  {
    var halves := Halve(range);
    assert Tiles(halves[1..][1..], range.to + 1, range.to);
    assert Tiles(halves[1..], halves[0].to + 1, range.to);
  }
}
