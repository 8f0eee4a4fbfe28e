/**
  Deep pages by number instead of OFFSET, and the count of blocks by subtraction
  (packages/api/src/common/utils.ts, packages/api/src/block/block.service.ts).
*/
module Pagination {

  const MIN_OFFSET_TO_USE_NUMBER_FILTER: nat := 1000

  /** The filtered rows in the query's order: numbers going down. */
  ghost predicate Descending(rows: seq<nat>) {
    forall i, j :: 0 <= i < j < |rows| ==> rows[i] > rows[j]
  }

  ghost predicate Contiguous(rows: seq<nat>) {
    forall i :: 0 <= i < |rows| ==> rows[i] == rows[0] - i
  }

  function Limit(rows: seq<nat>, limit: nat): seq<nat> {
    if limit < |rows| then rows[..limit] else rows
  }

  /** OFFSET offset LIMIT limit: what the page means. */
  function OffsetPage(rows: seq<nat>, offset: nat, limit: nat): seq<nat> {
    Limit(if offset < |rows| then rows[offset..] else [], limit)
  }

  /** WHERE number <= bound, in the query's order. */
  function AtMost(rows: seq<nat>, bound: int): seq<nat> {
    if |rows| == 0 then []
    else if rows[0] <= bound then [rows[0]] + AtMost(rows[1..], bound)
    else AtMost(rows[1..], bound)
  }

  function TopNumber(rows: seq<nat>): int { if |rows| == 0 then -1 else rows[0] }

  /** The page as the source asks for it. */
  method PaginateQueryBuilder(rows: seq<nat>, page: nat, limit: nat, canUseNumberFilterAsOffset: bool)
    returns (items: seq<nat>)
    requires page >= 1 && Descending(rows)
    ensures var offset := (page - 1) * limit;
      items == (if canUseNumberFilterAsOffset && offset >= MIN_OFFSET_TO_USE_NUMBER_FILTER
                then Limit(AtMost(rows, TopNumber(rows) - offset), limit)
                else OffsetPage(rows, offset, limit))
    ensures Contiguous(rows) ==> items == OffsetPage(rows, (page - 1) * limit, limit)
  {
    var offset := (page - 1) * limit;
    if canUseNumberFilterAsOffset && offset >= MIN_OFFSET_TO_USE_NUMBER_FILTER {
      var topItemNumber := if |rows| > 0 then rows[0] else -1;
      items := Limit(AtMost(rows, topItemNumber - offset), limit);
      if Contiguous(rows) {
        NumberFilterIsOffset(rows, offset, limit);
      }
    } else {
      items := OffsetPage(rows, offset, limit);
    }
  }

  /** The first rows are above the bound and the others are not. */
  lemma {:induction false} AtMostIsSuffix(rows: seq<nat>, bound: int, k: nat)
    requires k <= |rows|
    requires forall i :: 0 <= i < k ==> rows[i] > bound
    requires forall i :: k <= i < |rows| ==> rows[i] <= bound
    ensures AtMost(rows, bound) == rows[k..]
  {
    if |rows| > 0 {
      AtMostIsSuffix(rows[1..], bound, if k > 0 then k - 1 else 0);
      if k == 0 {
        assert rows == [rows[0]] + rows[1..];
      }
    }
  }

  lemma {:induction false} Gaps(rows: seq<nat>, i: nat)
    requires Descending(rows) && i < |rows|
    ensures rows[i] <= rows[0] - i
  {
    if i > 0 {
      Gaps(rows, i - 1);
    }
  }

  lemma {:induction false} FirstAtMost(rows: seq<nat>, bound: int) returns (k: nat)
    requires Descending(rows)
    ensures k <= |rows|
    ensures forall i :: 0 <= i < k ==> rows[i] > bound
    ensures forall i :: k <= i < |rows| ==> rows[i] <= bound
  {
    k := 0;
    while k < |rows| && rows[k] > bound
      invariant k <= |rows|
      invariant forall i :: 0 <= i < k ==> rows[i] > bound
    {
      k := k + 1;
    }
  }

  /**
    When the number filter may stand in for the offset, exactly: for every page size both give the same
    page if and only if all the skipped rows are numbered within `offset` of the top one.
  */
  lemma NumberFilterIsOffsetExactly(rows: seq<nat>, offset: nat)
    requires Descending(rows)
    ensures (forall limit: nat ::
      Limit(AtMost(rows, TopNumber(rows) - offset), limit) == OffsetPage(rows, offset, limit))
            <==> forall i :: 0 <= i < offset && i < |rows| ==> rows[i] > TopNumber(rows) - offset
  {
    var bound := TopNumber(rows) - offset;
    var k := FirstAtMost(rows, bound);
    AtMostIsSuffix(rows, bound, k);
    if offset < |rows| {
      Gaps(rows, offset);
    }
    var skipped := if offset < |rows| then offset else |rows|;
    assert k <= skipped;
    if k < skipped {
      var limit := |rows| + 1;
      assert Limit(rows[k..], limit) == rows[k..];
      assert |OffsetPage(rows, offset, limit)| == |rows| - skipped;
      assert Limit(AtMost(rows, bound), limit) != OffsetPage(rows, offset, limit);
      assert rows[k] <= bound;
    }
  }

  /** Over a contiguous run of numbers, as the stored blocks are, deep pages are the pages they stand for. */
  lemma NumberFilterIsOffset(rows: seq<nat>, offset: nat, limit: nat)
    requires Descending(rows) && Contiguous(rows)
    ensures Limit(AtMost(rows, TopNumber(rows) - offset), limit) == OffsetPage(rows, offset, limit)
  {
    NumberFilterIsOffsetExactly(rows, offset);
  }

  // ---------------------------------------------------------------- count

  /** `lastBlock?.number ? lastBlock.number - firstBlock.number + 1 : 0`. */
  function CountOf(rows: seq<nat>): int {
    if |rows| > 0 && rows[0] != 0 then (rows[0] as int) - rows[|rows| - 1] + 1 else 0
  }

  /** The count is right exactly when the rows are contiguous and are not block 0 alone. */
  lemma CountIsRightExactly(rows: seq<nat>)
    requires Descending(rows)
    ensures CountOf(rows) == |rows| <==> |rows| == 0 || (Contiguous(rows) && rows[0] > 0)
  {
    if |rows| > 0 {
      Gaps(rows, |rows| - 1);
      if rows[0] - rows[|rows| - 1] + 1 == |rows| {
        forall i | 0 <= i < |rows| ensures rows[i] == rows[0] - i {
          Gaps(rows, i);
          Gaps(rows[i..], |rows| - 1 - i);
        }
      }
    }
  }

  /** Block 0 alone counts as none; two blocks with a gap between them count as three. */
  lemma CountIsWrong()
    ensures Descending([0]) && CountOf([0]) == 0 != |[0]|
    ensures Descending([5, 3]) && CountOf([5, 3]) == 3 != |[5, 3]|
  {
    var alone: seq<nat>, gap: seq<nat> := [0], [5, 3];
    assert CountOf(alone) == 0 && CountOf(gap) == 3;
  }
}
