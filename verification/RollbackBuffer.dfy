/** The bounded in-memory buffer of recently processed points, newest first. */
module RollbackBuffer {
  import opened Wrappers
  import opened Points

  const MAX_BUFFER_LEN: nat := 32

  datatype PointWithResult<T> = PointWithResult(point: Point, result: T)

  /** Index of the newest entry for a point. */
  function Position<T>(blocks: seq<PointWithResult<T>>, point: Point): (r: Option<nat>)
    ensures r.Some? ==> r.value < |blocks| && blocks[r.value].point == point
    ensures r.Some? ==> forall i :: 0 <= i < r.value ==> blocks[i].point != point
    ensures r.None? ==> forall i :: 0 <= i < |blocks| ==> blocks[i].point != point
  {
    if blocks == [] then None
    else if blocks[0].point == point then Some(0)
    else
      match Position(blocks[1..], point)
      case None => None
      case Some(i) => Some(i + 1)
  }

  function Truncate<T>(blocks: seq<T>): (r: seq<T>)
    ensures |r| <= MAX_BUFFER_LEN && r <= blocks
  {
    if |blocks| <= MAX_BUFFER_LEN then blocks else blocks[..MAX_BUFFER_LEN]
  }

  class RollbackBuffer<T> {
    var blocks: seq<PointWithResult<T>>

    ghost predicate Valid()
      reads this
    {
      |blocks| <= MAX_BUFFER_LEN
    }

    constructor ()
      ensures Valid() && blocks == []
    {
      blocks := [];
    }

    method FindPosition(point: Point) returns (r: Option<nat>)
      ensures r == Position(blocks, point)
    {
      for i := 0 to |blocks|
        invariant forall j :: 0 <= j < i ==> blocks[j].point != point
      {
        if blocks[i].point == point {
          return Some(i);
        }
      }
      r := None;
    }

    /** Push to the front, then drop what is beyond the limit. */
    method AddBlock(point: Point, result: T)
      modifies this
      ensures Valid()
      ensures blocks == Truncate([PointWithResult(point, result)] + old(blocks))
    {
      blocks := [PointWithResult(point, result)] + blocks;
      if |blocks| > MAX_BUFFER_LEN {
        blocks := blocks[..MAX_BUFFER_LEN];
      }
    }

    /** The entries newer than a point, newest first; the buffer keeps them. */
    method PointsSince(point: Point) returns (r: Option<seq<PointWithResult<T>>>)
      ensures r.Some? <==> Position(blocks, point).Some?
      ensures r.Some? ==> r.value == blocks[..Position(blocks, point).value]
    {
      var p := FindPosition(point);
      r := match p case None => None case Some(i) => Some(blocks[..i]);
    }

    /** The same entries, drained from the buffer. */
    method RollbackToPoint(point: Point) returns (r: Option<seq<PointWithResult<T>>>)
      requires Valid()
      modifies this
      ensures Valid()
      ensures r.Some? <==> Position(old(blocks), point).Some?
      ensures r.Some? ==> r.value + blocks == old(blocks) && |r.value| == Position(old(blocks), point).value
      ensures r.None? ==> blocks == old(blocks)
    {
      var p := FindPosition(point);
      match p
      case None =>
        r := None;
      case Some(i) =>
        r := Some(blocks[..i]);
        blocks := blocks[i..];
    }
  }
}
