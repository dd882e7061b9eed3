/** Round-robin lanes of a byte sequence. */
module Lanes {
  import opened Arithmetic
  import opened LittleEndian

  /** Every step-th byte from lane on. */
  function Lane(src: seq<byte>, lane: nat, step: nat): (xs: seq<byte>)
    requires step > 0
    decreases |src| - lane
  {
    if lane >= |src| then [] else [src[lane]] + Lane(src, lane + step, step)
  }

  lemma {:induction false} WholeLane(src: seq<byte>, lane: nat)
    requires lane <= |src|
    ensures Lane(src, lane, 1) == src[lane..]
    decreases |src| - lane
  {
    if lane < |src| {
      WholeLane(src, lane + 1);
    }
  }

  /** How many bytes a lane has, and the first position of the lane past the end. */
  method LaneLength(src: seq<byte>, lane: nat, step: nat) returns (len: nat, i: nat)
    requires step > 0
    ensures len == |Lane(src, lane, step)| && i == lane + step * len && Lane(src, i, step) == []
    ensures len > 0 ==> i < |src| + step
    ensures len == 0 ==> Lane(src, lane, step) == []
  {
    len, i := 0, lane;
    while i < |src|
      invariant i == lane + step * len && len + |Lane(src, i, step)| == |Lane(src, lane, step)|
      invariant len > 0 ==> i < |src| + step
      decreases |src| - i
    {
      Distribute(step, len, 1);
      i := i + step;
      len := len + 1;
    }
  }

  lemma LaneStep(src: seq<byte>, i: nat, step: nat)
    requires step > 0 && i < |src|
    ensures Lane(src, i, step) == [src[i]] + Lane(src, i + step, step)
    ensures Lane(src, i, step)[1..] == Lane(src, i + step, step)
  {
  }

  lemma {:induction false} LaneAt(src: seq<byte>, lane: nat, k: nat)
    requires lane + 4 * k < |src|
    ensures k < |Lane(src, lane, 4)| && Lane(src, lane, 4)[k] == src[lane + 4 * k]
    decreases k
  {
    if k > 0 {
      LaneAt(src, lane + 4, k - 1);
    }
  }

  lemma {:induction false} LaneShort(src: seq<byte>, lane: nat)
    ensures |Lane(src, lane, 4)| <= |src|
    ensures lane <= |src| ==> |Lane(src, lane, 4)| <= |src| - lane
    decreases |src| - lane
  {
    if lane < |src| {
      LaneShort(src, lane + 4);
    }
  }

  /** Steps taken in a lane when i symbols are out. */
  function StepsDone(i: nat, lane: nat): (k: nat)
    requires lane < 4
  {
    (i + 3 - lane) / 4
  }

  lemma StepsNext(i: nat)
    ensures forall l :: 0 <= l < 4 ==> StepsDone(i + 1, l) == StepsDone(i, l) + (if i % 4 == l then 1 else 0)
    ensures StepsDone(i, i % 4) == i / 4
  {
  }
}
