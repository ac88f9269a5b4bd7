/** Checkpoints of a port's pause/resume ladder: a byte threshold, the
    action taken when occupancy crosses it, and whether the pause it
    stands for is currently asserted. Checkpoints compare by threshold
    only (the class's `__lt__`), so every comparison is written directly
    on `thresh`. */
module Checkpoints {

  datatype CheckpointAction = Pause | Resume | NoAction

  /** A checkpoint as built by the checkpoint class's constructor starts
      with `active` false. */
  datatype Checkpoint = Checkpoint(thresh: int, action: CheckpointAction, active: bool)

  /** Non-decreasing thresholds: the order `list.sort()` leaves under `__lt__`. */
  predicate ThreshSorted(cps: seq<Checkpoint>) {
    forall i, j :: 0 <= i < j < |cps| ==> cps[i].thresh <= cps[j].thresh
  }

  /** Number of checkpoints whose pause is currently asserted. */
  function ActiveCount(cps: seq<Checkpoint>): nat {
    if cps == [] then 0 else (if cps[0].active then 1 else 0) + ActiveCount(cps[1..])
  }

  /** Setting the `active` flag of one checkpoint changes the count by that flag alone. */
  lemma {:induction false} ActiveCountSet(cps: seq<Checkpoint>, i: nat, b: bool)
    requires i < |cps|
    ensures ActiveCount(cps[i := cps[i].(active := b)])
         == ActiveCount(cps) - (if cps[i].active then 1 else 0) + (if b then 1 else 0)
  {
    var c := cps[i := cps[i].(active := b)];
    if i == 0 {
      assert c[1..] == cps[1..];
    } else {
      assert c[1..] == cps[1..][i - 1 := cps[i].(active := b)];
      ActiveCountSet(cps[1..], i - 1, b);
    }
  }

  /** An active checkpoint means at least one asserted pause. */
  lemma {:induction false} ActiveCountPositive(cps: seq<Checkpoint>, i: nat)
    requires i < |cps| && cps[i].active
    ensures ActiveCount(cps) >= 1
  {
    if i > 0 {
      ActiveCountPositive(cps[1..], i - 1);
    }
  }

  /** A ladder with nothing asserted. */
  lemma {:induction false} ActiveCountNone(cps: seq<Checkpoint>)
    requires forall k :: 0 <= k < |cps| ==> !cps[k].active
    ensures ActiveCount(cps) == 0
  {
    if cps != [] {
      ActiveCountNone(cps[1..]);
    }
  }
}
