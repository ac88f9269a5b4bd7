/** The checkpoint-ladder state machine of a switch port with pause
    enabled, and the delayed pause/resume signals it sends upstream.

    The ladder is the sorted checkpoint list with two live indices,
    `prev` and `next`, that bracket the current occupancy. After an
    enqueue the port may move the bracket one step down (occupancy at
    or below checkpoints[prev]) or one step up (occupancy above
    checkpoints[next]); after a dequeue it may only move it down.
    Crossing a Resume checkpoint downwards while the checkpoint above it
    is active retracts that pause; crossing an inactive Pause checkpoint
    upwards asserts a pause at the "highest remaining priority" (HRP).

    This module states each transition as a function on a `Ladder`
    value; the port class is proved to update its fields exactly as
    these functions say. */
module CheckpointLadder {
  import opened Wrappers
  import opened Packets
  import opened Checkpoints

  /** A message scheduled by `send_pause` or `send_resume`; it takes
      effect on the upstream port at time `deliverAt`. */
  datatype Signal = PauseSignal(level: int, deliverAt: int) | ResumeSignal(deliverAt: int)

  /** The ladder-related part of a port's state: the checkpoint list,
      the two indices, the stack of pauses asserted upstream, and the
      signals sent but not yet delivered (oldest first). */
  datatype Ladder = Ladder(
    checkpoints: seq<Checkpoint>, prev: int, next: int, pauseSent: seq<int>, inFlight: seq<Signal>)

  // ---------------------------------------------------------------------
  // Delivery of signals to the upstream port's pause_rec stack
  // ---------------------------------------------------------------------

  /** One delivered signal: a pause pushes its level, a resume pops the
      top. Popping an empty stack raises IndexError in the Python port's
      `send_resume`; here it is None. */
  function Deliver(rec: seq<int>, s: Signal): Option<seq<int>> {
    match s
    case PauseSignal(level, _) => Some(rec + [level])
    case ResumeSignal(_) => if rec == [] then None else Some(rec[..|rec| - 1])
  }

  /** The stack after delivering `signals` in order (None if one of them fails). */
  function Apply(rec: seq<int>, signals: seq<Signal>): Option<seq<int>>
    decreases |signals|
  {
    if signals == [] then Some(rec)
    else match Deliver(rec, signals[0])
      case None => None
      case Some(r) => Apply(r, signals[1..])
  }

  /** Scheduling one more signal extends the eventual stack by that signal's effect. */
  lemma {:induction false} ApplySnoc(rec: seq<int>, signals: seq<Signal>, s: Signal)
    ensures Apply(rec, signals + [s])
         == match Apply(rec, signals) case None => None case Some(r) => Deliver(r, s)
    decreases |signals|
  {
    if signals == [] {
      assert signals + [s] == [s];
      assert [s][1..] == [];
    } else {
      assert (signals + [s])[0] == signals[0];
      assert (signals + [s])[1..] == signals[1..] + [s];
      match Deliver(rec, signals[0])
      case None =>
      case Some(r) => ApplySnoc(r, signals[1..], s);
    }
  }

  /** The two stacks agree: once every in-flight signal has been
      delivered, the upstream port's pause_rec equals this port's
      pause_sent. */
  predicate Consistent(l: Ladder, rec: seq<int>) {
    Apply(rec, l.inFlight) == Some(l.pauseSent)
  }

  /** Delivering the oldest in-flight signal never pops an empty stack,
      and it keeps the two stacks in agreement. */
  lemma DeliverOldest(l: Ladder, rec: seq<int>)
    requires Consistent(l, rec) && l.inFlight != []
    ensures Deliver(rec, l.inFlight[0]).Some?
    ensures Consistent(l.(inFlight := l.inFlight[1..]), Deliver(rec, l.inFlight[0]).value)
    ensures l.inFlight[0].ResumeSignal? ==> rec != []
  {
  }

  // ---------------------------------------------------------------------
  // The highest remaining priority
  // ---------------------------------------------------------------------

  /** Bytes of the first `n` packets of `q`. */
  function PrefixSum(q: seq<Packet>, n: nat): nat
    requires n <= |q|
  {
    Sum(q[..n])
  }

  lemma {:induction false} PrefixSumCons(q: seq<Packet>)
    requires q != []
    ensures forall n :: 0 < n <= |q| ==> PrefixSum(q, n) == q[0].size + PrefixSum(q[1..], n - 1)
  {
    forall n | 0 < n <= |q| ensures PrefixSum(q, n) == q[0].size + PrefixSum(q[1..], n - 1) {
      assert q[..n][1..] == q[1..][..n - 1];
    }
  }

  /** The first index `k` at which the running byte total of `q`, taken
      from the low-priority end, exceeds `t`; |q| if it never does. */
  function FirstCrossing(q: seq<Packet>, t: int): (k: nat)
    ensures k <= |q|
    ensures forall n :: 0 < n <= k ==> PrefixSum(q, n) <= t
    ensures k < |q| ==> PrefixSum(q, k + 1) > t
    ensures k < |q| <==> q != [] && Sum(q) > t
    decreases |q|
  {
    if q == [] then 0
    else
      PrefixSumCons(q);
      assert q[..|q|] == q && q[1..][..|q| - 1] == q[1..];
      if q[0].size > t then 0
      else 1 + FirstCrossing(q[1..], t - q[0].size)
  }

  /** The HRP the Python port's `put` computes for a pause: the priority of the packet
      just before the crossing point, `queue[i-1]`, which for a crossing
      at i == 0 is Python's `queue[-1]` (the highest-priority packet);
      -1 when the total never exceeds the threshold. */
  function HrpSpec(q: seq<Packet>, t: int): (hrp: int)
    ensures hrp == -1 <==> q == [] || Sum(q) <= t
    ensures hrp >= -1
  {
    var k := FirstCrossing(q, t);
    if k == |q| then -1 else q[if k == 0 then |q| - 1 else k - 1].priority
  }

  /** On a sorted queue the HRP is the highest priority among the packets
      that fit within the threshold, counted from the low end; when
      already the first packet crosses it, it is the highest priority in
      the whole queue. */
  lemma {:induction false} HrpOfSorted(q: seq<Packet>, t: int)
    requires Sorted(q) && q != [] && Sum(q) > t
    ensures var k := FirstCrossing(q, t);
      && (k > 0 ==> (forall n :: 0 <= n < k ==> q[n].priority <= HrpSpec(q, t)) && HrpSpec(q, t) == q[k - 1].priority)
      && (k == 0 ==> forall n :: 0 <= n < |q| ==> q[n].priority <= HrpSpec(q, t))
  {
  }

  /** The HRP scan loop of `put`. */
  method Hrp(queue: seq<Packet>, resumeThreshold: int) returns (hrp: int)
    ensures hrp == HrpSpec(queue, resumeThreshold)
  {
    var queueSize := 0;
    hrp := -1;
    for i := 0 to |queue|
      invariant queueSize == PrefixSum(queue, i)
      invariant forall n :: 0 < n <= i ==> PrefixSum(queue, n) <= resumeThreshold
      invariant hrp == -1
    {
      SumLast(queue[..i + 1]);
      assert queue[..i + 1][..i] == queue[..i];
      queueSize := queueSize + queue[i].size;
      assert queueSize == PrefixSum(queue, i + 1);
      if queueSize > resumeThreshold {
        assert FirstCrossing(queue, resumeThreshold) == i;
        hrp := queue[if i == 0 then |queue| - 1 else i - 1].priority;
        return;
      }
    }
    assert queue[..|queue|] == queue;
  }

  // ---------------------------------------------------------------------
  // Transitions
  // ---------------------------------------------------------------------

  predicate InRange(l: Ladder) {
    0 <= l.prev < |l.checkpoints| && 0 <= l.next < |l.checkpoints|
  }

  /** A downward crossing retracts a pause: checkpoints[prev] is a Resume
      checkpoint and checkpoints[next] is active. */
  predicate ResumeFires(l: Ladder)
    requires InRange(l)
  {
    l.checkpoints[l.prev].action == Resume && l.checkpoints[l.next].active
  }

  /** An upward crossing asserts a pause: checkpoints[next] is an inactive
      Pause checkpoint. */
  predicate PauseFires(l: Ladder)
    requires InRange(l)
  {
    l.checkpoints[l.next].action == Pause && !l.checkpoints[l.next].active
  }

  /** The downward branch (occupancy at or below checkpoints[prev]);
      `at` is the delivery time of a signal sent now. */
  function StepDown(l: Ladder, at: int): Ladder
    requires InRange(l)
    requires ResumeFires(l) ==> l.pauseSent != []
  {
    if ResumeFires(l) then
      Ladder(l.checkpoints[l.next := l.checkpoints[l.next].(active := false)],
             l.prev - 1, l.next - 1,
             l.pauseSent[..|l.pauseSent| - 1], l.inFlight + [ResumeSignal(at)])
    else
      l.(prev := l.prev - 1, next := l.next - 1)
  }

  /** The upward branch (occupancy above checkpoints[next]); the HRP is
      computed over the current queue `q`. */
  function StepUp(l: Ladder, q: seq<Packet>, at: int): Ladder
    requires InRange(l)
  {
    if PauseFires(l) then
      var hrp := HrpSpec(q, l.checkpoints[l.prev].thresh);
      Ladder(l.checkpoints[l.next := l.checkpoints[l.next].(active := true)],
             l.prev + 1, l.next + 1,
             l.pauseSent + [hrp], l.inFlight + [PauseSignal(hrp, at)])
    else
      l.(prev := l.prev + 1, next := l.next + 1)
  }

  /** The ladder check at the end of `put`, with `bytes` the occupancy
      after eviction and `q` the queue after eviction. */
  function AfterPut(l: Ladder, q: seq<Packet>, bytes: int, at: int): Ladder
    requires InRange(l)
    requires ResumeFires(l) ==> l.pauseSent != []
  {
    if bytes <= l.checkpoints[l.prev].thresh then StepDown(l, at)
    else if bytes > l.checkpoints[l.next].thresh then StepUp(l, q, at)
    else l
  }

  /** The ladder check in `send_pkt`, with `bytes` the occupancy after
      the dequeue: only the downward branch exists. */
  function AfterSend(l: Ladder, bytes: int, at: int): Ladder
    requires InRange(l)
    requires ResumeFires(l) ==> l.pauseSent != []
  {
    if bytes <= l.checkpoints[l.prev].thresh then StepDown(l, at) else l
  }

  // ---------------------------------------------------------------------
  // The ladder invariant and its preservation
  // ---------------------------------------------------------------------

  /** What holds of the ladder of a wired port throughout the run:
      `next == prev + 1` and both index the sorted list; the lowest
      threshold is below any occupancy and the highest is at least the
      byte limit; each asserted pause is counted by exactly one active
      Pause checkpoint. */
  predicate Inv(l: Ladder, qlimit: Option<nat>) {
    && 2 <= |l.checkpoints|
    && 0 <= l.prev && l.next == l.prev + 1 && l.next < |l.checkpoints|
    && ThreshSorted(l.checkpoints)
    && l.checkpoints[0].thresh < 0
    && (qlimit.Some? ==> qlimit.value <= l.checkpoints[|l.checkpoints| - 1].thresh)
    && (forall k :: 0 <= k < |l.checkpoints| && l.checkpoints[k].active ==> l.checkpoints[k].action == Pause)
    && |l.pauseSent| == ActiveCount(l.checkpoints)
    && (l.checkpoints[l.next].active ==> l.pauseSent != [])
  }

  /** A wired pause port's ladder: the invariant holds and the stacks agree. */
  predicate Wired(l: Ladder, qlimit: Option<nat>, rec: seq<int>) {
    Inv(l, qlimit) && Consistent(l, rec)
  }

  /** A ladder as generate.py hands it to a port: sorted, with a lowest
      threshold below any occupancy, a highest one at least the byte
      limit, and nothing asserted yet. */
  predicate WellFormed(cps: seq<Checkpoint>, qlimit: Option<nat>) {
    && 2 <= |cps|
    && ThreshSorted(cps)
    && cps[0].thresh < 0
    && (qlimit.Some? ==> qlimit.value <= cps[|cps| - 1].thresh)
    && forall k :: 0 <= k < |cps| ==> !cps[k].active
  }

  /** A well-formed ladder with the indices at (0, 1), nothing asserted
      and nothing in flight satisfies the invariant, and agrees with an
      empty upstream stack. */
  lemma InitialLadder(cps: seq<Checkpoint>, qlimit: Option<nat>)
    requires WellFormed(cps, qlimit)
    ensures Inv(Ladder(cps, 0, 1, [], []), qlimit)
    ensures Consistent(Ladder(cps, 0, 1, [], []), [])
  {
    ActiveCountNone(cps);
  }

  /** Under the invariant, the downward branch never pops an empty pause_sent. */
  lemma PopIsSafe(l: Ladder, qlimit: Option<nat>)
    requires Inv(l, qlimit)
    ensures InRange(l)
    ensures ResumeFires(l) ==> l.pauseSent != []
  {
    if ResumeFires(l) {
      ActiveCountPositive(l.checkpoints, l.next);
    }
  }

  /** The ladder after a resume was emitted: one more Resume message,
      one fewer asserted pause, and checkpoints[next] deactivated. */
  predicate EmitsResume(l: Ladder, r: Ladder, at: int)
    requires InRange(l) && l.pauseSent != [] && |r.checkpoints| == |l.checkpoints|
  {
    && r.inFlight == l.inFlight + [ResumeSignal(at)]
    && r.pauseSent == l.pauseSent[..|l.pauseSent| - 1]
    && r.checkpoints == l.checkpoints[l.next := l.checkpoints[l.next].(active := false)]
  }

  /** The ladder after a pause was emitted at level `hrp`. */
  predicate EmitsPause(l: Ladder, r: Ladder, hrp: int, at: int)
    requires InRange(l)
  {
    && r.inFlight == l.inFlight + [PauseSignal(hrp, at)]
    && r.pauseSent == l.pauseSent + [hrp]
    && r.checkpoints == l.checkpoints[l.next := l.checkpoints[l.next].(active := true)]
  }

  /** No signal and no checkpoint change. */
  predicate Silent(l: Ladder, r: Ladder) {
    r.inFlight == l.inFlight && r.pauseSent == l.pauseSent && r.checkpoints == l.checkpoints
  }

  lemma StepDownPreserves(l: Ladder, qlimit: Option<nat>, bytes: int, at: int, rec: seq<int>)
    requires Inv(l, qlimit) && 0 <= bytes <= l.checkpoints[l.prev].thresh
    ensures InRange(l) && (ResumeFires(l) ==> l.pauseSent != [])
    ensures Inv(StepDown(l, at), qlimit)
    ensures Consistent(l, rec) ==> Consistent(StepDown(l, at), rec)
  {
    PopIsSafe(l, qlimit);
    var r := StepDown(l, at);
    assert l.prev != 0;
    if r.checkpoints[r.next].active {
      ActiveCountPositive(r.checkpoints, r.next);
    }
    if ResumeFires(l) {
      var cps := l.checkpoints;
      ActiveCountSet(cps, l.next, false);
      assert forall k :: 0 <= k < |cps| ==> r.checkpoints[k].thresh == cps[k].thresh;
      if Consistent(l, rec) {
        ApplySnoc(rec, l.inFlight, ResumeSignal(at));
      }
    }
  }

  lemma StepUpPreserves(l: Ladder, limit: nat, q: seq<Packet>, bytes: int, at: int, rec: seq<int>)
    requires Inv(l, Some(limit)) && bytes == Sum(q) <= limit && bytes > l.checkpoints[l.next].thresh
    ensures Inv(StepUp(l, q, at), Some(limit))
    ensures Consistent(l, rec) ==> Consistent(StepUp(l, q, at), rec)
    ensures PauseFires(l) && q != [] ==> HrpSpec(q, l.checkpoints[l.prev].thresh) >= 0
  {
    var cps := l.checkpoints;
    var r := StepUp(l, q, at);
    assert l.next != |cps| - 1;
    assert cps[l.prev].thresh <= cps[l.next].thresh;
    if r.checkpoints[r.next].active {
      ActiveCountPositive(r.checkpoints, r.next);
    }
    if PauseFires(l) {
      var hrp := HrpSpec(q, cps[l.prev].thresh);
      ActiveCountSet(cps, l.next, true);
      assert forall k :: 0 <= k < |cps| ==> r.checkpoints[k].thresh == cps[k].thresh;
      assert r.pauseSent == l.pauseSent + [hrp];
      if Consistent(l, rec) {
        ApplySnoc(rec, l.inFlight, PauseSignal(hrp, at));
      }
    }
  }

  /** The ladder check of `put` keeps the invariant and the stacks'
      agreement, moves the bracket by at most one step (down exactly
      when occupancy is at or below checkpoints[prev], up exactly when it
      is above checkpoints[next] and not at or below checkpoints[prev]),
      emits a resume exactly when a downward crossing meets a Resume
      checkpoint below an active one, emits a pause at the HRP exactly
      when an upward crossing meets an inactive Pause checkpoint, and
      otherwise sends nothing and changes no checkpoint. */
  lemma AfterPutEffects(l: Ladder, limit: nat, q: seq<Packet>, bytes: int, at: int, rec: seq<int>)
    requires Inv(l, Some(limit)) && 0 <= bytes && bytes == Sum(q) <= limit
    ensures InRange(l) && (ResumeFires(l) ==> l.pauseSent != [])
    ensures var r := AfterPut(l, q, bytes, at);
      && Inv(r, Some(limit))
      && (Consistent(l, rec) ==> Consistent(r, rec))
      && (r.prev == l.prev - 1 <==> bytes <= l.checkpoints[l.prev].thresh)
      && (r.prev == l.prev + 1 <==> l.checkpoints[l.prev].thresh < bytes && l.checkpoints[l.next].thresh < bytes)
      && (r.prev == l.prev <==> l.checkpoints[l.prev].thresh < bytes <= l.checkpoints[l.next].thresh)
  {
    PopIsSafe(l, Some(limit));
    if bytes <= l.checkpoints[l.prev].thresh {
      StepDownPreserves(l, Some(limit), bytes, at, rec);
    } else if bytes > l.checkpoints[l.next].thresh {
      StepUpPreserves(l, limit, q, bytes, at, rec);
    }
  }

  /** The part of `AfterPutEffects` the port class needs. */
  lemma AfterPutKeeps(l: Ladder, limit: nat, q: seq<Packet>, bytes: int, at: int, rec: seq<int>)
    requires Inv(l, Some(limit)) && Consistent(l, rec) && 0 <= bytes && bytes == Sum(q) <= limit
    ensures InRange(l) && (ResumeFires(l) ==> l.pauseSent != [])
    ensures Wired(AfterPut(l, q, bytes, at), Some(limit), rec)
  {
    AfterPutEffects(l, limit, q, bytes, at, rec);
  }

  /** Which signal, if any, the ladder check of `put` sends. */
  lemma AfterPutSignals(l: Ladder, limit: nat, q: seq<Packet>, bytes: int, at: int)
    requires Inv(l, Some(limit))
    ensures InRange(l) && (ResumeFires(l) ==> l.pauseSent != [])
    ensures var r := AfterPut(l, q, bytes, at);
      var down := bytes <= l.checkpoints[l.prev].thresh;
      var up := !down && bytes > l.checkpoints[l.next].thresh;
      && |r.checkpoints| == |l.checkpoints|
      && (down && ResumeFires(l) ==> EmitsResume(l, r, at))
      && (up && PauseFires(l) ==> EmitsPause(l, r, HrpSpec(q, l.checkpoints[l.prev].thresh), at))
      && (!(down && ResumeFires(l)) && !(up && PauseFires(l)) ==> Silent(l, r))
  {
    PopIsSafe(l, Some(limit));
  }

  /** The ladder check of `send_pkt` keeps the invariant and the stacks'
      agreement and never moves the bracket up: it moves it down exactly
      when occupancy is at or below checkpoints[prev], and emits a resume
      exactly when that happens at a Resume checkpoint below an active one. */
  lemma AfterSendEffects(l: Ladder, qlimit: Option<nat>, bytes: int, at: int, rec: seq<int>)
    requires Inv(l, qlimit) && 0 <= bytes
    ensures InRange(l) && (ResumeFires(l) ==> l.pauseSent != [])
    ensures var r := AfterSend(l, bytes, at);
      var down := bytes <= l.checkpoints[l.prev].thresh;
      && Inv(r, qlimit)
      && (Consistent(l, rec) ==> Consistent(r, rec))
      && (down ==> r.prev == l.prev - 1)
      && (!down ==> r == l)
      && |r.checkpoints| == |l.checkpoints|
      && (down && ResumeFires(l) ==> EmitsResume(l, r, at))
      && (!(down && ResumeFires(l)) ==> Silent(l, r))
  {
    PopIsSafe(l, qlimit);
    if bytes <= l.checkpoints[l.prev].thresh {
      StepDownPreserves(l, qlimit, bytes, at, rec);
    }
  }

  /** The part of `AfterSendEffects` the port class needs. */
  lemma AfterSendKeeps(l: Ladder, qlimit: Option<nat>, bytes: int, at: int, rec: seq<int>)
    requires Inv(l, qlimit) && Consistent(l, rec) && 0 <= bytes
    ensures InRange(l) && (ResumeFires(l) ==> l.pauseSent != [])
    ensures Wired(AfterSend(l, bytes, at), qlimit, rec)
  {
    AfterSendEffects(l, qlimit, bytes, at, rec);
  }

  // ---------------------------------------------------------------------
  // Pause levels
  // ---------------------------------------------------------------------

  /** Every asserted pause carries a priority level (at least 0). */
  predicate Levels(l: Ladder) {
    forall k :: 0 <= k < |l.pauseSent| ==> l.pauseSent[k] >= 0
  }

  /** Every checkpoint above the sentinel has a non-negative threshold. */
  predicate NonNegativeAbove(cps: seq<Checkpoint>) {
    forall k :: 1 <= k < |cps| ==> cps[k].thresh >= 0
  }

  /** A pause is asserted only above a non-negative threshold, so the
      occupancy that triggers it is positive and the HRP scan finds a
      crossing: on a ladder whose entries above the sentinel are
      non-negative, the ladder check of `put` never pushes -1. */
  lemma {:induction false} AfterPutLevels(l: Ladder, limit: nat, q: seq<Packet>, bytes: int, at: int)
    requires Inv(l, Some(limit)) && NonNegativeAbove(l.checkpoints) && Levels(l)
    requires 0 <= bytes && bytes == Sum(q) <= limit
    ensures InRange(l) && (ResumeFires(l) ==> l.pauseSent != [])
    ensures var r := AfterPut(l, q, bytes, at);
      NonNegativeAbove(r.checkpoints) && Levels(r)
  {
    PopIsSafe(l, Some(limit));
    var cps := l.checkpoints;
    if bytes <= cps[l.prev].thresh {
      StepDownLevels(l, at);
    } else if bytes > cps[l.next].thresh && PauseFires(l) {
      assert cps[l.prev].thresh <= cps[l.next].thresh;
      var hrp := HrpSpec(q, cps[l.prev].thresh);
      var r := StepUp(l, q, at);
      assert r.pauseSent == l.pauseSent + [hrp];
      assert forall k :: 0 <= k < |cps| ==> r.checkpoints[k].thresh == cps[k].thresh;
    }
  }

  /** The ladder check of `send_pkt` only ever pops a level. */
  lemma {:induction false} AfterSendLevels(l: Ladder, qlimit: Option<nat>, bytes: int, at: int)
    requires Inv(l, qlimit) && NonNegativeAbove(l.checkpoints) && Levels(l)
    ensures InRange(l) && (ResumeFires(l) ==> l.pauseSent != [])
    ensures var r := AfterSend(l, bytes, at);
      NonNegativeAbove(r.checkpoints) && Levels(r)
  {
    PopIsSafe(l, qlimit);
    if bytes <= l.checkpoints[l.prev].thresh {
      StepDownLevels(l, at);
    }
  }

  lemma {:induction false} StepDownLevels(l: Ladder, at: int)
    requires InRange(l) && (ResumeFires(l) ==> l.pauseSent != [])
    requires NonNegativeAbove(l.checkpoints) && Levels(l)
    ensures NonNegativeAbove(StepDown(l, at).checkpoints) && Levels(StepDown(l, at))
  {
    var r := StepDown(l, at);
    assert forall k :: 0 <= k < |l.checkpoints| ==> r.checkpoints[k].thresh == l.checkpoints[k].thresh;
    assert forall k :: 0 <= k < |r.pauseSent| ==> r.pauseSent[k] == l.pauseSent[k];
  }
}
