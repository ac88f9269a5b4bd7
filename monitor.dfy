/** The values the port monitor records at each sampling instant: the
    time, the occupancy in bytes, the bytes queued at each priority, the
    level of the most recent pause sent (or -1) and the drop count. The
    trace file they are written to is not modelled. */
module Monitor {
  import opened Wrappers
  import opened Packets
  import opened Checkpoints
  import opened CheckpointLadder
  import SwitchPort

  datatype Sample = Sample(time: int, byteSize: int, makeup: seq<int>, pause: int, drops: nat)

  /** Bytes of the packets in `q` whose priority is `prio`: the sum of
      the monitor's per-priority sub-list. */
  function PrioritySum(q: seq<Packet>, prio: int): (s: nat)
    ensures s <= Sum(q)
    ensures (forall k :: 0 <= k < |q| ==> q[k].priority != prio) ==> s == 0
    ensures (forall k :: 0 <= k < |q| ==> q[k].priority == prio) ==> s == Sum(q)
  {
    if q == [] then 0 else (if q[0].priority == prio then q[0].size else 0) + PrioritySum(q[1..], prio)
  }

  /** The per-priority sums for priorities `0 .. n - 1`, added up. */
  function PrioritiesSum(q: seq<Packet>, n: nat): int {
    if n == 0 then 0 else PrioritiesSum(q, n - 1) + PrioritySum(q, n - 1)
  }

  /** Sum of a list of integers, last element last. */
  function Total(m: seq<int>): int {
    if m == [] then 0 else Total(m[..|m| - 1]) + m[|m| - 1]
  }

  /** Peeling the first packet off every per-priority sum at once. */
  lemma {:induction false} PrioritiesSumCons(q: seq<Packet>, n: nat)
    requires q != []
    ensures PrioritiesSum(q, n) == PrioritiesSum(q[1..], n) + (if q[0].priority < n then q[0].size else 0)
  {
    if n > 0 {
      PrioritiesSumCons(q, n - 1);
    }
  }

  /** When every queued priority is one of the `n` monitored ones, the
      per-priority sums add up to the total of queued bytes. */
  lemma {:induction false} PrioritiesSumAll(q: seq<Packet>, n: nat)
    requires forall k :: 0 <= k < |q| ==> q[k].priority < n
    ensures PrioritiesSum(q, n) == Sum(q)
  {
    if q == [] {
      PrioritiesSumEmpty(q, n);
    } else {
      PrioritiesSumCons(q, n);
      PrioritiesSumAll(q[1..], n);
    }
  }

  lemma {:induction false} PrioritiesSumEmpty(q: seq<Packet>, n: nat)
    requires q == []
    ensures PrioritiesSum(q, n) == 0
  {
    if n > 0 {
      PrioritiesSumEmpty(q, n - 1);
    }
  }

  /** A makeup list holding the per-priority sums totals the sum of them. */
  lemma {:induction false} MakeupTotal(m: seq<int>, q: seq<Packet>)
    requires forall p :: 0 <= p < |m| ==> m[p] == PrioritySum(q, p)
    ensures Total(m) == PrioritiesSum(q, |m|)
  {
    if m != [] {
      MakeupTotal(m[..|m| - 1], q);
    }
  }

  /** The pause column of the trace: the last level sent, or -1. */
  function PauseReport(pauseSent: seq<int>): int {
    if pauseSent == [] then -1 else pauseSent[|pauseSent| - 1]
  }

  /** On a ladder that keeps its invariant and whose asserted levels
      are priorities, the trace's -1 means exactly that no checkpoint's
      pause is asserted; otherwise the column is the latest level. */
  lemma PauseReportMeaning(l: Ladder, qlimit: Option<nat>)
    requires Inv(l, qlimit) && Levels(l)
    ensures PauseReport(l.pauseSent) == -1 <==> ActiveCount(l.checkpoints) == 0
    ensures PauseReport(l.pauseSent) >= -1
  {
  }

  /** One sampling instant of the monitor on `port` at time `now`, with
      `numPriorities` monitored priority levels. */
  method TakeSample(port: SwitchPort.PrioritySwitchPort, now: int, numPriorities: nat) returns (s: Sample)
    ensures s.time == now && s.byteSize == port.byteSize && s.drops == port.packetsDrop
    ensures |s.makeup| == numPriorities
    ensures forall p :: 0 <= p < numPriorities ==> s.makeup[p] == PrioritySum(port.queue, p)
    ensures s.pause == PauseReport(port.pauseSent)
    ensures port.QueueValid() && (forall k :: 0 <= k < |port.queue| ==> port.queue[k].priority < numPriorities)
      ==> Total(s.makeup) == s.byteSize
  {
    var makeup: seq<int> := [];
    for prio := 0 to numPriorities
      invariant |makeup| == prio
      invariant forall p :: 0 <= p < prio ==> makeup[p] == PrioritySum(port.queue, p)
    {
      makeup := makeup + [PrioritySum(port.queue, prio)];
    }
    var pause := if port.pauseSent != [] then port.pauseSent[|port.pauseSent| - 1] else -1;
    s := Sample(now, port.byteSize, makeup, pause, port.packetsDrop);
    MakeupTotal(makeup, port.queue);
    if port.QueueValid() && (forall k :: 0 <= k < |port.queue| ==> port.queue[k].priority < numPriorities) {
      PrioritiesSumAll(port.queue, numPriorities);
    }
  }
}
