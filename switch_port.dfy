/** A priority switch output port: a byte-limited queue kept in
    ascending priority order, served from the high-priority end, with
    drop-tail eviction from the low-priority end and, when pause is
    enabled, a checkpoint ladder that sends delayed pause/resume signals
    to the upstream port `back`.

    Simulation time is an integer passed to each step; a signal sent at
    time `now` is delivered at `now + linkDelay`. Pending signals are
    the list `inFlight` (oldest first); `DeliverSignal` applies the
    oldest one to the upstream port. The event that wakes a service
    loop blocked on a pause is the flag `waiting`. */
module SwitchPort {
  import opened Wrappers
  import opened Packets
  import opened Checkpoints
  import opened CheckpointLadder

  /** The drop-tail loop on the queue's contents: while the total
      exceeds `limit`, subtract the head packet's bytes and move it to
      `dropped`. The packets removed are exactly the shortest head of
      `q` whose removal brings the total within the limit. */
  method DropHeads(q: seq<Packet>, bytes: int, limit: nat) returns (kept: seq<Packet>, dropped: seq<Packet>, rest: int)
    requires bytes == Sum(q)
    ensures var k := DropCount(q, limit); kept == q[k..] && dropped == q[..k]
    ensures rest == Sum(kept) && rest <= limit
  {
    kept, dropped, rest := q, [], bytes;
    ghost var d := 0;
    while rest > limit
      invariant 0 <= d <= |q| && kept == q[d..] && dropped == q[..d]
      invariant rest == Sum(kept)
      invariant DropCount(q, limit) == d + DropCount(kept, limit)
      decreases |kept|
    {
      DropOne(kept, limit);
      SliceStep(q, d);
      rest := rest - kept[0].size;
      dropped := dropped + [kept[0]];
      kept := kept[1..];
      d := d + 1;
    }
    assert DropCount(kept, limit) == 0;
  }

  class PrioritySwitchPort {
    var queue: seq<Packet>
    /** Insertion ordinal of each queued packet (parallel to `queue`). */
    ghost var arrivals: seq<nat>
    var byteSize: int
    const qlimit: Option<nat>
    const pause: bool
    var packetsRec: nat
    var packetsDrop: nat
    var dropList: seq<Packet>
    var checkpoints: seq<Checkpoint>
    var prevCp: int
    var nextCp: int
    var pauseSent: seq<int>
    var pauseRec: seq<int>
    var linkDelay: int
    var back: PrioritySwitchPort?
    /** Signals scheduled by `send_pause`/`send_resume`, not yet delivered. */
    var inFlight: seq<Signal>
    /** The service loop is suspended until `unpause_check` succeeds. */
    var waiting: bool

    function LadderState(): Ladder
      reads this`checkpoints, this`prevCp, this`nextCp, this`pauseSent, this`inFlight
    {
      Ladder(checkpoints, prevCp, nextCp, pauseSent, inFlight)
    }

    /** The queue is sorted by priority, FIFO within a priority (newest
        leftmost), and `byteSize` is the total of queued bytes. */
    ghost predicate Ordered()
      reads this`queue, this`arrivals, this`packetsRec, this`byteSize
    {
      OrderedQueue(queue, arrivals, packetsRec, byteSize)
    }

    /** ... and the occupancy is within the byte limit whenever there is one. */
    ghost predicate QueueValid()
      reads this`queue, this`arrivals, this`packetsRec, this`byteSize
    {
      Ordered() && (qlimit.Some? ==> byteSize <= qlimit.value)
    }

    /** A port ready to run: a pause port is wired to an upstream port,
        its ladder keeps its invariant, and its pause stack agrees with
        the upstream port's once in-flight signals are delivered. */
    ghost predicate Valid()
      reads this, back
    {
      && QueueValid()
      && (pause ==>
            && back != null && back != this
            && Wired(LadderState(), qlimit, back.pauseRec))
    }

    constructor (qlimit: Option<nat>, pause: bool)
      ensures this.qlimit == qlimit && this.pause == pause
      ensures queue == [] && byteSize == 0 && packetsRec == 0 && packetsDrop == 0 && dropList == []
      ensures checkpoints == [] && prevCp == 0 && nextCp == 1
      ensures pauseSent == [] && pauseRec == [] && inFlight == [] && !waiting
      ensures linkDelay == 0 && back == null
      ensures QueueValid()
      ensures !pause ==> Valid()
    {
      this.qlimit := qlimit;
      this.pause := pause;
      queue := [];
      arrivals := [];
      byteSize := 0;
      packetsRec := 0;
      packetsDrop := 0;
      dropList := [];
      checkpoints := [];
      prevCp := 0;
      nextCp := 1;
      pauseSent := [];
      pauseRec := [];
      linkDelay := 0;
      back := null;
      inFlight := [];
      waiting := false;
    }

    /** Handing a port its ladder, link delay and upstream port, as
        generate.py does before the run starts. */
    method Wire(cps: seq<Checkpoint>, delay: int, upstream: PrioritySwitchPort)
      requires QueueValid() && pause
      requires prevCp == 0 && nextCp == 1 && pauseSent == [] && inFlight == []
      requires WellFormed(cps, qlimit)
      requires upstream != this && upstream.pauseRec == []
      modifies this`checkpoints, this`linkDelay, this`back
      ensures checkpoints == cps && linkDelay == delay && back == upstream
      ensures Valid()
    {
      checkpoints := cps;
      linkDelay := delay;
      back := upstream;
      InitialLadder(cps, qlimit);
    }

    /** The downward branch of the ladder check (the same code in `put`
        and `send_pkt`). */
    method MoveDown(now: int)
      requires InRange(LadderState()) && (ResumeFires(LadderState()) ==> pauseSent != [])
      modifies this`checkpoints, this`prevCp, this`nextCp, this`pauseSent, this`inFlight
      ensures LadderState() == StepDown(old(LadderState()), now + linkDelay)
    {
      if checkpoints[prevCp].action == Resume && checkpoints[nextCp].active {
        checkpoints := checkpoints[nextCp := checkpoints[nextCp].(active := false)];
        pauseSent := pauseSent[..|pauseSent| - 1];
        inFlight := inFlight + [ResumeSignal(now + linkDelay)];
      }
      prevCp := prevCp - 1;
      nextCp := nextCp - 1;
    }

    /** The upward branch of the ladder check in `put`. */
    method MoveUp(now: int)
      requires InRange(LadderState())
      modifies this`checkpoints, this`prevCp, this`nextCp, this`pauseSent, this`inFlight
      ensures LadderState() == StepUp(old(LadderState()), queue, now + linkDelay)
    {
      if checkpoints[nextCp].action == Pause && !checkpoints[nextCp].active {
        var hrp := Hrp(queue, checkpoints[prevCp].thresh);
        checkpoints := checkpoints[nextCp := checkpoints[nextCp].(active := true)];
        pauseSent := pauseSent + [hrp];
        inFlight := inFlight + [PauseSignal(hrp, now + linkDelay)];
      }
      prevCp := prevCp + 1;
      nextCp := nextCp + 1;
    }

    /** The first half of `put`: count the packet, add its bytes, insert
        it with `insort_left` and wake a blocked service loop. */
    method Insert(pkt: Packet)
      requires Ordered()
      modifies this`packetsRec, this`byteSize, this`queue, this`arrivals, this`waiting
      ensures Ordered()
      ensures packetsRec == old(packetsRec) + 1 && !waiting
      ensures queue == InsortLeft(old(queue), pkt) && byteSize == old(byteSize) + pkt.size
      ensures arrivals == InsertAt(old(arrivals), BisectLeft(old(queue), pkt.priority), old(packetsRec))
    {
      InsortLeftOrdered(queue, arrivals, packetsRec, pkt);
      arrivals := InsertAt(arrivals, BisectLeft(queue, pkt.priority), packetsRec);
      packetsRec := packetsRec + 1;
      byteSize := byteSize + pkt.size;
      queue := InsortLeft(queue, pkt);
      waiting := false;
    }

    /** The drop-tail loop of `put`: while over the byte limit, count a
        drop, subtract the head packet's bytes, record it and delete it. */
    method Evict()
      requires Ordered() && qlimit.Some?
      modifies this`packetsDrop, this`byteSize, this`dropList, this`queue, this`arrivals
      ensures QueueValid()
      ensures var k := DropCount(old(queue), qlimit.value);
        && queue == old(queue)[k..] && arrivals == old(arrivals)[k..]
        && dropList == old(dropList) + old(queue)[..k]
        && packetsDrop == old(packetsDrop) + k
    {
      var kept, dropped, bytes := DropHeads(queue, byteSize, qlimit.value);
      OrderedSuffix(queue, arrivals, packetsRec, byteSize, |dropped|);
      arrivals := arrivals[|dropped|..];
      queue, byteSize := kept, bytes;
      packetsDrop := packetsDrop + |dropped|;
      dropList := dropList + dropped;
    }

    /** Enqueue a packet at time `now`: the insertion, then (only when
        there is a byte limit) the drop-tail loop and the ladder check. */
    method Put(pkt: Packet, now: int)
      requires Valid()
      modifies this`packetsRec, this`byteSize, this`queue, this`arrivals, this`waiting, this`packetsDrop, this`dropList
      modifies this`checkpoints, this`prevCp, this`nextCp, this`pauseSent, this`inFlight
      ensures Valid()
      ensures packetsRec == old(packetsRec) + 1 && !waiting
      ensures qlimit.None? ==>
        && queue == InsortLeft(old(queue), pkt)
        && arrivals == InsertAt(old(arrivals), BisectLeft(old(queue), pkt.priority), old(packetsRec))
        && byteSize == old(byteSize) + pkt.size
        && dropList == old(dropList) && packetsDrop == old(packetsDrop)
        && LadderState() == old(LadderState())
      ensures qlimit.Some? ==>
        var ins := InsortLeft(old(queue), pkt);
        var k := DropCount(ins, qlimit.value);
        && queue == ins[k..]
        && arrivals == InsertAt(old(arrivals), BisectLeft(old(queue), pkt.priority), old(packetsRec))[k..]
        && dropList == old(dropList) + ins[..k]
        && packetsDrop == old(packetsDrop) + k
        && byteSize <= qlimit.value
        && (forall i, j :: 0 <= i < k <= j < |ins| ==> ins[i].priority <= ins[j].priority)
        && LadderState() == if pause then AfterPut(old(LadderState()), queue, byteSize, now + linkDelay)
                            else old(LadderState())
    {
      ghost var l0 := LadderState();
      Insert(pkt);
      assert LadderState() == l0;
      if qlimit.None? {
        return;
      }
      Trim(now);
    }

    /** The part of `put` that runs only under a byte limit: the drop-tail
        loop, then (on a pause port) the ladder check. */
    method Trim(now: int)
      requires qlimit.Some? && Ordered()
      requires pause ==> back != null && back != this && Wired(LadderState(), qlimit, back.pauseRec)
      modifies this`byteSize, this`queue, this`arrivals, this`packetsDrop, this`dropList
      modifies this`checkpoints, this`prevCp, this`nextCp, this`pauseSent, this`inFlight
      ensures Valid()
      ensures var k := DropCount(old(queue), qlimit.value);
        && queue == old(queue)[k..] && arrivals == old(arrivals)[k..]
        && dropList == old(dropList) + old(queue)[..k]
        && packetsDrop == old(packetsDrop) + k
        && (forall i, j :: 0 <= i < k <= j < |old(queue)| ==> old(queue)[i].priority <= old(queue)[j].priority)
      ensures LadderState() == if pause then AfterPut(old(LadderState()), queue, byteSize, now + linkDelay)
                               else old(LadderState())
    {
      ghost var l0 := LadderState();
      Evict();
      assert LadderState() == l0;
      if pause {
        LadderPut(now);
      }
    }

    /** The ladder check at the end of `put`: one step down when the
        occupancy is at or below the previous checkpoint, one step up when
        it is above the next one, otherwise nothing. */
    method CheckLadder(now: int)
      requires InRange(LadderState()) && (ResumeFires(LadderState()) ==> pauseSent != [])
      modifies this`checkpoints, this`prevCp, this`nextCp, this`pauseSent, this`inFlight
      ensures LadderState() == AfterPut(old(LadderState()), queue, byteSize, now + linkDelay)
    {
      if byteSize <= checkpoints[prevCp].thresh {
        MoveDown(now);
      } else if byteSize > checkpoints[nextCp].thresh {
        MoveUp(now);
      }
    }

    /** The ladder check of `put` on a wired port whose queue is
        within its limit: it keeps the port valid. */
    method LadderPut(now: int)
      requires qlimit.Some? && QueueValid() && pause
      requires back != null && back != this && Wired(LadderState(), qlimit, back.pauseRec)
      modifies this`checkpoints, this`prevCp, this`nextCp, this`pauseSent, this`inFlight
      ensures Valid()
      ensures LadderState() == AfterPut(old(LadderState()), queue, byteSize, now + linkDelay)
    {
      AfterPutKeeps(LadderState(), qlimit.value, queue, byteSize, now + linkDelay, back.pauseRec);
      CheckLadder(now);
    }

    /** `send_pkt`: dequeue the last (highest-priority, earliest-inserted)
        packet, subtract its bytes, run the downward ladder check, and
        hand the packet on (to the caller, standing for `out`). */
    method SendPkt(now: int) returns (pkt: Packet)
      requires Valid() && queue != []
      modifies this`queue, this`arrivals, this`byteSize
      modifies this`checkpoints, this`prevCp, this`nextCp, this`pauseSent, this`inFlight
      ensures Valid()
      ensures pkt == old(queue)[|old(queue)| - 1] && queue == old(queue)[..|old(queue)| - 1]
      ensures arrivals == old(arrivals)[..|old(arrivals)| - 1]
      ensures byteSize == old(byteSize) - pkt.size
      ensures forall j :: 0 <= j < |old(queue)| ==> old(queue)[j].priority <= pkt.priority
      ensures forall j :: 0 <= j < |old(queue)| - 1 && old(queue)[j].priority == pkt.priority ==>
        old(arrivals)[j] > old(arrivals)[|old(queue)| - 1]
      ensures LadderState() == if pause then AfterSend(old(LadderState()), byteSize, now + linkDelay)
                               else old(LadderState())
    {
      ghost var l0 := LadderState();
      pkt := PopTail();
      if pause {
        AfterSendKeeps(l0, qlimit, byteSize, now + linkDelay, back.pauseRec);
        if byteSize <= checkpoints[prevCp].thresh {
          MoveDown(now);
        }
      }
    }

    /** The queue half of `send_pkt`: pop the tail and subtract its bytes. */
    method PopTail() returns (pkt: Packet)
      requires QueueValid() && queue != []
      modifies this`queue, this`arrivals, this`byteSize
      ensures QueueValid()
      ensures pkt == old(queue)[|old(queue)| - 1] && queue == old(queue)[..|old(queue)| - 1]
      ensures arrivals == old(arrivals)[..|old(arrivals)| - 1]
      ensures byteSize == old(byteSize) - pkt.size
      ensures forall j :: 0 <= j < |old(queue)| ==> old(queue)[j].priority <= pkt.priority
      ensures forall j :: 0 <= j < |old(queue)| - 1 && old(queue)[j].priority == pkt.priority ==>
        old(arrivals)[j] > old(arrivals)[|old(queue)| - 1]
    {
      TailIsOldestOfHighest(queue, arrivals, packetsRec);
      OrderedPrefix(queue, arrivals, packetsRec, byteSize);
      pkt := queue[|queue| - 1];
      queue := queue[..|queue| - 1];
      arrivals := arrivals[..|arrivals| - 1];
      byteSize := byteSize - pkt.size;
    }

    /** True when the service loop may not send the head-of-line packet:
        a pause has been received and the packet's priority is not above
        the most recently received level. */
    predicate Gated()
      reads this
      requires queue != []
    {
      pauseRec != [] && queue[|queue| - 1].priority <= pauseRec[|pauseRec| - 1]
    }

    /** One pass of the service loop `run` after it has taken a token
        (so the queue is non-empty): either send the head-of-line packet
        or put the token back and wait for `unpause_check`. */
    method ServeStep(now: int) returns (sent: Option<Packet>)
      requires Valid() && queue != [] && !waiting
      modifies this`queue, this`arrivals, this`byteSize, this`waiting
      modifies this`checkpoints, this`prevCp, this`nextCp, this`pauseSent, this`inFlight
      ensures Valid()
      ensures old(Gated()) ==>
        && sent == None && waiting
        && queue == old(queue) && arrivals == old(arrivals)
        && byteSize == old(byteSize) && LadderState() == old(LadderState())
      ensures !old(Gated()) ==>
        && sent == Some(old(queue)[|old(queue)| - 1])
        && queue == old(queue)[..|old(queue)| - 1]
        && arrivals == old(arrivals)[..|old(arrivals)| - 1]
        && byteSize == old(byteSize) - sent.value.size
        && (old(pauseRec) != [] ==> sent.value.priority > old(pauseRec)[|old(pauseRec)| - 1])
        && !waiting
        && LadderState() == if pause then AfterSend(old(LadderState()), byteSize, now + linkDelay)
                            else old(LadderState())
    {
      var pkt := queue[|queue| - 1];
      if pauseRec != [] && pkt.priority <= pauseRec[|pauseRec| - 1] {
        waiting := true;
        sent := None;
      } else {
        var p := SendPkt(now);
        sent := Some(p);
      }
    }

    /** The delayed effect of the oldest in-flight signal on the upstream
        port: `send_pause` pushes its level onto `back.pause_rec`;
        `send_resume` pops it and wakes the upstream service loop. */
    method DeliverSignal()
      requires Valid() && pause && inFlight != []
      modifies this`inFlight, back`pauseRec, back`waiting
      ensures Valid()
      ensures inFlight == old(inFlight)[1..]
      ensures old(inFlight)[0].PauseSignal? ==>
        back.pauseRec == old(back.pauseRec) + [old(inFlight)[0].level] && back.waiting == old(back.waiting)
      ensures old(inFlight)[0].ResumeSignal? ==>
        old(back.pauseRec) != [] && back.pauseRec == old(back.pauseRec)[..|old(back.pauseRec)| - 1] && !back.waiting
    {
      DeliverOldest(LadderState(), back.pauseRec);
      var s := inFlight[0];
      inFlight := inFlight[1..];
      match s
      case PauseSignal(level, _) =>
        back.pauseRec := back.pauseRec + [level];
      case ResumeSignal(_) =>
        back.pauseRec := back.pauseRec[..|back.pauseRec| - 1];
        back.waiting := false;
    }
  }
}
