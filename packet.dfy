/** Packets and the ordering discipline of a switch output queue.

    Packets compare by priority only (`__eq__`/`__lt__` of the packet
    class), so two different packets may compare equal; every comparison
    below is written directly on `priority`. The queue is
    kept in ascending priority order by `bisect.insort_left`, which
    places a new packet to the left of every queued packet of the same
    priority; the port serves from the right end and evicts from the
    left end. */
module Packets {

  /** A packet. `time` is the (abstract, integer) arrival time at the
      output queue and `size` is in bytes. */
  datatype Packet = Packet(
    time: int, size: nat, id: int, src: string, dst: string, flowId: int, priority: nat)

  /** Total number of bytes of the packets in `q`. */
  function Sum(q: seq<Packet>): nat {
    if q == [] then 0 else q[0].size + Sum(q[1..])
  }

  lemma {:induction false} SumConcat(a: seq<Packet>, b: seq<Packet>)
    ensures Sum(a + b) == Sum(a) + Sum(b)
  {
    if a == [] {
      assert a + b == b;
    } else {
      assert (a + b)[1..] == a[1..] + b;
      SumConcat(a[1..], b);
    }
  }

  /** The bytes of the packets before index `i` plus those from `i` on. */
  lemma {:induction false} SumSplit(q: seq<Packet>, i: nat)
    requires i <= |q|
    ensures Sum(q) == Sum(q[..i]) + Sum(q[i..])
  {
    assert q == q[..i] + q[i..];
    SumConcat(q[..i], q[i..]);
  }

  /** Removing the last packet removes its size from the total. */
  lemma {:induction false} SumLast(q: seq<Packet>)
    requires q != []
    ensures Sum(q) == Sum(q[..|q| - 1]) + q[|q| - 1].size
  {
    SumSplit(q, |q| - 1);
    assert q[|q| - 1..] == [q[|q| - 1]];
  }

  /** Ascending by priority: the order `insort_left` keeps. */
  predicate Sorted(q: seq<Packet>) {
    forall i, j :: 0 <= i < j < |q| ==> q[i].priority <= q[j].priority
  }

  /** Where `bisect.bisect_left` puts a packet of priority `priority`:
      the first index whose packet is not strictly below it. */
  function BisectLeft(q: seq<Packet>, priority: nat): (i: nat)
    ensures i <= |q|
    ensures forall j :: 0 <= j < i ==> q[j].priority < priority
    ensures i < |q| ==> q[i].priority >= priority
    ensures Sorted(q) ==> forall j :: i <= j < |q| ==> q[j].priority >= priority
  {
    if q == [] || q[0].priority >= priority then 0 else 1 + BisectLeft(q[1..], priority)
  }

  /** `bisect.insort_left(queue, p)` as a value: `p` is placed after every
      packet of strictly lower priority, and taking it out again gives
      back the old queue unchanged. */
  function InsortLeft(q: seq<Packet>, p: Packet): (r: seq<Packet>)
    ensures |r| == |q| + 1
    ensures var i := BisectLeft(q, p.priority);
      && r[i] == p
      && r[..i] == q[..i] && r[i + 1..] == q[i..]
      && (forall j :: 0 <= j < i ==> r[j].priority < p.priority)
  {
    var i := BisectLeft(q, p.priority);
    var r := InsertAt(q, i, p);
    assert r[..i] == q[..i] && r[i + 1..] == q[i..];
    r
  }

  /** Inserting into a sorted queue keeps it sorted and puts the new
      packet before every queued packet of equal or higher priority. */
  lemma {:induction false} InsortLeftSorted(q: seq<Packet>, p: Packet)
    requires Sorted(q)
    ensures Sorted(InsortLeft(q, p))
    ensures forall j :: BisectLeft(q, p.priority) < j < |q| + 1 ==>
      InsortLeft(q, p)[j].priority >= p.priority
  {
    var i := BisectLeft(q, p.priority);
    InsertSorted(q, i, p);
    assert InsortLeft(q, p) == InsertAt(q, i, p);
  }

  /** Inserting at a position with nothing of higher priority before it
      and nothing of lower priority after it keeps a queue sorted. */
  lemma {:induction false} InsertSorted(q: seq<Packet>, i: nat, p: Packet)
    requires Sorted(q) && i <= |q|
    requires forall j :: 0 <= j < i ==> q[j].priority <= p.priority
    requires forall j :: i <= j < |q| ==> q[j].priority >= p.priority
    ensures Sorted(InsertAt(q, i, p))
    ensures forall j :: i < j < |q| + 1 ==> InsertAt(q, i, p)[j].priority >= p.priority
  {
    var r := InsertAt(q, i, p);
    forall x, y | 0 <= x < y < |r| ensures r[x].priority <= r[y].priority {
      if x == i {
        assert r[y] == q[y - 1];
      } else if y == i {
        assert r[x] == q[x];
      } else {
        var x' := if x < i then x else x - 1;
        var y' := if y < i then y else y - 1;
        assert r[x] == q[x'] && r[y] == q[y'];
      }
    }
  }

  /** The insertion adds exactly the new packet and exactly its bytes. */
  lemma {:induction false} InsortLeftContents(q: seq<Packet>, p: Packet)
    ensures multiset(InsortLeft(q, p)) == multiset(q) + multiset{p}
    ensures Sum(InsortLeft(q, p)) == Sum(q) + p.size
  {
    var i := BisectLeft(q, p.priority);
    var a, b := q[..i], q[i..];
    assert InsortLeft(q, p) == a + [p] + b;
    assert q == a + b;
    InsertSum(a, p, b);
  }

  /** Putting a packet between two lists adds its bytes to theirs. */
  lemma {:induction false} InsertSum(a: seq<Packet>, p: Packet, b: seq<Packet>)
    ensures Sum(a + [p] + b) == Sum(a + b) + p.size
  {
    SumConcat(a + [p], b);
    SumConcat(a, [p]);
    SumConcat(a, b);
    assert Sum([p]) == p.size by {
      assert [p][1..] == [];
    }
  }

  /** How many packets the drop-tail loop of `put` removes from the head
      of `q` to bring its total down to `limit`: the least `k` whose
      suffix fits, so that every removal was needed. */
  function DropCount(q: seq<Packet>, limit: nat): (k: nat)
    ensures k <= |q|
    ensures Sum(q[k..]) <= limit
    ensures forall j :: 0 <= j < k ==> Sum(q[j..]) > limit
    decreases |q|
  {
    if Sum(q) <= limit then 0
    else
      assert forall j :: 0 < j <= |q| ==> q[1..][j - 1..] == q[j..];
      1 + DropCount(q[1..], limit)
  }

  /** One round of the drop-tail loop: removing the head of an
      over-limit queue removes one from the drop count and the head's
      bytes from the total. */
  lemma DropOne(q: seq<Packet>, limit: nat)
    requires Sum(q) > limit
    ensures q != [] && DropCount(q, limit) == 1 + DropCount(q[1..], limit)
    ensures Sum(q[1..]) == Sum(q) - q[0].size
  {
  }

  /** Moving the boundary between a dropped prefix and the rest one step. */
  lemma SliceStep<T>(s: seq<T>, d: nat)
    requires d < |s|
    ensures s[..d + 1] == s[..d] + [s[d]] && s[d..][1..] == s[d + 1..]
  {
  }

  /** `arr[k]` is the ordinal at which `q[k]` was inserted. Every ordinal
      is below `count` (the number of insertions so far), and among
      packets of equal priority the one inserted later sits further left. */
  ghost predicate InsertionOrder(q: seq<Packet>, arr: seq<nat>, count: nat) {
    && |arr| == |q|
    && (forall k :: 0 <= k < |arr| ==> arr[k] < count)
    && forall i, j :: 0 <= i < j < |q| && q[i].priority == q[j].priority ==> arr[i] > arr[j]
  }

  /** The queue invariant of a port: sorted by priority, FIFO within a
      priority, and `bytes` is the total of queued bytes. */
  ghost predicate OrderedQueue(q: seq<Packet>, arr: seq<nat>, count: nat, bytes: int) {
    Sorted(q) && InsertionOrder(q, arr, count) && bytes == Sum(q)
  }

  function InsertAt<T>(s: seq<T>, i: nat, x: T): (r: seq<T>)
    requires i <= |s|
    ensures |r| == |s| + 1 && r[i] == x
    ensures forall k :: 0 <= k < i ==> r[k] == s[k]
    ensures forall k :: i < k < |r| ==> r[k] == s[k - 1]
  {
    s[..i] + [x] + s[i..]
  }

  /** Inserting the `count`-th packet with `insort_left` keeps the
      insertion order: the new packet goes left of all older packets of
      its priority. */
  lemma {:induction false} InsortLeftKeepsOrder(q: seq<Packet>, arr: seq<nat>, count: nat, p: Packet)
    requires Sorted(q) && InsertionOrder(q, arr, count)
    ensures InsertionOrder(InsortLeft(q, p), InsertAt(arr, BisectLeft(q, p.priority), count), count + 1)
  {
    var i := BisectLeft(q, p.priority);
    InsertKeepsOrder(q, arr, count, i, p);
    assert InsortLeft(q, p) == InsertAt(q, i, p);
  }

  /** Inserting the `count`-th packet after every packet of strictly
      lower priority, and no further right, keeps the insertion order. */
  lemma {:induction false} InsertKeepsOrder(q: seq<Packet>, arr: seq<nat>, count: nat, i: nat, p: Packet)
    requires InsertionOrder(q, arr, count) && i <= |q|
    requires forall j :: 0 <= j < i ==> q[j].priority < p.priority
    ensures InsertionOrder(InsertAt(q, i, p), InsertAt(arr, i, count), count + 1)
  {
    var r := InsertAt(q, i, p);
    var a := InsertAt(arr, i, count);
    forall k | 0 <= k < |a| ensures a[k] < count + 1 {
      if k < i { assert a[k] == arr[k]; } else if k > i { assert a[k] == arr[k - 1]; }
    }
    forall x, y | 0 <= x < y < |r| && r[x].priority == r[y].priority
      ensures a[x] > a[y]
    {
      if x == i {
        assert a[y] == arr[y - 1];
      } else if x < i && y < i {
        assert r[x] == q[x] && r[y] == q[y] && a[x] == arr[x] && a[y] == arr[y];
      } else if x < i && y > i {
        assert r[x] == q[x] && r[y] == q[y - 1] && a[x] == arr[x] && a[y] == arr[y - 1];
      } else if x > i {
        assert r[x] == q[x - 1] && r[y] == q[y - 1] && a[x] == arr[x - 1] && a[y] == arr[y - 1];
      } else {
        // y == i and x < i: r[x] has strictly lower priority than p
        assert false;
      }
    }
  }

  /** Everything the port's invariant needs about one insertion. */
  lemma {:induction false} InsortLeftOrdered(q: seq<Packet>, arr: seq<nat>, count: nat, p: Packet)
    requires Sorted(q) && InsertionOrder(q, arr, count)
    ensures Sorted(InsortLeft(q, p))
    ensures InsertionOrder(InsortLeft(q, p), InsertAt(arr, BisectLeft(q, p.priority), count), count + 1)
    ensures Sum(InsortLeft(q, p)) == Sum(q) + p.size
  {
    InsortLeftSorted(q, p);
    InsortLeftContents(q, p);
    InsortLeftKeepsOrder(q, arr, count, p);
  }

  /** A contiguous part of an ordered queue is ordered. */
  lemma {:induction false} OrderedSlice(q: seq<Packet>, arr: seq<nat>, count: nat, lo: nat, hi: nat)
    requires Sorted(q) && InsertionOrder(q, arr, count) && lo <= hi <= |q|
    ensures Sorted(q[lo..hi]) && InsertionOrder(q[lo..hi], arr[lo..hi], count)
  {
    var s, a := q[lo..hi], arr[lo..hi];
    assert forall k :: 0 <= k < |s| ==> s[k] == q[lo + k] && a[k] == arr[lo + k];
  }

  /** Removing a head (eviction) or a tail (service) keeps the queue invariant. */
  lemma {:induction false} OrderedSuffix(q: seq<Packet>, arr: seq<nat>, count: nat, bytes: int, k: nat)
    requires OrderedQueue(q, arr, count, bytes) && k <= |q|
    ensures OrderedQueue(q[k..], arr[k..], count, Sum(q[k..]))
  {
    OrderedSlice(q, arr, count, k, |q|);
    assert q[k..|q|] == q[k..] && arr[k..|q|] == arr[k..];
  }

  lemma {:induction false} OrderedPrefix(q: seq<Packet>, arr: seq<nat>, count: nat, bytes: int)
    requires OrderedQueue(q, arr, count, bytes) && q != []
    ensures OrderedQueue(q[..|q| - 1], arr[..|q| - 1], count, bytes - q[|q| - 1].size)
  {
    OrderedSlice(q, arr, count, 0, |q| - 1);
    assert q[0..|q| - 1] == q[..|q| - 1] && arr[0..|q| - 1] == arr[..|q| - 1];
    SumLast(q);
  }

  /** The packet served from the tail has the highest priority in the
      queue and, among packets of that priority, the earliest insertion. */
  lemma {:induction false} TailIsOldestOfHighest(q: seq<Packet>, arr: seq<nat>, count: nat)
    requires Sorted(q) && InsertionOrder(q, arr, count) && q != []
    ensures forall j :: 0 <= j < |q| ==> q[j].priority <= q[|q| - 1].priority
    ensures forall j :: 0 <= j < |q| - 1 && q[j].priority == q[|q| - 1].priority ==> arr[j] > arr[|q| - 1]
  {
  }

  /** The packet evicted from the head has the lowest priority in the
      queue and, among packets of that priority, the LATEST insertion. */
  lemma {:induction false} HeadIsNewestOfLowest(q: seq<Packet>, arr: seq<nat>, count: nat)
    requires Sorted(q) && InsertionOrder(q, arr, count) && q != []
    ensures forall j :: 0 <= j < |q| ==> q[0].priority <= q[j].priority
    ensures forall j :: 0 < j < |q| && q[j].priority == q[0].priority ==> arr[j] < arr[0]
  {
  }
}
