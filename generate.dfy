/** The experiment's ladder construction and wiring: a sentinel
    checkpoint below any occupancy, one at the byte limit, a Resume
    checkpoint at every even-indexed packet threshold and a Pause
    checkpoint at every odd-indexed one (each scaled by the packet size),
    then a stable sort by threshold; the sorted ladder, the link delay
    and the upstream port are handed to the second switch port. */
module Generate {
  import opened Wrappers
  import opened Checkpoints
  import opened CheckpointLadder
  import SwitchPort

  // ---------------------------------------------------------------------
  // The entries before sorting
  // ---------------------------------------------------------------------

  /** The checkpoint built for threshold index `k`. */
  function Rung(t: seq<int>, size: int, k: nat): Checkpoint
    requires k < |t|
  {
    Checkpoint(t[k] * size, if k % 2 == 0 then Resume else Pause, false)
  }

  /** The rungs one of the two `for` loops appends, starting at `i` and
      stepping by two. */
  function Stride(t: seq<int>, size: int, i: nat): seq<Checkpoint>
    decreases |t| - i
  {
    if i >= |t| then [] else [Rung(t, size, i)] + Stride(t, size, i + 2)
  }

  /** All rungs from index `i` on, in threshold-index order. */
  function RungsFrom(t: seq<int>, size: int, i: nat): (r: seq<Checkpoint>)
    ensures |r| == if i <= |t| then |t| - i else 0
    ensures forall k :: 0 <= k < |r| ==> r[k] == Rung(t, size, i + k)
    decreases |t| - i
  {
    if i >= |t| then [] else [Rung(t, size, i)] + RungsFrom(t, size, i + 1)
  }

  /** The two checkpoints every ladder starts with. */
  function Base(qlimit: int): seq<Checkpoint> {
    [Checkpoint(-1, NoAction, false), Checkpoint(qlimit, NoAction, false)]
  }

  /** The list just before `checkpoints.sort()`. */
  function Unsorted(qlimit: int, t: seq<int>, size: int): seq<Checkpoint> {
    Base(qlimit) + Stride(t, size, 0) + Stride(t, size, 1)
  }

  /** Together the two loops produce every rung exactly once. */
  lemma {:induction false} StridesAreRungs(t: seq<int>, size: int, i: nat)
    ensures multiset(Stride(t, size, i) + Stride(t, size, i + 1)) == multiset(RungsFrom(t, size, i))
    decreases |t| - i
  {
    if i < |t| {
      StridesAreRungs(t, size, i + 1);
      assert Stride(t, size, i) == [Rung(t, size, i)] + Stride(t, size, i + 2);
      assert RungsFrom(t, size, i) == [Rung(t, size, i)] + RungsFrom(t, size, i + 1);
    }
  }

  /** A freshly built checkpoint is not active. */
  lemma {:induction false} StrideInactive(t: seq<int>, size: int, i: nat)
    ensures forall k :: 0 <= k < |Stride(t, size, i)| ==> !Stride(t, size, i)[k].active
    decreases |t| - i
  {
    if i < |t| {
      StrideInactive(t, size, i + 2);
      var s := Stride(t, size, i);
      assert forall k :: 1 <= k < |s| ==> s[k] == Stride(t, size, i + 2)[k - 1];
    }
  }

  /** The list before sorting starts with the two fixed entries and has
      nothing active. */
  lemma {:induction false} UnsortedShape(qlimit: int, t: seq<int>, size: int)
    ensures var u := Unsorted(qlimit, t, size);
      && |u| >= 2 && u[0] == Checkpoint(-1, NoAction, false) && u[1] == Checkpoint(qlimit, NoAction, false)
      && forall k :: 0 <= k < |u| ==> !u[k].active
  {
    var a, b := Stride(t, size, 0), Stride(t, size, 1);
    StrideInactive(t, size, 0);
    StrideInactive(t, size, 1);
    var u := Unsorted(qlimit, t, size);
    forall k | 0 <= k < |u| ensures !u[k].active {
      if k >= 2 + |a| {
        assert u[k] == b[k - 2 - |a|];
      } else if k >= 2 {
        assert u[k] == a[k - 2];
      }
    }
  }

  /** The unsorted list holds the two fixed entries and every rung once. */
  lemma {:induction false} UnsortedContents(qlimit: int, t: seq<int>, size: int)
    ensures multiset(Unsorted(qlimit, t, size)) == multiset(Base(qlimit) + RungsFrom(t, size, 0))
  {
    var b, e, o := Base(qlimit), Stride(t, size, 0), Stride(t, size, 1);
    StridesAreRungs(t, size, 0);
    assert b + e + o == b + (e + o);
  }

  // ---------------------------------------------------------------------
  // The sort
  // ---------------------------------------------------------------------

  /** Insert `c` before the first entry of `s` whose threshold is at
      least `c`'s, so that `c` precedes the entries it ties with. */
  function InsertByThresh(c: Checkpoint, s: seq<Checkpoint>): (r: seq<Checkpoint>)
    ensures multiset(r) == multiset(s) + multiset{c} && |r| == |s| + 1
  {
    if s == [] || c.thresh <= s[0].thresh then [c] + s
    else
      assert s == [s[0]] + s[1..];
      [s[0]] + InsertByThresh(c, s[1..])
  }

  lemma {:induction false} InsertByThreshSorted(c: Checkpoint, s: seq<Checkpoint>)
    requires ThreshSorted(s)
    ensures ThreshSorted(InsertByThresh(c, s))
  {
    if s != [] && c.thresh > s[0].thresh {
      var rest := InsertByThresh(c, s[1..]);
      InsertByThreshSorted(c, s[1..]);
      forall k | 0 <= k < |rest| ensures s[0].thresh <= rest[k].thresh {
        assert rest[k] in multiset(rest);
        if rest[k] != c {
          assert rest[k] in multiset(s[1..]);
          var m :| 0 <= m < |s[1..]| && s[1..][m] == rest[k];
          assert s[m + 1] == rest[k];
        }
      }
    }
  }

  /** `list.sort()` under the checkpoint class's `__lt__`: a stable sort
      by threshold, written as an insertion sort. */
  function SortByThresh(s: seq<Checkpoint>): (r: seq<Checkpoint>)
    ensures multiset(r) == multiset(s) && |r| == |s|
    ensures ThreshSorted(r)
  {
    if s == [] then []
    else
      assert s == [s[0]] + s[1..];
      InsertByThreshSorted(s[0], SortByThresh(s[1..]));
      InsertByThresh(s[0], SortByThresh(s[1..]))
  }

  /** Stability at the front: an entry no larger than all the others
      that comes first stays first. */
  lemma {:induction false} LeastFirstStaysFirst(s: seq<Checkpoint>)
    requires s != [] && forall k :: 0 <= k < |s| ==> s[0].thresh <= s[k].thresh
    ensures SortByThresh(s)[0] == s[0]
  {
    var rest := SortByThresh(s[1..]);
    SortStep(s);
    if rest != [] {
      FrontBound(s, rest);
    }
    InsertLeast(s[0], rest);
  }

  /** One step of the insertion sort. */
  lemma {:induction false} SortStep(s: seq<Checkpoint>)
    requires s != []
    ensures SortByThresh(s) == InsertByThresh(s[0], SortByThresh(s[1..]))
  {
  }

  /** A permutation of the tail of `s` starts no lower than a head that
      is no larger than anything in `s`. */
  lemma {:induction false} FrontBound(s: seq<Checkpoint>, rest: seq<Checkpoint>)
    requires s != [] && rest != [] && multiset(rest) == multiset(s[1..])
    requires forall k :: 0 <= k < |s| ==> s[0].thresh <= s[k].thresh
    ensures s[0].thresh <= rest[0].thresh
  {
    assert s == [s[0]] + s[1..];
    assert rest[0] in multiset(s);
    BoundedMember(rest[0], s, s[0].thresh);
  }

  /** A member of a list whose thresholds are all at least `b`. */
  lemma {:induction false} BoundedMember(x: Checkpoint, s: seq<Checkpoint>, b: int)
    requires x in multiset(s) && forall k :: 0 <= k < |s| ==> b <= s[k].thresh
    ensures b <= x.thresh
  {
    var m :| 0 <= m < |s| && s[m] == x;
  }

  /** An entry no larger than the head is inserted at the front. */
  lemma {:induction false} InsertLeast(c: Checkpoint, s: seq<Checkpoint>)
    requires s == [] || c.thresh <= s[0].thresh
    ensures InsertByThresh(c, s) == [c] + s
  {
  }

  /** The entries of `s` whose threshold is `v`, in their order in `s`. */
  function Ties(s: seq<Checkpoint>, v: int): seq<Checkpoint> {
    if s == [] then []
    else (if s[0].thresh == v then [s[0]] else []) + Ties(s[1..], v)
  }

  /** Inserting `c` puts it ahead of every entry it ties with and leaves
      the other tie groups as they were. */
  lemma {:induction false} InsertByThreshTies(c: Checkpoint, s: seq<Checkpoint>, v: int)
    ensures Ties(InsertByThresh(c, s), v) == (if c.thresh == v then [c] else []) + Ties(s, v)
  {
    if s == [] || c.thresh <= s[0].thresh {
      var r := [c] + s;
      assert r[1..] == s;
    } else {
      var r := [s[0]] + InsertByThresh(c, s[1..]);
      assert r[1..] == InsertByThresh(c, s[1..]);
      InsertByThreshTies(c, s[1..], v);
    }
  }

  /** Stability: entries with equal thresholds keep their relative order. */
  lemma {:induction false} SortByThreshStable(s: seq<Checkpoint>, v: int)
    ensures Ties(SortByThresh(s), v) == Ties(s, v)
  {
    if s != [] {
      SortStep(s);
      InsertByThreshTies(s[0], SortByThresh(s[1..]), v);
      SortByThreshStable(s[1..], v);
    }
  }

  // ---------------------------------------------------------------------
  // Alternation of the sorted rungs
  // ---------------------------------------------------------------------

  /** The entries of a ladder that carry an action, in ladder order. */
  function Actioned(s: seq<Checkpoint>): seq<Checkpoint> {
    if s == [] then []
    else (if s[0].action != NoAction then [s[0]] else []) + Actioned(s[1..])
  }

  lemma {:induction false} ActionedConcat(a: seq<Checkpoint>, b: seq<Checkpoint>)
    ensures Actioned(a + b) == Actioned(a) + Actioned(b)
  {
    if a == [] {
      assert a + b == b;
    } else {
      assert (a + b)[1..] == a[1..] + b;
      ActionedConcat(a[1..], b);
    }
  }

  /** Every rung carries an action. */
  lemma {:induction false} ActionedStride(t: seq<int>, size: int, i: nat)
    ensures Actioned(Stride(t, size, i)) == Stride(t, size, i)
    decreases |t| - i
  {
    if i < |t| {
      var s := Stride(t, size, i);
      assert s[1..] == Stride(t, size, i + 2);
      ActionedStride(t, size, i + 2);
    }
  }

  /** Filtering by action commutes with taking multisets. */
  lemma {:induction false} ActionedCount(s: seq<Checkpoint>, c: Checkpoint)
    ensures multiset(Actioned(s))[c] == if c.action != NoAction then multiset(s)[c] else 0
  {
    if s != [] {
      assert s == [s[0]] + s[1..];
      ActionedCount(s[1..], c);
    }
  }

  lemma {:induction false} ActionedPermutation(a: seq<Checkpoint>, b: seq<Checkpoint>)
    requires multiset(a) == multiset(b)
    ensures multiset(Actioned(a)) == multiset(Actioned(b))
  {
    forall c ensures multiset(Actioned(a))[c] == multiset(Actioned(b))[c] {
      ActionedCount(a, c);
      ActionedCount(b, c);
    }
  }

  lemma {:induction false} ActionedSorted(s: seq<Checkpoint>)
    requires ThreshSorted(s)
    ensures ThreshSorted(Actioned(s))
  {
    if s != [] {
      ActionedSorted(s[1..]);
      var r := Actioned(s[1..]);
      forall k | 0 <= k < |r| ensures s[0].thresh <= r[k].thresh {
        ActionedMember(s[1..], r[k]);
      }
    }
  }

  lemma {:induction false} ActionedMember(s: seq<Checkpoint>, c: Checkpoint)
    requires c in Actioned(s)
    ensures c in s
  {
    if s != [] && s[0] != c {
      ActionedMember(s[1..], c);
    }
  }

  predicate StrictlyIncreasing(s: seq<Checkpoint>) {
    forall i, j :: 0 <= i < j < |s| ==> s[i].thresh < s[j].thresh
  }

  /** A non-decreasing list with the same elements as a strictly
      increasing one is that list. */
  lemma {:induction false} SortedUnique(x: seq<Checkpoint>, y: seq<Checkpoint>)
    requires ThreshSorted(x) && StrictlyIncreasing(y) && multiset(x) == multiset(y)
    ensures x == y
  {
    assert |x| == |multiset(x)| == |multiset(y)| == |y|;
    if x != [] {
      SameLeast(x, y);
      TailsAgree(x, y);
      SortedUnique(x[1..], y[1..]);
      assert x == [x[0]] + x[1..] && y == [y[0]] + y[1..];
    }
  }

  /** Both lists start with the same (least) entry. */
  lemma {:induction false} SameLeast(x: seq<Checkpoint>, y: seq<Checkpoint>)
    requires ThreshSorted(x) && StrictlyIncreasing(y) && multiset(x) == multiset(y)
    requires x != [] && y != []
    ensures x[0] == y[0]
  {
    assert x[0] in multiset(y) && y[0] in multiset(x);
    var i :| 0 <= i < |y| && y[i] == x[0];
    var j :| 0 <= j < |x| && x[j] == y[0];
    assert x[0].thresh <= x[j].thresh;
    assert y[0].thresh <= y[i].thresh;
  }

  /** Dropping the common first entry keeps the hypotheses. */
  lemma {:induction false} TailsAgree(x: seq<Checkpoint>, y: seq<Checkpoint>)
    requires ThreshSorted(x) && StrictlyIncreasing(y) && multiset(x) == multiset(y)
    requires x != [] && y != [] && x[0] == y[0]
    ensures ThreshSorted(x[1..]) && StrictlyIncreasing(y[1..]) && multiset(x[1..]) == multiset(y[1..])
  {
    MultisetTail(x);
    MultisetTail(y);
  }

  lemma {:induction false} MultisetTail(x: seq<Checkpoint>)
    requires x != []
    ensures multiset(x[1..]) == multiset(x) - multiset{x[0]}
  {
    assert x == [x[0]] + x[1..];
  }

  /** With strictly increasing packet thresholds and a positive packet
      size, the scaled rungs are strictly increasing. */
  lemma {:induction false} RungsIncreasing(t: seq<int>, size: int)
    requires forall i, j :: 0 <= i < j < |t| ==> t[i] < t[j]
    requires size > 0
    ensures StrictlyIncreasing(RungsFrom(t, size, 0))
  {
    var r := RungsFrom(t, size, 0);
    forall i, j | 0 <= i < j < |r| ensures r[i].thresh < r[j].thresh {
      assert r[i] == Rung(t, size, i) && r[j] == Rung(t, size, j);
      MulMonotone(t[i], t[j], size);
    }
  }

  lemma MulMonotone(a: int, b: int, c: int)
    requires a < b && c > 0
    ensures a * c < b * c
  {
    assert b * c - a * c == (b - a) * c;
  }

  /** Leaving out the two action-less entries, the unsorted list is the
      two strides. */
  lemma {:induction false} ActionedUnsorted(qlimit: int, t: seq<int>, size: int)
    ensures Actioned(Unsorted(qlimit, t, size)) == Stride(t, size, 0) + Stride(t, size, 1)
  {
    var b, e, o := Base(qlimit), Stride(t, size, 0), Stride(t, size, 1);
    ActionedConcat(b + e, o);
    ActionedConcat(b, e);
    ActionedStride(t, size, 0);
    ActionedStride(t, size, 1);
    ActionedBase(qlimit);
  }

  /** The two fixed entries carry no action. */
  lemma {:induction false} ActionedBase(qlimit: int)
    ensures Actioned(Base(qlimit)) == []
  {
    var b := Base(qlimit);
    assert b[1..][1..] == [];
    assert Actioned(b[1..]) == Actioned(b[1..][1..]);
  }

  /** Leaving out the two action-less entries, the sorted ladder is the
      rungs in threshold-index order. */
  lemma {:induction false} SortedActionedIsRungs(qlimit: int, t: seq<int>, size: int)
    requires forall i, j :: 0 <= i < j < |t| ==> t[i] < t[j]
    requires size > 0
    ensures Actioned(SortByThresh(Unsorted(qlimit, t, size))) == RungsFrom(t, size, 0)
  {
    var u := Unsorted(qlimit, t, size);
    var sorted := SortByThresh(u);
    ActionedSorted(sorted);
    ActionedPermutation(sorted, u);
    ActionedUnsorted(qlimit, t, size);
    StridesAreRungs(t, size, 0);
    RungsIncreasing(t, size);
    SortedUnique(Actioned(sorted), RungsFrom(t, size, 0));
  }

  /** The sorted ladder's actions alternate Resume, Pause, Resume, ...,
      at the scaled thresholds in order. */
  lemma {:induction false} SortedRungsAlternate(qlimit: int, t: seq<int>, size: int)
    requires forall i, j :: 0 <= i < j < |t| ==> t[i] < t[j]
    requires size > 0
    ensures var a := Actioned(SortByThresh(Unsorted(qlimit, t, size)));
      && |a| == |t|
      && (forall k :: 0 <= k < |a| ==> a[k].thresh == t[k] * size && !a[k].active)
      && (forall k :: 0 <= k < |a| ==> a[k].action == if k % 2 == 0 then Resume else Pause)
  {
    SortedActionedIsRungs(qlimit, t, size);
  }

  // ---------------------------------------------------------------------
  // The construction
  // ---------------------------------------------------------------------

  /** The ladder construction of the experiment script: the two fixed
      entries, the Resume loop over even indices, the Pause loop over odd
      indices, then the sort. */
  method BuildLadder(qlimit: int, t: seq<int>, size: int) returns (cps: seq<Checkpoint>)
    ensures cps == SortByThresh(Unsorted(qlimit, t, size))
    ensures |cps| == 2 + |t| && ThreshSorted(cps)
    ensures multiset(cps) == multiset(Base(qlimit) + RungsFrom(t, size, 0))
    ensures qlimit >= 0 ==> WellFormed(cps, Some(qlimit))
  {
    cps := [];
    cps := cps + [Checkpoint(-1, NoAction, false)];
    cps := cps + [Checkpoint(qlimit, NoAction, false)];
    var r := 0;
    while r < |t|
      invariant r % 2 == 0
      invariant cps + Stride(t, size, r) == Base(qlimit) + Stride(t, size, 0)
      decreases |t| - r
    {
      assert Stride(t, size, r) == [Checkpoint(t[r] * size, Resume, false)] + Stride(t, size, r + 2);
      assert (cps + [Checkpoint(t[r] * size, Resume, false)]) + Stride(t, size, r + 2) == cps + Stride(t, size, r);
      cps := cps + [Checkpoint(t[r] * size, Resume, false)];
      r := r + 2;
    }
    var p := 1;
    while p < |t|
      invariant p % 2 == 1
      invariant cps + Stride(t, size, p) == Base(qlimit) + Stride(t, size, 0) + Stride(t, size, 1)
      decreases |t| - p
    {
      assert Stride(t, size, p) == [Checkpoint(t[p] * size, Pause, false)] + Stride(t, size, p + 2);
      assert (cps + [Checkpoint(t[p] * size, Pause, false)]) + Stride(t, size, p + 2) == cps + Stride(t, size, p);
      cps := cps + [Checkpoint(t[p] * size, Pause, false)];
      p := p + 2;
    }
    assert cps == Unsorted(qlimit, t, size);
    UnsortedContents(qlimit, t, size);
    ghost var u := cps;
    cps := SortByThresh(cps);
    if qlimit >= 0 {
      UnsortedShape(qlimit, t, size);
      SortedLadderWellFormed(u, cps, qlimit);
    }
  }

  /** The sorted list starts below zero, ends at or above the byte limit
      and has nothing active: a ladder the port can start from. */
  lemma {:induction false} SortedLadderWellFormed(u: seq<Checkpoint>, s: seq<Checkpoint>, qlimit: nat)
    requires |u| >= 2 && u[0] == Checkpoint(-1, NoAction, false) && u[1] == Checkpoint(qlimit, NoAction, false)
    requires forall k :: 0 <= k < |u| ==> !u[k].active
    requires ThreshSorted(s) && multiset(s) == multiset(u)
    ensures WellFormed(s, Some(qlimit))
  {
    assert |s| == |multiset(s)| == |multiset(u)| == |u|;
    assert u[0] in multiset(u) && u[1] in multiset(u);
    WithinSorted(s, u[0]);
    WithinSorted(s, u[1]);
    PermutationInactive(u, s);
  }

  /** An entry of a sorted list lies between its first and last thresholds. */
  lemma {:induction false} WithinSorted(s: seq<Checkpoint>, c: Checkpoint)
    requires ThreshSorted(s) && c in multiset(s)
    ensures s[0].thresh <= c.thresh <= s[|s| - 1].thresh
  {
    var i :| 0 <= i < |s| && s[i] == c;
  }

  /** A permutation of a list with nothing active has nothing active. */
  lemma {:induction false} PermutationInactive(u: seq<Checkpoint>, s: seq<Checkpoint>)
    requires multiset(s) == multiset(u)
    requires forall k :: 0 <= k < |u| ==> !u[k].active
    ensures forall k :: 0 <= k < |s| ==> !s[k].active
  {
    forall k | 0 <= k < |s| ensures !s[k].active {
      assert s[k] in multiset(u);
      var m :| 0 <= m < |u| && u[m] == s[k];
    }
  }

  /** Stability keeps the sentinel first when no other entry lies below it. */
  lemma {:induction false} SentinelFirst(qlimit: int, t: seq<int>, size: int)
    requires qlimit >= -1 && forall k :: 0 <= k < |t| ==> t[k] * size >= -1
    ensures SortByThresh(Unsorted(qlimit, t, size))[0] == Checkpoint(-1, NoAction, false)
  {
    var a, b := Stride(t, size, 0), Stride(t, size, 1);
    StrideAbove(t, size, 0, -1);
    StrideAbove(t, size, 1, -1);
    var u := Unsorted(qlimit, t, size);
    forall k | 0 <= k < |u| ensures u[0].thresh <= u[k].thresh {
      if k >= 2 + |a| {
        assert u[k] == b[k - 2 - |a|];
      } else if k >= 2 {
        assert u[k] == a[k - 2];
      }
    }
    LeastFirstStaysFirst(u);
  }

  lemma {:induction false} StrideAbove(t: seq<int>, size: int, i: nat, b: int)
    requires forall k :: 0 <= k < |t| ==> t[k] * size >= b
    ensures forall k :: 0 <= k < |Stride(t, size, i)| ==> Stride(t, size, i)[k].thresh >= b
    decreases |t| - i
  {
    if i < |t| {
      StrideAbove(t, size, i + 2, b);
      var s := Stride(t, size, i);
      assert forall k :: 1 <= k < |s| ==> s[k] == Stride(t, size, i + 2)[k - 1];
    }
  }

  /** With a non-negative byte limit and non-negative scaled thresholds,
      every entry of the sorted ladder after the sentinel has a
      non-negative threshold: the sentinel is the only entry below zero
      and occurs once. */
  lemma {:induction false} BuiltLadderNonNegative(qlimit: int, t: seq<int>, size: int)
    requires qlimit >= 0 && forall k :: 0 <= k < |t| ==> t[k] * size >= 0
    ensures NonNegativeAbove(SortByThresh(Unsorted(qlimit, t, size)))
  {
    var u := Unsorted(qlimit, t, size);
    SentinelFirst(qlimit, t, size);
    AllAboveZero(qlimit, t, size);
    OnlyHeadBelowZero(u, SortByThresh(u));
  }

  /** A permutation of a list whose head is its only negative entry,
      starting with that same head, has no other negative entry. */
  lemma {:induction false} OnlyHeadBelowZero(u: seq<Checkpoint>, s: seq<Checkpoint>)
    requires u != [] && u[0].thresh < 0 && forall k :: 1 <= k < |u| ==> u[k].thresh >= 0
    requires multiset(s) == multiset(u) && s != [] && s[0] == u[0]
    ensures NonNegativeAbove(s)
  {
    SingleHead(u);
    forall k | 1 <= k < |s| ensures s[k].thresh >= 0 {
      if s[k].thresh < 0 {
        assert s[k] in multiset(u);
        var m :| 0 <= m < |u| && u[m] == s[k];
        TwoCopies(s, k);
        assert false;
      }
    }
  }

  /** The head of a list occurs in it once when nothing else has its threshold. */
  lemma {:induction false} SingleHead(u: seq<Checkpoint>)
    requires u != [] && forall k :: 1 <= k < |u| ==> u[k].thresh != u[0].thresh
    ensures multiset(u)[u[0]] == 1
  {
    var rest := u[1..];
    assert u == [u[0]] + rest;
    assert forall m :: 0 <= m < |rest| ==> rest[m] == u[m + 1];
  }

  /** An entry equal to the head further on makes two copies. */
  lemma {:induction false} TwoCopies(s: seq<Checkpoint>, k: nat)
    requires 1 <= k < |s| && s[k] == s[0]
    ensures multiset(s)[s[0]] >= 2
  {
    assert s == [s[0]] + s[1..];
    assert s[1..][k - 1] == s[0];
    assert s[0] in multiset(s[1..]);
  }

  /** After the sentinel, the unsorted list has only non-negative thresholds. */
  lemma {:induction false} AllAboveZero(qlimit: int, t: seq<int>, size: int)
    requires qlimit >= 0 && forall k :: 0 <= k < |t| ==> t[k] * size >= 0
    ensures forall k :: 1 <= k < |Unsorted(qlimit, t, size)| ==> Unsorted(qlimit, t, size)[k].thresh >= 0
  {
    var a, b := Stride(t, size, 0), Stride(t, size, 1);
    StrideAbove(t, size, 0, 0);
    StrideAbove(t, size, 1, 0);
    var u := Unsorted(qlimit, t, size);
    forall k | 1 <= k < |u| ensures u[k].thresh >= 0 {
      if k >= 2 + |a| {
        assert u[k] == b[k - 2 - |a|];
      } else if k >= 2 {
        assert u[k] == a[k - 2];
      }
    }
  }

  // ---------------------------------------------------------------------
  // Wiring
  // ---------------------------------------------------------------------

  /** The port setup of the experiment script: an unlimited, non-pausing
      first port; a byte-limited, pausing second port whose ladder is the
      sorted list, whose link delay is `delay` and whose upstream port is
      the first one. Both ports start ready to run. */
  method Setup(qlimit: nat, t: seq<int>, size: int, delay: int)
    returns (switch1: SwitchPort.PrioritySwitchPort, switch2: SwitchPort.PrioritySwitchPort)
    ensures fresh(switch1) && fresh(switch2) && switch1 != switch2
    ensures switch1.qlimit == None && !switch1.pause
    ensures switch2.qlimit == Some(qlimit) && switch2.pause
    ensures switch2.checkpoints == SortByThresh(Unsorted(qlimit, t, size))
    ensures switch2.linkDelay == delay && switch2.back == switch1
    ensures switch2.prevCp == 0 && switch2.nextCp == 1
    ensures switch1.queue == [] && switch2.queue == []
    ensures switch1.byteSize == 0 && switch2.byteSize == 0
    ensures switch1.pauseRec == [] && switch1.pauseSent == [] && switch1.inFlight == []
    ensures switch1.packetsRec == 0 && switch1.packetsDrop == 0 && switch1.dropList == [] && !switch1.waiting
    ensures switch2.pauseRec == [] && switch2.pauseSent == [] && switch2.inFlight == []
    ensures switch2.packetsRec == 0 && switch2.packetsDrop == 0 && switch2.dropList == [] && !switch2.waiting
    ensures switch1.Valid() && switch2.Valid()
  {
    var checkpoints := BuildLadder(qlimit, t, size);
    switch1 := new SwitchPort.PrioritySwitchPort(None, false);
    switch2 := PausePort(qlimit, checkpoints, delay, switch1);
  }

  /** The second port of the experiment script, once its ladder is
      built: a byte-limited, pausing port holding the ladder `cps`, with
      link delay `delay` and `upstream` as the port its signals go to. */
  method PausePort(qlimit: nat, cps: seq<Checkpoint>, delay: int, upstream: SwitchPort.PrioritySwitchPort)
    returns (port: SwitchPort.PrioritySwitchPort)
    requires WellFormed(cps, Some(qlimit)) && upstream.pauseRec == []
    ensures fresh(port)
    ensures port.qlimit == Some(qlimit) && port.pause
    ensures port.checkpoints == cps && port.linkDelay == delay && port.back == upstream
    ensures port.prevCp == 0 && port.nextCp == 1 && port.queue == [] && port.byteSize == 0
    ensures port.pauseRec == [] && port.pauseSent == [] && port.inFlight == []
    ensures port.packetsRec == 0 && port.packetsDrop == 0 && port.dropList == [] && !port.waiting
    ensures port.Valid()
  {
    port := new SwitchPort.PrioritySwitchPort(Some(qlimit), true);
    port.Wire(cps, delay, upstream);
  }
}
