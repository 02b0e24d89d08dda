/** Version vectors: one logical clock per drive, a missing clock counting as zero. */
module VersionVectors {
  import opened Base

  type Clocks = map<string, u64>

  datatype Ordering = Dominates | DominatedBy | Concurrent | Equal

  function Clock(v: Clocks, d: string): u64 {
    if d in v then v[d] else 0
  }

  /** The causal order: no clock of `a` is ahead of `b`'s. */
  ghost predicate Leq(a: Clocks, b: Clocks) {
    forall d :: Clock(a, d) <= Clock(b, d)
  }

  predicate Ahead(a: Clocks, b: Clocks) {
    exists d :: d in a && Clock(a, d) > Clock(b, d)
  }

  function Order(a: Clocks, b: Clocks): Ordering {
    if Ahead(a, b) then (if Ahead(b, a) then Concurrent else Dominates)
    else (if Ahead(b, a) then DominatedBy else Equal)
  }

  function Max(x: u64, y: u64): u64 {
    if x < y then y else x
  }

  function Join(a: Clocks, b: Clocks): Clocks {
    map d | d in a.Keys + b.Keys :: Max(Clock(a, d), Clock(b, d))
  }

  function Bumped(v: Clocks, d: string): Clocks {
    v[d := if Clock(v, d) + 1 == TWO_64 then 0 else Clock(v, d) + 1]
  }

  /** The mutable object of the source; its methods compute the functions above. */
  class VersionVector {
    var clocks: Clocks

    constructor (initial: Clocks)
      ensures clocks == initial
    {
      clocks := initial;
    }

    method Increment(driveId: string)
      modifies this
      ensures clocks == Bumped(old(clocks), driveId)
      ensures clocks.Keys == old(clocks).Keys + {driveId}
      ensures clocks[driveId] == ((if driveId in old(clocks) then old(clocks)[driveId] else 0) + 1) % TWO_64
      ensures forall d :: d in old(clocks) && d != driveId ==> clocks[d] == old(clocks)[d]
    {
      var c: int := Clock(clocks, driveId);
      clocks := clocks[driveId := (c + 1) % 0x1_0000_0000_0000_0000];
    }

    method Merge(other: VersionVector)
      modifies this
      ensures clocks == Join(old(clocks), old(other.clocks))
      ensures clocks.Keys == old(clocks.Keys + other.clocks.Keys)
      ensures forall d :: d in old(clocks) ==> clocks[d] >= old(clocks)[d]
      ensures forall d :: d in old(other.clocks) ==> clocks[d] >= old(other.clocks)[d]
      ensures forall d :: d in clocks ==>
        Lookup(old(clocks), d) == Some(clocks[d]) || Lookup(old(other.clocks), d) == Some(clocks[d])
    {
      var theirs := other.clocks;
      ghost var done: set<string> := {};
      var todo := theirs.Keys;
      while todo != {}
        invariant done !! todo && done + todo == theirs.Keys
        invariant clocks.Keys == old(clocks).Keys + done
        invariant forall d :: d in clocks ==>
          clocks[d] == if d in done then Max(Clock(old(clocks), d), theirs[d]) else old(clocks)[d]
        decreases todo
      {
        var d :| d in todo;
        todo, done := todo - {d}, done + {d};
        if d !in clocks {
          clocks := clocks[d := theirs[d]];
        } else {
          clocks := clocks[d := Max(clocks[d], theirs[d])];
        }
      }
      assert clocks == Join(old(clocks), theirs);
    }

    method Compare(other: VersionVector) returns (ord: Ordering)
      ensures ord == Order(clocks, other.clocks)
    {
      var allDrives := clocks.Keys + other.clocks.Keys;
      var thisGreater, otherGreater := false, false;
      ghost var done: set<string> := {};
      var todo := allDrives;
      while todo != {}
        invariant done + todo == allDrives
        invariant thisGreater <==> exists d :: d in done && Clock(clocks, d) > Clock(other.clocks, d)
        invariant otherGreater <==> exists d :: d in done && Clock(other.clocks, d) > Clock(clocks, d)
        decreases todo
      {
        var d :| d in todo;
        todo, done := todo - {d}, done + {d};
        var thisClock, otherClock := Clock(clocks, d), Clock(other.clocks, d);
        if thisClock > otherClock {
          thisGreater := true;
        } else if otherClock > thisClock {
          otherGreater := true;
        }
      }
      assert done == allDrives;
      assert Ahead(clocks, other.clocks) == thisGreater;
      assert Ahead(other.clocks, clocks) == otherGreater;
      if !thisGreater && !otherGreater {
        return Equal;
      }
      if thisGreater && !otherGreater {
        return Dominates;
      }
      if !thisGreater && otherGreater {
        return DominatedBy;
      }
      return Concurrent;
    }
  }

  lemma AheadIsNotLeq(a: Clocks, b: Clocks)
    ensures Ahead(a, b) <==> !Leq(a, b)
  {
    if !Leq(a, b) {
      var d :| Clock(a, d) > Clock(b, d);
      assert d in a;
    }
  }

  /** `compare` decides the pointwise order: all four answers, exactly. */
  lemma OrderDecidesLeq(a: Clocks, b: Clocks)
    ensures Order(a, b) == Equal <==> Leq(a, b) && Leq(b, a)
    ensures Order(a, b) == Dominates <==> Leq(b, a) && !Leq(a, b)
    ensures Order(a, b) == DominatedBy <==> Leq(a, b) && !Leq(b, a)
    ensures Order(a, b) == Concurrent <==> !Leq(a, b) && !Leq(b, a)
    ensures Order(a, b).Dominates? <==> Order(b, a).DominatedBy?
  {
    AheadIsNotLeq(a, b);
    AheadIsNotLeq(b, a);
  }

  /** A clock that is missing counts as zero. */
  lemma LeqMeans(a: Clocks, b: Clocks)
    ensures Leq(a, b) <==> forall d :: d in a && a[d] > 0 ==> d in b && a[d] <= b[d]
  {
    if forall d :: d in a && a[d] > 0 ==> d in b && a[d] <= b[d] {
      forall d
        ensures Clock(a, d) <= Clock(b, d)
      {
      }
    }
    if Leq(a, b) {
      forall d | d in a && a[d] > 0
        ensures d in b && a[d] <= b[d]
      {
        assert Clock(a, d) <= Clock(b, d);
      }
    }
  }

  lemma LeqReflexive(a: Clocks)
    ensures Leq(a, a)
  {
  }

  lemma LeqTransitive(a: Clocks, b: Clocks, c: Clocks)
    requires Leq(a, b) && Leq(b, c)
    ensures Leq(a, c)
  {
    forall d
      ensures Clock(a, d) <= Clock(c, d)
    {
      assert Clock(a, d) <= Clock(b, d) <= Clock(c, d);
    }
  }

  lemma ClockOfJoin(a: Clocks, b: Clocks, d: string)
    ensures Clock(Join(a, b), d) == Max(Clock(a, d), Clock(b, d))
  {
  }

  /** `merge` is the least upper bound of the causal order. */
  lemma JoinIsLeastUpperBound(a: Clocks, b: Clocks, c: Clocks)
    ensures Leq(a, Join(a, b)) && Leq(b, Join(a, b))
    ensures Leq(Join(a, b), c) <==> Leq(a, c) && Leq(b, c)
  {
    forall d
      ensures Clock(Join(a, b), d) == Max(Clock(a, d), Clock(b, d))
    {
      ClockOfJoin(a, b, d);
    }
    if Leq(Join(a, b), c) {
      LeqTransitive(a, Join(a, b), c);
      LeqTransitive(b, Join(a, b), c);
    }
  }

  /** `merge` is a semilattice operation on the stored maps themselves, explicit zeros included. */
  lemma JoinSemilattice(a: Clocks, b: Clocks, c: Clocks)
    ensures Join(a, a) == a && Join(map[], a) == a && Join(a, map[]) == a
    ensures Join(a, b) == Join(b, a)
    ensures Join(Join(a, b), c) == Join(a, Join(b, c))
  {
    assert Join(a, a) == a && Join(map[], a) == a && Join(a, map[]) == a;
    assert Join(a, b) == Join(b, a);
    JoinAssociative(a, b, c);
  }

  lemma SameClocks(l: Clocks, r: Clocks)
    requires l.Keys == r.Keys && forall d :: d in l ==> Clock(l, d) == Clock(r, d)
    ensures l == r
  {
    forall d | d in l
      ensures l[d] == r[d]
    {
      assert Clock(l, d) == Clock(r, d);
    }
  }

  lemma JoinAssociative(a: Clocks, b: Clocks, c: Clocks)
    ensures Join(Join(a, b), c) == Join(a, Join(b, c))
  {
    var l, r := Join(Join(a, b), c), Join(a, Join(b, c));
    forall d
      ensures Clock(l, d) == Clock(r, d)
    {
      ClockOfJoin(a, b, d);
      ClockOfJoin(b, c, d);
      ClockOfJoin(Join(a, b), c, d);
      ClockOfJoin(a, Join(b, c), d);
    }
    assert l.Keys == r.Keys by {
      JoinKeys(a, b);
      JoinKeys(b, c);
      JoinKeys(Join(a, b), c);
      JoinKeys(a, Join(b, c));
    }
    SameClocks(l, r);
  }

  lemma JoinKeys(a: Clocks, b: Clocks)
    ensures Join(a, b).Keys == a.Keys + b.Keys
  {
  }

  /** An increment adds one to its drive's clock, modulo 2^64, and leaves every other one alone. */
  lemma BumpedClocks(v: Clocks, d: string)
    ensures Bumped(v, d).Keys == v.Keys + {d}
    ensures Bumped(v, d)[d] == ((if d in v then v[d] else 0) + 1) % TWO_64
    ensures forall e :: e in v && e != d ==> Bumped(v, d)[e] == v[e]
  {
  }

  /** An increment advances the vector strictly, except that the largest clock wraps to zero and
      the vector then falls strictly behind. */
  lemma BumpAdvances(v: Clocks, d: string)
    ensures Clock(v, d) + 1 < TWO_64 <==> Order(Bumped(v, d), v) == Dominates
    ensures Clock(v, d) + 1 == TWO_64 <==> Order(Bumped(v, d), v) == DominatedBy
  {
    var w := Bumped(v, d);
    assert forall e :: e != d ==> Clock(w, e) == Clock(v, e);
    OrderDecidesLeq(w, v);
    if Clock(v, d) + 1 < TWO_64 {
      assert Clock(w, d) > Clock(v, d);
      assert Leq(v, w);
    } else {
      assert Clock(w, d) < Clock(v, d);
      assert Leq(w, v);
    }
  }
}
