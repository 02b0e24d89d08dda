/** Ordering a plan: Kahn's algorithm with a cycle guard, then coalescing. */
module PlanOrder {
  import opened Base
  import opened SyncOps

  /** `ops[i]` has to come before `ops[j]`: a directory before everything below it on its drive, a
      rename before the operations at its new path, a write before a removal of the same path. */
  predicate Edge(ops: seq<SyncOp>, i: nat, j: nat)
    requires i < |ops| && j < |ops|
  {
    && i != j && ops[i].target == ops[j].target
    && match ops[i].kind
       case MKDIR => Below(ops[i].path, ops[j].path)
       case RENAME => ops[i].newPath == Some(ops[j].path)
       case COPY => ops[j].path == ops[i].path && ops[j].kind == REMOVE
       case REPLACE => ops[j].path == ops[i].path && ops[j].kind == REMOVE
       case REMOVE => false
  }

  /** A closed walk along the edges. */
  ghost predicate IsCycle(ops: seq<SyncOp>, walk: seq<nat>) {
    && |walk| >= 2 && walk[0] == walk[|walk| - 1]
    && (forall k :: 0 <= k < |walk| ==> walk[k] < |ops|)
    && (forall k :: 0 <= k < |walk| - 1 ==> Edge(ops, walk[k], walk[k + 1]))
  }

  ghost predicate Acyclic(ops: seq<SyncOp>) {
    !exists walk :: IsCycle(ops, walk)
  }

  predicate IsPermutation(order: seq<nat>, n: nat) {
    && |order| == n
    && (forall k :: 0 <= k < n ==> order[k] < n)
    && (forall k, l :: 0 <= k < l < n ==> order[k] != order[l])
  }

  ghost predicate Rearranges(sorted: seq<SyncOp>, ops: seq<SyncOp>, order: seq<nat>) {
    && IsPermutation(order, |ops|) && |sorted| == |ops|
    && (forall k :: 0 <= k < |ops| ==> sorted[k] == ops[order[k]])
  }

  /** Whatever an edge leads to, stands later in `order`; and only what is in `order` can lead there. */
  ghost predicate EdgesLeadForward(ops: seq<SyncOp>, order: seq<nat>) {
    && (forall b :: 0 <= b < |order| ==> order[b] < |ops|)
    && (forall b, i :: 0 <= b < |order| && 0 <= i < |ops| && Edge(ops, i, order[b]) ==> i in order[..b])
  }

  ghost function Preds(ops: seq<SyncOp>, j: nat): set<nat>
    requires j < |ops|
  {
    set i: nat | 0 <= i < |ops| && Edge(ops, i, j)
  }

  lemma PredsMember(ops: seq<SyncOp>, j: nat)
    requires j < |ops|
    ensures forall i: nat :: i in Preds(ops, j) <==> i < |ops| && Edge(ops, i, j)
  {
  }

  ghost function Elements<T>(s: seq<T>): set<T> {
    set x | x in s
  }

  lemma ElementsAppend<T>(s: seq<T>, x: T)
    ensures Elements(s + [x]) == Elements(s) + {x}
  {
  }

  predicate Ascending(s: seq<nat>) {
    forall k, l :: 0 <= k < l < |s| ==> s[k] < s[l]
  }

  lemma AscendingAppend(s: seq<nat>, x: nat)
    requires Ascending(s) && forall y :: y in s ==> y < x
    ensures Ascending(s + [x]) && Distinct(s + [x])
  {
    assert forall k :: 0 <= k < |s| ==> s[k] in s;
  }

  lemma DistinctAppend<T>(s: seq<T>, x: T)
    requires Distinct(s) && x !in s
    ensures Distinct(s + [x])
  {
  }

  predicate Filed(index: map<(DriveId, Path), seq<nat>>, key: (DriveId, Path), j: nat) {
    key in index && j in index[key]
  }

  /** Groups the first `n` operations by target drive and path. */
  ghost predicate Indexes(index: map<(DriveId, Path), seq<nat>>, ops: seq<SyncOp>, n: nat)
    requires n <= |ops|
  {
    && (forall key :: key in index ==> Ascending(index[key]))
    && (forall key, j: nat :: Filed(index, key, j) ==> j < n && ops[j].Key() == key)
    && (forall j: nat :: j < n ==> Filed(index, ops[j].Key(), j))
  }

  method PathIndex(ops: seq<SyncOp>) returns (index: map<(DriveId, Path), seq<nat>>)
    ensures Indexes(index, ops, |ops|)
  {
    index := map[];
    for i := 0 to |ops|
      invariant Indexes(index, ops, i)
    {
      var key := ops[i].Key();
      var at := if key in index then index[key] else [];
      IndexesStep(index, ops, i, at);
      index := index[key := at + [i]];
    }
  }

  lemma IndexesStep(index: map<(DriveId, Path), seq<nat>>, ops: seq<SyncOp>, i: nat, at: seq<nat>)
    requires i < |ops| && Indexes(index, ops, i)
    requires at == if ops[i].Key() in index then index[ops[i].Key()] else []
    ensures Indexes(index[ops[i].Key() := at + [i]], ops, i + 1)
  {
    var index' := index[ops[i].Key() := at + [i]];
    forall j | j in at
      ensures j < i
    {
      assert Filed(index, ops[i].Key(), j);
    }
    AscendingAppend(at, i);
    forall key, j: nat | Filed(index', key, j)
      ensures j < i + 1 && ops[j].Key() == key
    {
      assert Filed(index, key, j) || (key == ops[i].Key() && j == i);
    }
    forall j: nat | j < i + 1
      ensures Filed(index', ops[j].Key(), j)
    {
      assert j < i ==> Filed(index, ops[j].Key(), j);
    }
  }

  /** The nodes that the edges out of `ops[i]` lead to, in index order. */
  method Successors(ops: seq<SyncOp>, i: nat, index: map<(DriveId, Path), seq<nat>>) returns (succ: seq<nat>)
    requires i < |ops| && Indexes(index, ops, |ops|)
    ensures Ascending(succ)
    ensures forall j :: j in succ <==> 0 <= j < |ops| && Edge(ops, i, j)
  {
    var op := ops[i];
    succ := [];
    if op.kind == MKDIR {
      for j := 0 to |ops|
        invariant Ascending(succ)
        invariant forall x :: x in succ <==> 0 <= x < j && Edge(ops, i, x)
      {
        if i != j && ops[j].target == op.target && Below(op.path, ops[j].path) {
          AscendingAppend(succ, j);
          succ := succ + [j];
        }
      }
    }
    if op.kind == RENAME && op.newPath.Some? {
      var key := (op.target, op.newPath.value);
      if key in index {
        succ := Others(index[key], i);
      }
      assert forall j: nat :: j in succ <==> Filed(index, key, j) && j != i;
    }
    if op.kind == COPY || op.kind == REPLACE {
      var at := Others(index[op.Key()], i);
      for k := 0 to |at|
        invariant Ascending(succ)
        invariant forall x :: x in succ <==> x in at[..k] && x < |ops| && ops[x].kind == REMOVE
      {
        assert at[k] in at && forall y :: y in at[..k] ==> y < at[k];
        assert Filed(index, op.Key(), at[k]);
        if ops[at[k]].kind == REMOVE {
          AscendingAppend(succ, at[k]);
          succ := succ + [at[k]];
        }
      }
      assert at[..|at|] == at;
      assert forall j: nat :: j in succ <==> Filed(index, op.Key(), j) && j != i && ops[j].kind == REMOVE;
    }
    forall j: nat | j < |ops|
      ensures j in succ <==> Edge(ops, i, j)
    {
      assert Filed(index, ops[j].Key(), j);
    }
  }

  method Others(at: seq<nat>, i: nat) returns (others: seq<nat>)
    requires Ascending(at)
    ensures Ascending(others) && forall x :: x in others <==> x in at && x != i
  {
    others := [];
    for k := 0 to |at|
      invariant Ascending(others)
      invariant forall x :: x in others <==> x in at[..k] && x != i
    {
      assert forall y :: y in at[..k] ==> y < at[k];
      if i != at[k] {
        AscendingAppend(others, at[k]);
        others := others + [at[k]];
      }
    }
    assert at[..|at|] == at;
  }

  // ----- Building the graph -----------------------------------------------------------------

  ghost function PredsBefore(ops: seq<SyncOp>, j: nat, n: nat): set<nat>
    requires j < |ops| && n <= |ops|
  {
    set i: nat | 0 <= i < n && Edge(ops, i, j)
  }

  method BuildGraph(ops: seq<SyncOp>) returns (adj: seq<seq<nat>>, inDegree: seq<nat>)
    ensures |adj| == |inDegree| == |ops|
    ensures forall i :: 0 <= i < |ops| ==> Ascending(adj[i])
    ensures forall i, j :: 0 <= i < |ops| ==> (j in adj[i] <==> 0 <= j < |ops| && Edge(ops, i, j))
    ensures forall j :: 0 <= j < |ops| ==> inDegree[j] == |Preds(ops, j)|
  {
    var n := |ops|;
    var index := PathIndex(ops);
    adj := [];
    inDegree := seq(n, _ => 0);
    for i := 0 to n
      invariant |adj| == i && |inDegree| == n
      invariant forall k :: 0 <= k < i ==> Ascending(adj[k])
      invariant forall k, j :: 0 <= k < i ==> (j in adj[k] <==> 0 <= j < n && Edge(ops, k, j))
      invariant forall j :: 0 <= j < n ==> inDegree[j] == |PredsBefore(ops, j, i)|
    {
      var succ := Successors(ops, i, index);
      inDegree := CountEdges(ops, i, succ, inDegree);
      adj := adj + [succ];
    }
    assert forall j :: 0 <= j < n ==> PredsBefore(ops, j, n) == Preds(ops, j);
  }

  /** Counts the edges out of `ops[i]` into the in-degrees. */
  method CountEdges(ops: seq<SyncOp>, i: nat, succ: seq<nat>, before: seq<nat>) returns (inDegree: seq<nat>)
    requires i < |ops| == |before| && Ascending(succ)
    requires forall j :: j in succ <==> 0 <= j < |ops| && Edge(ops, i, j)
    requires forall j :: 0 <= j < |ops| ==> before[j] == |PredsBefore(ops, j, i)|
    ensures |inDegree| == |ops|
    ensures forall j :: 0 <= j < |ops| ==> inDegree[j] == |PredsBefore(ops, j, i + 1)|
  {
    inDegree := before;
    for k := 0 to |succ|
      invariant |inDegree| == |ops|
      invariant forall j :: 0 <= j < |ops| ==>
        inDegree[j] == before[j] + (if j in succ[..k] then 1 else 0)
    {
      var j := succ[k];
      assert j in succ && j !in succ[..k];
      assert succ[..k + 1] == succ[..k] + [j];
      inDegree := inDegree[j := inDegree[j] + 1];
    }
    assert succ[..|succ|] == succ;
    forall j | 0 <= j < |ops|
      ensures inDegree[j] == |PredsBefore(ops, j, i + 1)|
    {
      assert PredsBefore(ops, j, i + 1) == PredsBefore(ops, j, i) + (if Edge(ops, i, j) then {i} else {});
    }
  }

  // ----- Kahn's loop ------------------------------------------------------------------------

  /** The queue holds exactly the nodes whose in-degree is zero. */
  predicate Zeros(queue: seq<nat>, inDegree: seq<nat>) {
    && (forall b :: 0 <= b < |queue| ==> queue[b] < |inDegree|)
    && (forall j: nat :: j < |inDegree| ==> (j in queue <==> inDegree[j] == 0))
  }

  /** What the outer loop keeps: the queue holds exactly the nodes whose in-degree has reached zero,
      in-degrees count the predecessors not yet taken, and edges lead forward along the queue. */
  ghost predicate KahnState(ops: seq<SyncOp>, queue: seq<nat>, head: nat, inDegree: seq<nat>) {
    && |inDegree| == |ops| && head <= |queue|
    && Distinct(queue) && Zeros(queue, inDegree) && EdgesLeadForward(ops, queue)
    && (forall j: nat :: j < |ops| ==> inDegree[j] == |Preds(ops, j) - Elements(queue[..head])|)
  }

  /** `x` becomes ready when `r` nodes have been taken, the last of them being its last predecessor. */
  ghost predicate ReadyAt(ops: seq<SyncOp>, queue: seq<nat>, r: nat, x: nat)
    requires x < |ops|
  {
    r <= |queue| && Preds(ops, x) <= Elements(queue[..r]) && (r > 0 ==> queue[r - 1] in Preds(ops, x))
  }

  /** First in, first out: nodes stand in the order in which they became ready, and those that became
      ready together in index order. */
  ghost predicate Timed(ops: seq<SyncOp>, queue: seq<nat>, times: seq<nat>) {
    && |times| == |queue|
    && (forall b :: 0 <= b < |queue| ==> queue[b] < |ops| && ReadyAt(ops, queue, times[b], queue[b]))
    && (forall a, b :: 0 <= a < b < |queue| ==> times[a] < times[b] || (times[a] == times[b] && queue[a] < queue[b]))
  }

  /** The nodes from `n` on are the ones that the node at `head` has released, out of `done`. */
  ghost predicate Recent(queue: seq<nat>, times: seq<nat>, n: nat, head: nat, done: seq<nat>)
    requires |times| == |queue|
  {
    && (forall b :: 0 <= b < n && b < |queue| ==> times[b] <= head)
    && (forall b :: n <= b < |queue| ==> times[b] == head + 1 && queue[b] in done)
  }

  method FirstQueue(ops: seq<SyncOp>, inDegree: seq<nat>) returns (queue: seq<nat>, ghost times: seq<nat>)
    requires |inDegree| == |ops| && forall j :: 0 <= j < |ops| ==> inDegree[j] == |Preds(ops, j)|
    ensures KahnState(ops, queue, 0, inDegree) && |times| == |queue|
    ensures Timed(ops, queue, times) && Recent(queue, times, |queue|, 0, [])
  {
    hide KahnState;
    hide Timed;
    hide Recent;
    hide Preds;
    queue := [];
    for i := 0 to |ops|
      invariant Ascending(queue)
      invariant forall j :: j in queue <==> 0 <= j < i && inDegree[j] == 0
      invariant forall b :: 0 <= b < |queue| ==> queue[b] < i && inDegree[queue[b]] == 0
    {
      if inDegree[i] == 0 {
        AscendingAppend(queue, i);
        queue := queue + [i];
      }
    }
    times := seq(|queue|, _ => 0);
    QueueIsReady(ops, inDegree, queue, times);
  }

  lemma QueueIsReady(ops: seq<SyncOp>, inDegree: seq<nat>, queue: seq<nat>, times: seq<nat>)
    requires |inDegree| == |ops| && forall j :: 0 <= j < |ops| ==> inDegree[j] == |Preds(ops, j)|
    requires Ascending(queue) && (forall j :: j in queue <==> 0 <= j < |ops| && inDegree[j] == 0)
    requires forall b :: 0 <= b < |queue| ==> queue[b] < |ops| && inDegree[queue[b]] == 0
    requires |times| == |queue| && forall b :: 0 <= b < |queue| ==> times[b] == 0
    ensures KahnState(ops, queue, 0, inDegree)
    ensures Timed(ops, queue, times) && Recent(queue, times, |queue|, 0, [])
  {
    forall j: nat | j < |ops|
      ensures inDegree[j] == |Preds(ops, j) - Elements(queue[..0])|
    {
      assert Preds(ops, j) - Elements(queue[..0]) == Preds(ops, j);
    }
    forall b, i: nat | 0 <= b < |queue| && i < |ops|
      ensures !Edge(ops, i, queue[b])
    {
      PredsMember(ops, queue[b]);
    }
  }

  /** The predecessors of `j` still to be taken, half way through the edges out of `queue[head]`. */
  ghost function Left(ops: seq<SyncOp>, queue: seq<nat>, head: nat, done: seq<nat>, j: nat): set<nat>
    requires head < |queue| && j < |ops|
  {
    Preds(ops, j) - Elements(queue[..if j in done then head + 1 else head])
  }

  ghost predicate Counts(ops: seq<SyncOp>, queue: seq<nat>, head: nat, done: seq<nat>, inDegree: seq<nat>)
    requires head < |queue|
  {
    |inDegree| == |ops| && forall j: nat :: j < |ops| ==> inDegree[j] == |Left(ops, queue, head, done, j)|
  }

  /** Half way through the edges out of `queue[head]`: those into `done` have been taken. */
  ghost predicate Releasing(
    ops: seq<SyncOp>, queue: seq<nat>, head: nat, done: seq<nat>, longer: seq<nat>, inDegree: seq<nat>)
  {
    && head < |queue| <= |longer| && longer[..|queue|] == queue
    && Distinct(longer) && EdgesLeadForward(ops, longer)
    && Counts(ops, queue, head, done, inDegree) && Zeros(longer, inDegree)
  }

  /** Takes the node at `head` off the queue and releases the nodes it leads to. The decrement of an
      unsigned in-degree never underflows. */
  method Release(
    ops: seq<SyncOp>, succ: seq<nat>, queue: seq<nat>, head: nat, inDegree: seq<nat>, ghost times: seq<nat>)
    returns (queue': seq<nat>, inDegree': seq<nat>, ghost times': seq<nat>)
    requires KahnState(ops, queue, head, inDegree) && head < |queue|
    requires Timed(ops, queue, times) && Recent(queue, times, |queue|, head, [])
    requires Ascending(succ)
    requires forall j :: j in succ <==> 0 <= j < |ops| && Edge(ops, queue[head], j)
    ensures KahnState(ops, queue', head + 1, inDegree')
    ensures Timed(ops, queue', times') && |times'| == |queue'| && Recent(queue', times', |queue'|, head + 1, [])
    ensures |queue| <= |queue'| && queue'[..|queue|] == queue
  {
    hide EdgesLeadForward;
    hide Distinct;
    hide Ascending;
    hide Timed;
    hide Recent;
    hide Counts;
    hide Zeros;
    queue', inDegree', times' := queue, inDegree, times;
    NothingReleased(ops, succ, queue, head, inDegree, times);
    for k := 0 to |succ|
      invariant Releasing(ops, queue, head, succ[..k], queue', inDegree')
      invariant |times'| == |queue'| && Timed(ops, queue', times') && Recent(queue', times', |queue|, head, succ[..k])
    {
      var j := succ[k];
      assert j in succ && succ[..k + 1] == succ[..k] + [j];
      BeforeThis(succ, k);
      ReleaseOne(ops, queue, head, succ[..k], queue', inDegree', j);
      Pushed(ops, queue, head, succ[..k], queue', inDegree', times', j);
      inDegree' := inDegree'[j := inDegree'[j] - 1];
      if inDegree'[j] == 0 {
        queue', times' := queue' + [j], times' + [head + 1];
      }
    }
    AllRecent(queue', times', |queue|, head, succ[..|succ|]);
    assert succ[..|succ|] == succ;
    Released(ops, queue, head, succ, queue', inDegree');
  }

  lemma NothingReleased(
    ops: seq<SyncOp>, succ: seq<nat>, queue: seq<nat>, head: nat, inDegree: seq<nat>, times: seq<nat>)
    requires KahnState(ops, queue, head, inDegree) && head < |queue|
    requires Timed(ops, queue, times) && Recent(queue, times, |queue|, head, [])
    ensures Releasing(ops, queue, head, succ[..0], queue, inDegree)
    ensures |times| == |queue| && Recent(queue, times, |queue|, head, succ[..0]) && queue[head] < |ops|
  {
  }

  lemma BeforeThis(succ: seq<nat>, k: nat)
    requires Ascending(succ) && k < |succ|
    ensures forall y :: y in succ[..k] ==> y < succ[k]
    ensures succ[k] !in succ[..k] && Distinct(succ)
  {
  }

  lemma AllRecent(queue: seq<nat>, times: seq<nat>, n: nat, head: nat, done: seq<nat>)
    requires |times| == |queue| && Recent(queue, times, n, head, done)
    ensures Recent(queue, times, |queue|, head + 1, [])
  {
  }

  /** A released node goes to the end: it is ready now and not before, and those released with it have
      smaller indices. */
  lemma Pushed(
    ops: seq<SyncOp>, queue: seq<nat>, head: nat, done: seq<nat>, longer: seq<nat>, inDegree: seq<nat>,
    times: seq<nat>, j: nat)
    requires Releasing(ops, queue, head, done, longer, inDegree)
    requires |times| == |longer| && Timed(ops, longer, times) && Recent(longer, times, |queue|, head, done)
    requires j < |ops| && queue[head] < |ops| && Edge(ops, queue[head], j)
    requires j !in done && forall y :: y in done ==> y < j
    ensures j < |inDegree|
    ensures Recent(longer, times, |queue|, head, done + [j])
    ensures inDegree[j] == 1 ==>
      && Timed(ops, longer + [j], times + [head + 1])
      && Recent(longer + [j], times + [head + 1], |queue|, head, done + [j])
  {
    hide EdgesLeadForward;
    hide Zeros;
    hide Edge;
    DistinctPrefix(longer, |queue|);
    CountOne(ops, queue, head, done, inDegree, j);
    if inDegree[j] == 1 {
      PredsMember(ops, j);
      ReadyNow(ops, queue, head, longer, j);
      TimedPush(ops, longer, times, |queue|, head, done, j);
    }
  }

  lemma ReadyNow(ops: seq<SyncOp>, queue: seq<nat>, head: nat, longer: seq<nat>, j: nat)
    requires j < |ops| && head < |queue| <= |longer| && longer[..|queue|] == queue
    requires Preds(ops, j) <= Elements(queue[..head]) + {queue[head]} && queue[head] in Preds(ops, j)
    ensures ReadyAt(ops, longer, head + 1, j)
  {
    hide Preds;
    assert longer[head] == longer[..|queue|][head] == queue[head];
    assert longer[..head + 1] == longer[..|queue|][..head] + [queue[head]] == queue[..head] + [queue[head]];
    ElementsAppend(queue[..head], queue[head]);
  }

  lemma ReadyLonger(ops: seq<SyncOp>, queue: seq<nat>, r: nat, x: nat, y: nat)
    requires x < |ops| && ReadyAt(ops, queue, r, x)
    ensures ReadyAt(ops, queue + [y], r, x)
  {
    hide Preds;
    assert (queue + [y])[..r] == queue[..r];
  }

  lemma TimedPush(ops: seq<SyncOp>, queue: seq<nat>, times: seq<nat>, n: nat, head: nat, done: seq<nat>, j: nat)
    requires Timed(ops, queue, times) && n <= |queue| && Recent(queue, times, n, head, done)
    requires j < |ops| && ReadyAt(ops, queue, head + 1, j) && forall y :: y in done ==> y < j
    ensures Timed(ops, queue + [j], times + [head + 1])
    ensures Recent(queue + [j], times + [head + 1], n, head, done + [j])
  {
    hide ReadyAt;
    forall b | 0 <= b < |queue|
      ensures ReadyAt(ops, queue + [j], times[b], queue[b])
    {
      ReadyLonger(ops, queue, times[b], queue[b], j);
    }
    ReadyLonger(ops, queue, head + 1, j, j);
  }

  lemma DistinctAt<T>(s: seq<T>, k: nat)
    requires Distinct(s) && k < |s|
    ensures s[k] !in s[..k]
  {
  }

  lemma ReleaseOne(
    ops: seq<SyncOp>, queue: seq<nat>, head: nat, done: seq<nat>, longer: seq<nat>, inDegree: seq<nat>, j: nat)
    requires Releasing(ops, queue, head, done, longer, inDegree)
    requires j < |ops| && queue[head] < |ops| && Edge(ops, queue[head], j) && j !in done
    ensures j < |inDegree| && inDegree[j] > 0
    ensures Releasing(ops, queue, head, done + [j],
                      if inDegree[j] == 1 then longer + [j] else longer, inDegree[j := inDegree[j] - 1])
  {
    hide Zeros;
    hide Counts;
    hide EdgesLeadForward;
    hide Distinct;
    hide Edge;
    DistinctPrefix(longer, |queue|);
    CountOne(ops, queue, head, done, inDegree, j);
    ZerosOne(longer, inDegree, j);
    if inDegree[j] == 1 {
      PushForward(ops, queue, head, longer, j);
      assert j !in longer by { ZerosOut(longer, inDegree, j); }
      DistinctAppend(longer, j);
      assert (longer + [j])[..|queue|] == longer[..|queue|];
    }
  }

  lemma DistinctPrefix<T>(s: seq<T>, k: nat)
    requires Distinct(s) && k <= |s|
    ensures Distinct(s[..k])
  {
  }

  lemma ZerosOut(longer: seq<nat>, inDegree: seq<nat>, j: nat)
    requires Zeros(longer, inDegree) && j < |inDegree| && inDegree[j] > 0
    ensures j !in longer
  {
  }

  lemma ZerosOne(longer: seq<nat>, inDegree: seq<nat>, j: nat)
    requires Zeros(longer, inDegree) && j < |inDegree| && inDegree[j] > 0
    ensures Zeros(if inDegree[j] == 1 then longer + [j] else longer, inDegree[j := inDegree[j] - 1])
  {
  }

  lemma CountOne(ops: seq<SyncOp>, queue: seq<nat>, head: nat, done: seq<nat>, inDegree: seq<nat>, j: nat)
    requires head < |queue| && Distinct(queue) && Counts(ops, queue, head, done, inDegree)
    requires j < |ops| && queue[head] < |ops| && Edge(ops, queue[head], j) && j !in done
    ensures j < |inDegree| && inDegree[j] > 0
    ensures Counts(ops, queue, head, done + [j], inDegree[j := inDegree[j] - 1])
    ensures inDegree[j] == 1 ==> Preds(ops, j) <= Elements(queue[..head]) + {queue[head]}
  {
    hide Edge;
    hide Distinct;
    LeftOne(ops, queue, head, done, j);
    forall k: nat | k < |ops| && k != j
      ensures Left(ops, queue, head, done + [j], k) == Left(ops, queue, head, done, k)
    {
      assert k in done + [j] <==> k in done;
    }
    hide Left;
  }

  lemma LeftOne(ops: seq<SyncOp>, queue: seq<nat>, head: nat, done: seq<nat>, j: nat)
    requires head < |queue| && Distinct(queue) && j !in done
    requires j < |ops| && queue[head] < |ops| && Edge(ops, queue[head], j)
    ensures |Left(ops, queue, head, done + [j], j)| == |Left(ops, queue, head, done, j)| - 1
    ensures |Left(ops, queue, head, done, j)| == 1 ==>
      Preds(ops, j) <= Elements(queue[..head]) + {queue[head]}
  {
    var before, after := Left(ops, queue, head, done, j), Left(ops, queue, head, done + [j], j);
    TakeOne(queue, head);
    var taken, i := Elements(queue[..head]), queue[head];
    assert before == Preds(ops, j) - taken;
    assert after == Preds(ops, j) - (taken + {i});
    assert i in Preds(ops, j);
    hide *;
    assert after == before - {i};
    assert |after| == |before| - 1;
  }

  lemma Released(
    ops: seq<SyncOp>, queue: seq<nat>, head: nat, succ: seq<nat>, longer: seq<nat>, inDegree: seq<nat>)
    requires Releasing(ops, queue, head, succ, longer, inDegree) && queue[head] < |ops|
    requires forall j :: j in succ <==> 0 <= j < |ops| && Edge(ops, queue[head], j)
    ensures KahnState(ops, longer, head + 1, inDegree)
  {
    assert queue == longer[..|queue|];
    assert longer[..head + 1] == queue[..head + 1];
    forall j: nat | j < |ops|
      ensures Left(ops, queue, head, succ, j) == Preds(ops, j) - Elements(longer[..head + 1])
    {
      if j !in succ {
        assert queue[..head + 1] == queue[..head] + [queue[head]];
        assert queue[head] !in Preds(ops, j);
      }
    }
  }

  lemma TakeOne(queue: seq<nat>, head: nat)
    requires head < |queue| && Distinct(queue)
    ensures queue[head] !in Elements(queue[..head])
    ensures Elements(queue[..head + 1]) == Elements(queue[..head]) + {queue[head]}
  {
    assert queue[..head + 1] == queue[..head] + [queue[head]];
  }

  lemma PushForward(ops: seq<SyncOp>, queue: seq<nat>, head: nat, queue': seq<nat>, j: nat)
    requires EdgesLeadForward(ops, queue') && j < |ops| && head < |queue| <= |queue'|
    requires queue'[..|queue|] == queue
    requires Preds(ops, j) <= Elements(queue[..head]) + {queue[head]}
    ensures EdgesLeadForward(ops, queue' + [j])
  {
    var longer := queue' + [j];
    forall b, i | 0 <= b < |longer| && 0 <= i < |ops| && Edge(ops, i, longer[b])
      ensures i in longer[..b]
    {
      if b < |queue'| {
        assert longer[..b] == queue'[..b];
      } else {
        assert i in Preds(ops, j);
        assert i in queue[..head] || i == queue[head];
        assert i in queue;
        var a :| 0 <= a < |queue| && queue[a] == i;
        assert longer[..b][a] == queue'[..|queue|][a];
      }
    }
  }

  // ----- Counting ---------------------------------------------------------------------------

  lemma {:induction false} DistinctCardinality(s: seq<nat>)
    requires Distinct(s)
    ensures |Elements(s)| == |s|
  {
    if s != [] {
      var front := s[..|s| - 1];
      DistinctPrefix(s, |s| - 1);
      DistinctCardinality(front);
      assert s == front + [s[|s| - 1]];
      assert s[|s| - 1] !in front;
      ElementsAppend(front, s[|s| - 1]);
    }
  }

  ghost function Range(n: nat): (r: set<nat>)
    ensures |r| == n && forall i :: i in r <==> 0 <= i < n
  {
    if n == 0 then {} else Range(n - 1) + {n - 1}
  }

  lemma SubsetSize<T>(a: set<T>, b: set<T>)
    requires a <= b
    ensures |a| <= |b|
  {
    assert b == a + (b - a);
  }

  lemma DistinctBelow(s: seq<nat>, n: nat)
    requires Distinct(s) && forall k :: 0 <= k < |s| ==> s[k] < n
    ensures |s| <= n
    ensures |s| == n <==> forall i: nat :: i < n ==> i in s
  {
    var all := Range(n);
    DistinctCardinality(s);
    SubsetSize(Elements(s), all);
    if |s| == n {
      assert |all - Elements(s)| == 0;
      forall i: nat | i < n
        ensures i in s
      {
        assert i in all && i !in all - Elements(s);
      }
    }
    if forall i: nat :: i < n ==> i in s {
      assert all == Elements(s);
    }
  }

  // ----- The sort ---------------------------------------------------------------------------

  /** Kahn's algorithm. The output is a rearrangement of the input even when the guard appends the
      nodes it could not reach; it reaches all of them exactly when the edges have no cycle. */
  method TopologicalSort(ops: seq<SyncOp>) returns (sorted: seq<SyncOp>)
    ensures multiset(sorted) == multiset(ops)
    ensures KahnOrdered(ops, sorted)
  {
    hide EdgesLeadForward;
    hide Acyclic;
    hide Edge;
    hide KahnState;
    hide Picked;
    hide Rearranges;
    hide Timed;
    hide Recent;
    hide Ascending;
    var n := |ops|;
    var adj: seq<seq<nat>>, inDegree: seq<nat> := BuildGraph(ops);
    var queue: seq<nat>;
    ghost var times: seq<nat>;
    queue, times := FirstQueue(ops, inDegree);
    sorted := [];
    var head := 0;
    NothingPicked(ops, queue);
    QueueBounded(ops, queue, head, inDegree);
    while head < |queue|
      invariant KahnState(ops, queue, head, inDegree) && |queue| <= n && head <= |queue|
      invariant Timed(ops, queue, times) && |times| == |queue| && Recent(queue, times, |queue|, head, [])
      invariant forall b :: 0 <= b < |queue| ==> queue[b] < n
      invariant Picked(sorted, ops, queue[..head]) && |sorted| == head
      decreases n - head
    {
      PickedAppend(sorted, ops, queue[..head], queue[head]);
      assert queue[..head] + [queue[head]] == queue[..head + 1];
      sorted := sorted + [ops[queue[head]]];
      ghost var before := queue;
      queue, inDegree, times := Release(ops, adj[queue[head]], queue, head, inDegree, times);
      head := head + 1;
      assert queue[..head] == queue[..|before|][..head] == before[..head];
      QueueBounded(ops, queue, head, inDegree);
    }
    assert queue[..head] == queue;
    ghost var order: seq<nat> := queue;
    NoneReady(ops, queue, inDegree);
    if |sorted| < n {
      StuckMeansCycle(ops, queue, inDegree);
      AppendReady(ops, queue, inDegree);
      sorted, order := AppendRest(ops, sorted, queue, inDegree);
    } else {
      WholeQueue(ops, sorted, queue, inDegree);
    }
    assert order[..|queue|] == queue;
    Ordered(ops, sorted, order, |queue|, times);
    RearrangedMultiset(sorted, ops, order);
  }

  /** `sorted` lists all of `ops`: first those that the queue reached, first in first out and in the
      order of the edges, then the others in index order. None of the others is ready, and there are
      others exactly if there is a cycle. */
  ghost predicate KahnOrdered(ops: seq<SyncOp>, sorted: seq<SyncOp>) {
    exists order, reached :: Rearranges(sorted, ops, order) && KahnReached(ops, order, reached)
  }

  ghost predicate KahnReached(ops: seq<SyncOp>, order: seq<nat>, reached: nat) {
    && reached <= |order| && FirstInFirstOut(ops, order[..reached]) && EdgesLeadForward(ops, order[..reached])
    && Ascending(order[reached..]) && Exhausted(ops, order[..reached])
    && (reached == |ops| <==> Acyclic(ops))
  }

  ghost predicate FirstInFirstOut(ops: seq<SyncOp>, queue: seq<nat>) {
    exists times :: Timed(ops, queue, times)
  }

  /** Every node whose predecessors are all in the queue is in it too. */
  ghost predicate Exhausted(ops: seq<SyncOp>, queue: seq<nat>) {
    forall i: nat :: i < |ops| && Preds(ops, i) <= Elements(queue) ==> i in queue
  }

  lemma Ordered(ops: seq<SyncOp>, sorted: seq<SyncOp>, order: seq<nat>, reached: nat, times: seq<nat>)
    requires Rearranges(sorted, ops, order) && reached <= |order|
    requires EdgesLeadForward(ops, order[..reached]) && Timed(ops, order[..reached], times)
    requires Ascending(order[reached..]) && Exhausted(ops, order[..reached])
    requires reached == |ops| <==> Acyclic(ops)
    ensures KahnOrdered(ops, sorted)
  {
    hide EdgesLeadForward;
    hide Acyclic;
    hide Timed;
    hide Ascending;
    hide Exhausted;
    assert KahnReached(ops, order, reached);
  }

  lemma NoneReady(ops: seq<SyncOp>, queue: seq<nat>, inDegree: seq<nat>)
    requires KahnState(ops, queue, |queue|, inDegree)
    ensures Exhausted(ops, queue)
  {
    assert queue[..|queue|] == queue;
    forall i: nat | i < |ops| && Preds(ops, i) <= Elements(queue)
      ensures i in queue
    {
      assert Preds(ops, i) - Elements(queue) == {};
    }
  }

  /** Without a cycle, the order is one in which every edge leads forward, first in first out. */
  lemma AcyclicOrder(ops: seq<SyncOp>, sorted: seq<SyncOp>) returns (order: seq<nat>)
    requires KahnOrdered(ops, sorted)
    ensures Rearranges(sorted, ops, order)
    ensures Acyclic(ops) ==> EdgesLeadForward(ops, order) && FirstInFirstOut(ops, order)
  {
    hide EdgesLeadForward;
    hide Acyclic;
    hide FirstInFirstOut;
    hide Ascending;
    hide Exhausted;
    ghost var reached;
    order, reached :| Rearranges(sorted, ops, order) && KahnReached(ops, order, reached);
    assert order[..|order|] == order;
  }

  /** Two nodes with the same predecessors keep their order. */
  lemma EqualPredsKeepOrder(ops: seq<SyncOp>, queue: seq<nat>, a: nat, b: nat)
    requires FirstInFirstOut(ops, queue) && Distinct(queue)
    requires a < |queue| && b < |queue| && queue[a] < |ops| && queue[b] < |ops|
    requires queue[a] < queue[b] && Preds(ops, queue[a]) == Preds(ops, queue[b])
    ensures a < b
  {
    hide Preds;
    var times :| Timed(ops, queue, times);
    assert ReadyAt(ops, queue, times[a], queue[a]) && ReadyAt(ops, queue, times[b], queue[b]);
    SameTime(ops, queue, times[a], times[b], queue[a], queue[b]);
    SameTime(ops, queue, times[b], times[a], queue[b], queue[a]);
  }

  lemma SameTime(ops: seq<SyncOp>, queue: seq<nat>, r: nat, q: nat, x: nat, y: nat)
    requires Distinct(queue) && x < |ops| && y < |ops| && Preds(ops, x) == Preds(ops, y)
    requires ReadyAt(ops, queue, r, x) && ReadyAt(ops, queue, q, y)
    ensures r <= q
  {
    hide Preds;
    if r > 0 {
      assert queue[r - 1] in Elements(queue[..q]);
      OnlyPlace(queue, r - 1, q);
    }
  }

  lemma OnlyPlace(queue: seq<nat>, k: nat, q: nat)
    requires Distinct(queue) && k < |queue| && q <= |queue| && queue[k] in queue[..q]
    ensures k < q
  {
    var i :| 0 <= i < q && queue[..q][i] == queue[k];
  }

  // ----- The order is determined ------------------------------------------------------------

  /** What the queue is in the end, apart from its own times. */
  ghost predicate QueueOf(ops: seq<SyncOp>, queue: seq<nat>, times: seq<nat>) {
    Distinct(queue) && Timed(ops, queue, times) && EdgesLeadForward(ops, queue) && Exhausted(ops, queue)
  }

  lemma PredsTaken(ops: seq<SyncOp>, queue: seq<nat>, n: nat)
    requires EdgesLeadForward(ops, queue) && n < |queue| && queue[n] < |ops|
    ensures Preds(ops, queue[n]) <= Elements(queue[..n])
  {
  }

  /** Two queues that agree so far go on alike: whatever one takes next, the other has later. */
  lemma TakenLater(ops: seq<SyncOp>, p: seq<nat>, tp: seq<nat>, q: seq<nat>, tq: seq<nat>, n: nat) returns (b: nat)
    requires QueueOf(ops, p, tp) && QueueOf(ops, q, tq)
    requires n < |p| && n <= |q| && p[..n] == q[..n]
    ensures n <= b < |q| && q[b] == p[n] && tp[n] == tq[b] && tp[n] <= n
  {
    hide Preds;
    hide Timed;
    hide EdgesLeadForward;
    b := PlaceLater(ops, p, tp, q, tq, n);
    ReadyFacts(ops, p, tp, n);
    ReadyFacts(ops, q, tq, b);
    assert Preds(ops, p[n]) <= Elements(q[..n]);
    NotAfter(ops, p, tp[n], n, p[n]);
    NotAfter(ops, q, tq[b], n, p[n]);
    SameReady(ops, p, q, n, tp[n], tq[b], p[n]);
  }

  lemma ReadyFacts(ops: seq<SyncOp>, p: seq<nat>, tp: seq<nat>, n: nat)
    requires QueueOf(ops, p, tp) && n < |p|
    ensures |tp| == |p| && p[n] < |ops| && ReadyAt(ops, p, tp[n], p[n]) && Preds(ops, p[n]) <= Elements(p[..n])
  {
    hide Preds;
    PredsTaken(ops, p, n);
  }

  lemma PlaceLater(ops: seq<SyncOp>, p: seq<nat>, tp: seq<nat>, q: seq<nat>, tq: seq<nat>, n: nat) returns (b: nat)
    requires QueueOf(ops, p, tp) && QueueOf(ops, q, tq)
    requires n < |p| && n <= |q| && p[..n] == q[..n]
    ensures n <= b < |q| && q[b] == p[n]
  {
    hide Preds;
    hide Timed;
    hide EdgesLeadForward;
    ReadyFacts(ops, p, tp, n);
    assert Elements(q[..n]) <= Elements(q);
    assert p[n] in q;
    b :| 0 <= b < |q| && q[b] == p[n];
    DistinctAt(p, n);
    assert forall k :: 0 <= k < n ==> q[k] in q[..n];
  }

  lemma SameReady(ops: seq<SyncOp>, p: seq<nat>, q: seq<nat>, n: nat, r: nat, s: nat, x: nat)
    requires Distinct(p) && Distinct(q) && n <= |p| && n <= |q| && p[..n] == q[..n] && r <= n && s <= n
    requires x < |ops| && ReadyAt(ops, p, r, x) && ReadyAt(ops, q, s, x)
    ensures r == s
  {
    hide Preds;
    assert p[..r] == p[..n][..r] == q[..r] && p[..s] == p[..n][..s] == q[..s];
    NotAfter(ops, p, r, s, x);
    NotAfter(ops, q, s, r, x);
  }

  lemma NotAfter(ops: seq<SyncOp>, queue: seq<nat>, r: nat, q: nat, x: nat)
    requires Distinct(queue) && x < |ops| && ReadyAt(ops, queue, r, x)
    requires q <= |queue| && Preds(ops, x) <= Elements(queue[..q])
    ensures r <= q
  {
    hide Preds;
    if r > 0 {
      assert queue[r - 1] in Elements(queue[..q]);
      OnlyPlace(queue, r - 1, q);
    }
  }

  lemma {:induction false} QueuesAgree(
    ops: seq<SyncOp>, p: seq<nat>, tp: seq<nat>, q: seq<nat>, tq: seq<nat>, n: nat)
    requires QueueOf(ops, p, tp) && QueueOf(ops, q, tq) && n <= |p|
    ensures n <= |q| && p[..n] == q[..n]
  {
    if n > 0 {
      QueuesAgree(ops, p, tp, q, tq, n - 1);
      var b := TakenLater(ops, p, tp, q, tq, n - 1);
      var a := TakenLater(ops, q, tq, p, tp, n - 1);
      SameNext(ops, p, tp, q, tq, n - 1, a, b);
    }
  }

  lemma SameNext(
    ops: seq<SyncOp>, p: seq<nat>, tp: seq<nat>, q: seq<nat>, tq: seq<nat>, n: nat, a: nat, b: nat)
    requires Timed(ops, p, tp) && Timed(ops, q, tq)
    requires n <= a < |p| && n <= b < |q| && p[..n] == q[..n]
    requires q[b] == p[n] && p[a] == q[n] && tp[n] == tq[b] && tq[n] == tp[a]
    ensures p[..n + 1] == q[..n + 1]
  {
    hide ReadyAt;
    assert a == n <==> b == n;
    assert p[..n + 1] == p[..n] + [p[n]] && q[..n + 1] == q[..n] + [q[n]];
  }

  lemma {:induction false} AscendingUnique(s: seq<nat>, t: seq<nat>)
    requires Ascending(s) && Ascending(t) && forall x :: x in s <==> x in t
    ensures s == t
  {
    if s == [] {
      FirstMember(t);
    } else {
      assert s[0] in t && (t == [] || t[0] in s);
      var i :| 0 <= i < |t| && t[i] == s[0];
      var j :| 0 <= j < |s| && s[j] == t[0];
      TailMembers(s);
      TailMembers(t);
      AscendingUnique(s[1..], t[1..]);
      assert s == [s[0]] + s[1..] && t == [t[0]] + t[1..];
    }
  }

  lemma FirstMember(t: seq<nat>)
    ensures t == [] || t[0] in t
  {
  }

  lemma TailMembers(s: seq<nat>)
    requires Ascending(s) && s != []
    ensures Ascending(s[1..]) && forall x :: x in s[1..] <==> x in s && x != s[0]
  {
    assert s == [s[0]] + s[1..];
    forall x | x in s[1..]
      ensures x != s[0]
    {
      var k :| 0 <= k < |s[1..]| && s[1..][k] == x;
      assert s[k + 1] == x;
    }
  }

  /** Kahn's sort leaves no choice: queue, guard and output are determined by the operations. */
  lemma SortIsDetermined(ops: seq<SyncOp>, a: seq<SyncOp>, b: seq<SyncOp>)
    requires KahnOrdered(ops, a) && KahnOrdered(ops, b)
    ensures a == b
  {
    hide Acyclic;
    hide Timed;
    hide EdgesLeadForward;
    hide Exhausted;
    hide Ascending;
    hide Rearranges;
    var p: seq<nat>, m: nat :| Rearranges(a, ops, p) && KahnReached(ops, p, m);
    var q: seq<nat>, n: nat :| Rearranges(b, ops, q) && KahnReached(ops, q, n);
    var tp: seq<nat> :| Timed(ops, p[..m], tp);
    var tq: seq<nat> :| Timed(ops, q[..n], tq);
    DistinctParts(a, ops, p, m);
    DistinctParts(b, ops, q, n);
    QueuesAgree(ops, p[..m], tp, q[..n], tq, m);
    QueuesAgree(ops, q[..n], tq, p[..m], tp, n);
    assert p[..m] == q[..n] by { hide *; assert p[..m][..m] == p[..m] && q[..n][..n] == q[..n]; }
    AscendingUnique(p[m..], q[n..]);
    assert p == p[..m] + p[m..] && q == q[..n] + q[n..];
    SameOrderSameSort(ops, a, b, p);
  }

  lemma DistinctParts(sorted: seq<SyncOp>, ops: seq<SyncOp>, order: seq<nat>, m: nat)
    requires Rearranges(sorted, ops, order) && m <= |order|
    ensures Distinct(order[..m])
    ensures forall x: nat :: x in order[m..] <==> x < |ops| && x !in order[..m]
  {
    DistinctBelow(order, |ops|);
    assert order == order[..m] + order[m..];
    forall x: nat | x in order[m..]
      ensures x < |ops| && x !in order[..m]
    {
      var k :| 0 <= k < |order[m..]| && order[m..][k] == x;
      assert order[m + k] == x;
    }
    forall x: nat | x < |ops| && x !in order[..m]
      ensures x in order[m..]
    {
      assert x in order;
    }
  }

  lemma SameOrderSameSort(ops: seq<SyncOp>, a: seq<SyncOp>, b: seq<SyncOp>, order: seq<nat>)
    requires Rearranges(a, ops, order) && Rearranges(b, ops, order)
    ensures a == b
  {
  }

  /** A rearrangement has the same operations, each as often. */
  lemma {:induction false} RearrangedMultiset(sorted: seq<SyncOp>, ops: seq<SyncOp>, order: seq<nat>)
    requires Rearranges(sorted, ops, order)
    ensures multiset(sorted) == multiset(ops)
    decreases |ops|
  {
    hide Rearranges;
    if ops == [] {
      SameLength(sorted, ops, order);
    } else {
      var n := |ops| - 1;
      var k := PlaceOf(sorted, ops, order);
      RearrangesWithout(sorted, ops, order, k);
      RearrangedMultiset(sorted[..k] + sorted[k + 1..], ops[..n], order[..k] + order[k + 1..]);
      WithoutOne(sorted, k);
      WithoutOne(ops, n);
    }
  }

  lemma SameLength(sorted: seq<SyncOp>, ops: seq<SyncOp>, order: seq<nat>)
    requires Rearranges(sorted, ops, order)
    ensures |sorted| == |ops| == |order|
  {
  }

  lemma PlaceOf(sorted: seq<SyncOp>, ops: seq<SyncOp>, order: seq<nat>) returns (k: nat)
    requires Rearranges(sorted, ops, order) && ops != []
    ensures k < |order| == |sorted| && order[k] == |ops| - 1 && sorted[k] == ops[|ops| - 1]
  {
    DistinctBelow(order, |ops|);
    assert |ops| - 1 in order;
    k :| 0 <= k < |order| && order[k] == |ops| - 1;
  }

  lemma WithoutOne<T>(s: seq<T>, k: nat)
    requires k < |s|
    ensures multiset(s) == multiset(s[..k] + s[k + 1..]) + multiset{s[k]}
    ensures k == |s| - 1 ==> s[..k] + s[k + 1..] == s[..k]
  {
    assert s == s[..k] + [s[k]] + s[k + 1..];
  }

  lemma RearrangesWithout(sorted: seq<SyncOp>, ops: seq<SyncOp>, order: seq<nat>, k: nat)
    requires Rearranges(sorted, ops, order) && ops != [] && k < |order| && order[k] == |ops| - 1
    ensures Rearranges(sorted[..k] + sorted[k + 1..], ops[..|ops| - 1], order[..k] + order[k + 1..])
  {
  }

  ghost predicate Picked(sorted: seq<SyncOp>, ops: seq<SyncOp>, order: seq<nat>) {
    && |sorted| == |order|
    && (forall k :: 0 <= k < |order| ==> order[k] < |ops|)
    && (forall k :: 0 <= k < |order| ==> sorted[k] == ops[order[k]])
  }

  lemma NothingPicked(ops: seq<SyncOp>, queue: seq<nat>)
    ensures Picked([], ops, queue[..0])
  {
  }

  lemma PickedAppend(sorted: seq<SyncOp>, ops: seq<SyncOp>, order: seq<nat>, i: nat)
    requires Picked(sorted, ops, order) && i < |ops|
    ensures Picked(sorted + [ops[i]], ops, order + [i])
  {
  }

  lemma AppendReady(ops: seq<SyncOp>, queue: seq<nat>, inDegree: seq<nat>)
    requires KahnState(ops, queue, |queue|, inDegree)
    ensures |inDegree| == |ops| && Distinct(queue) && Zeros(queue, inDegree) && EdgesLeadForward(ops, queue)
  {
  }

  lemma WholeQueue(ops: seq<SyncOp>, sorted: seq<SyncOp>, queue: seq<nat>, inDegree: seq<nat>)
    requires KahnState(ops, queue, |queue|, inDegree) && |queue| == |ops| && Picked(sorted, ops, queue)
    ensures Rearranges(sorted, ops, queue) && EdgesLeadForward(ops, queue) && Acyclic(ops)
    ensures Ascending(queue[|queue|..])
  {
    assert IsPermutation(queue, |ops|);
    InOrderMeansAcyclic(ops, queue);
  }

  /** The cycle guard: the nodes the queue never reached, in index order. */
  method AppendRest(ops: seq<SyncOp>, front: seq<SyncOp>, queue: seq<nat>, inDegree: seq<nat>)
    returns (sorted: seq<SyncOp>, ghost order: seq<nat>)
    requires |inDegree| == |ops| && Distinct(queue) && Zeros(queue, inDegree) && Picked(front, ops, queue)
    ensures Rearranges(sorted, ops, order) && |queue| <= |order| && order[..|queue|] == queue
    ensures Ascending(order[|queue|..])
  {
    sorted, order := front, queue;
    for i := 0 to |ops|
      invariant |queue| <= |order| && order[..|queue|] == queue
      invariant Ascending(order[|queue|..]) && forall y :: y in order[|queue|..] ==> y < i
      invariant Distinct(order) && Picked(sorted, ops, order)
      invariant forall j: nat :: j in order <==> j in queue || (j < i && inDegree[j] != 0)
    {
      if inDegree[i] != 0 {
        DistinctAppend(order, i);
        AscendingAppend(order[|queue|..], i);
        PickedAppend(sorted, ops, order, i);
        assert (order + [i])[|queue|..] == order[|queue|..] + [i];
        sorted, order := sorted + [ops[i]], order + [i];
      }
    }
    DistinctBelow(order, |ops|);
  }

  lemma QueueBounded(ops: seq<SyncOp>, queue: seq<nat>, head: nat, inDegree: seq<nat>)
    requires KahnState(ops, queue, head, inDegree)
    ensures head <= |queue| <= |ops|
    ensures forall b :: 0 <= b < |queue| ==> queue[b] < |ops|
    ensures |queue| == |ops| <==> forall i: nat :: i < |ops| ==> i in queue
  {
    DistinctBelow(queue, |ops|);
  }

  ghost predicate HasPredIn(ops: seq<SyncOp>, stuck: set<nat>, j: nat) {
    exists i :: i in stuck && i < |ops| && j < |ops| && Edge(ops, i, j)
  }

  /** When the queue runs dry early, every remaining node has a remaining predecessor; going back
      from one to the next for long enough closes a cycle. */
  lemma StuckMeansCycle(ops: seq<SyncOp>, queue: seq<nat>, inDegree: seq<nat>)
    requires KahnState(ops, queue, |queue|, inDegree) && |queue| < |ops|
    ensures !Acyclic(ops)
  {
    QueueBounded(ops, queue, |queue|, inDegree);
    var start: nat :| start < |ops| && start !in queue;
    var stuck: set<nat> := Range(|ops|) - Elements(queue);
    forall j | j in stuck
      ensures HasPredIn(ops, stuck, j)
    {
      RemainingPred(ops, queue, inDegree, j);
    }
    assert start in stuck;
    hide *;
    var walk: seq<nat> := WalkBack(ops, stuck, start, |ops|);
    var a, b := Repeats(walk, |ops|);
    LoopIsCycle(ops, walk, a, b);
  }

  lemma RemainingPred(ops: seq<SyncOp>, queue: seq<nat>, inDegree: seq<nat>, j: nat)
    requires KahnState(ops, queue, |queue|, inDegree) && j < |ops| && j !in queue
    ensures HasPredIn(ops, Range(|ops|) - Elements(queue), j)
  {
    assert queue[..|queue|] == queue;
    var left := Preds(ops, j) - Elements(queue);
    assert |left| > 0;
    var i: nat :| i in left;
    assert i in Range(|ops|) - Elements(queue) && Edge(ops, i, j);
  }

  lemma LoopIsCycle(ops: seq<SyncOp>, walk: seq<nat>, a: nat, b: nat)
    requires IsWalk(ops, walk) && a < b < |walk| && walk[a] == walk[b]
    ensures !Acyclic(ops)
  {
    assert IsCycle(ops, walk[a..b + 1]);
  }

  ghost predicate IsWalk(ops: seq<SyncOp>, walk: seq<nat>) {
    && (forall k :: 0 <= k < |walk| ==> walk[k] < |ops|)
    && (forall k :: 0 <= k < |walk| - 1 ==> Edge(ops, walk[k], walk[k + 1]))
  }

  lemma WalkPrepend(ops: seq<SyncOp>, i: nat, walk: seq<nat>)
    requires IsWalk(ops, walk) && walk != [] && i < |ops| && walk[0] < |ops| && Edge(ops, i, walk[0])
    ensures IsWalk(ops, [i] + walk)
  {
    hide Edge;
  }

  lemma {:induction false} WalkBack(ops: seq<SyncOp>, stuck: set<nat>, start: nat, steps: nat) returns (walk: seq<nat>)
    requires start in stuck && start < |ops|
    requires forall j :: j in stuck ==> HasPredIn(ops, stuck, j)
    ensures |walk| == steps + 1 && IsWalk(ops, walk) && walk[0] in stuck
    ensures forall k :: 0 <= k < |walk| ==> walk[k] < |ops|
  {
    if steps == 0 {
      walk := [start];
    } else {
      var rest: seq<nat> := WalkBack(ops, stuck, start, steps - 1);
      hide Edge;
      assert HasPredIn(ops, stuck, rest[0]);
      var i: nat :| i in stuck && i < |ops| && rest[0] < |ops| && Edge(ops, i, rest[0]);
      WalkPrepend(ops, i, rest);
      hide *;
      walk := [i] + rest;
    }
  }

  lemma Repeats(walk: seq<nat>, n: nat) returns (a: nat, b: nat)
    requires |walk| > n && forall k :: 0 <= k < |walk| ==> walk[k] < n
    ensures a < b < |walk| && walk[a] == walk[b]
  {
    if Distinct(walk) {
      DistinctBelow(walk, n);
    }
    a, b :| 0 <= a < b < |walk| && walk[a] == walk[b];
  }

  lemma InOrderMeansAcyclic(ops: seq<SyncOp>, order: seq<nat>)
    requires IsPermutation(order, |ops|) && EdgesLeadForward(ops, order)
    ensures Acyclic(ops)
  {
    forall walk | IsCycle(ops, walk)
      ensures false
    {
      DistinctBelow(order, |ops|);
      assert walk[|walk| - 1] in order;
      var b :| 0 <= b < |order| && order[b] == walk[|walk| - 1];
      DistinctAt(order, b);
      WalkDescends(ops, order, walk, b);
    }
  }

  lemma {:induction false} WalkDescends(ops: seq<SyncOp>, order: seq<nat>, walk: seq<nat>, b: nat)
    requires EdgesLeadForward(ops, order)
    requires |walk| >= 2 && IsWalk(ops, walk) && b < |order| && order[b] == walk[|walk| - 1]
    ensures walk[0] in order[..b]
    decreases |walk|
  {
    var last := |walk| - 1;
    assert Edge(ops, walk[last - 1], order[b]);
    var a :| 0 <= a < b && order[..b][a] == walk[last - 1];
    if last > 1 {
      WalkDescends(ops, order, walk[..last], a);
    }
  }

  // ----- Acyclic plans ----------------------------------------------------------------------

  /** No operation but a rename can close a cycle: directories come before longer paths, and a write
      before the removal of the same path. */
  lemma {:induction false} RanksRise(ops: seq<SyncOp>, walk: seq<nat>)
    requires |walk| >= 2 && IsWalk(ops, walk)
    requires forall k, j :: 0 <= k < |walk| && 0 <= j < |ops| && ops[walk[k]].kind == RENAME ==> !Edge(ops, walk[k], j)
    ensures Rank(ops[walk[0]]) < Rank(ops[walk[|walk| - 1]])
  {
    assert Edge(ops, walk[0], walk[1]);
    assert ops[walk[0]].kind != RENAME;
    if |walk| > 2 {
      RanksRise(ops, walk[1..]);
    }
  }

  function Rank(op: SyncOp): nat {
    2 * |op.path| + (if op.kind == REMOVE then 1 else 0)
  }

  /** A plan whose renames lead nowhere has no cycle, whatever its paths are. */
  lemma AcyclicWithoutRenameEdges(ops: seq<SyncOp>)
    requires forall i, j :: 0 <= i < |ops| && 0 <= j < |ops| && ops[i].kind == RENAME ==> !Edge(ops, i, j)
    ensures Acyclic(ops)
  {
    forall walk | IsCycle(ops, walk)
      ensures false
    {
      RanksRise(ops, walk);
    }
  }

  // ----- Coalescing -------------------------------------------------------------------------

  /** The last operation for every target drive and path, in order. */
  function KeepLast(ops: seq<SyncOp>): seq<SyncOp> {
    if ops == [] then []
    else (if HasKey(ops[1..], ops[0].Key()) then [] else [ops[0]]) + KeepLast(ops[1..])
  }

  predicate HasKey(ops: seq<SyncOp>, key: (DriveId, Path)) {
    exists i :: 0 <= i < |ops| && ops[i].Key() == key
  }

  method Coalesce(ops: seq<SyncOp>) returns (result: seq<SyncOp>)
    ensures result == KeepLast(ops)
  {
    var seen: set<(DriveId, Path)> := {};
    var reversed: seq<SyncOp> := [];
    var i := |ops|;
    assert ops[i..] == [];
    while i > 0
      invariant 0 <= i <= |ops|
      invariant forall key :: key in seen <==> HasKey(ops[i..], key)
      invariant Reverse(reversed) == KeepLast(ops[i..])
    {
      i := i - 1;
      assert ops[i..] == [ops[i]] + ops[i + 1..];
      var key := ops[i].Key();
      assert HasKey(ops[i..], key) by { assert ops[i..][0].Key() == key; }
      forall k
        ensures HasKey(ops[i..], k) <==> k == key || HasKey(ops[i + 1..], k)
      {
        HasKeyHead(ops[i..], k);
      }
      if key !in seen {
        seen := seen + {key};
        ReverseAppend(reversed, ops[i]);
        reversed := reversed + [ops[i]];
      }
    }
    assert ops[0..] == ops;
    result := Reverse(reversed);
  }

  lemma HasKeyHead(ops: seq<SyncOp>, key: (DriveId, Path))
    requires ops != []
    ensures HasKey(ops, key) <==> ops[0].Key() == key || HasKey(ops[1..], key)
  {
    if HasKey(ops[1..], key) {
      var i :| 0 <= i < |ops[1..]| && ops[1..][i].Key() == key;
      assert ops[i + 1].Key() == key;
    }
    if HasKey(ops, key) && ops[0].Key() != key {
      var i :| 0 <= i < |ops| && ops[i].Key() == key;
      assert ops[1..][i - 1].Key() == key;
    }
  }

  function Reverse<T>(s: seq<T>): seq<T> {
    if s == [] then [] else Reverse(s[1..]) + [s[0]]
  }

  lemma ReverseAppend<T>(s: seq<T>, x: T)
    ensures Reverse(s + [x]) == [x] + Reverse(s)
  {
    if s == [] {
      assert s + [x] == [x];
    } else {
      assert (s + [x])[1..] == s[1..] + [x];
    }
  }

  predicate DistinctKeys(ops: seq<SyncOp>) {
    forall i, j :: 0 <= i < j < |ops| ==> ops[i].Key() != ops[j].Key()
  }

  /** Coalescing leaves one operation for each key that occurs. */
  lemma {:induction false} KeepLastKeys(ops: seq<SyncOp>)
    ensures DistinctKeys(KeepLast(ops))
    ensures forall key :: HasKey(KeepLast(ops), key) <==> HasKey(ops, key)
  {
    if ops != [] {
      var rest, kept, here := ops[1..], KeepLast(ops[1..]), ops[0].Key();
      KeepLastKeys(rest);
      forall key
        ensures HasKey(KeepLast(ops), key) <==> HasKey(ops, key)
      {
        HasKeyHead(ops, key);
        if !HasKey(rest, here) {
          assert KeepLast(ops) == [ops[0]] + kept && KeepLast(ops)[1..] == kept;
          HasKeyHead(KeepLast(ops), key);
        } else {
          assert KeepLast(ops) == kept;
        }
      }
      assert !HasKey(rest, here) ==> !HasKey(kept, here);
    }
  }

  /** What is left for a key is the last operation with that key. */
  lemma {:induction false} KeepLastIsLast(ops: seq<SyncOp>, op: SyncOp)
    ensures op in KeepLast(ops) <==> IsLast(ops, op)
  {
    if ops != [] {
      KeepLastIsLast(ops[1..], op);
      KeepLastMember(ops, op);
    }
  }

  ghost predicate IsLast(ops: seq<SyncOp>, op: SyncOp) {
    exists i :: 0 <= i < |ops| && ops[i] == op && !HasKey(ops[i + 1..], op.Key())
  }

  lemma KeepLastMember(ops: seq<SyncOp>, op: SyncOp)
    requires ops != [] && (op in KeepLast(ops[1..]) <==> IsLast(ops[1..], op))
    ensures op in KeepLast(ops) <==> IsLast(ops, op)
  {
    var rest := ops[1..];
    if i :| 0 <= i < |rest| && rest[i] == op && !HasKey(rest[i + 1..], op.Key()) {
      assert ops[i + 1] == op && ops[i + 1 + 1..] == rest[i + 1..];
    }
    if i :| 0 <= i < |ops| && ops[i] == op && !HasKey(ops[i + 1..], op.Key()) {
      if i > 0 {
        assert rest[i - 1] == op && rest[i - 1 + 1..] == ops[i + 1..];
      }
    }
  }

  /** A plan with no two operations for one key passes through unchanged. */
  lemma {:induction false} KeepLastIdentity(ops: seq<SyncOp>)
    requires DistinctKeys(ops)
    ensures KeepLast(ops) == ops
  {
    if ops != [] {
      KeepLastIdentity(ops[1..]);
    }
  }
}
