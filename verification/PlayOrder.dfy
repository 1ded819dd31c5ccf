/** The order in which a plan's goals are played: `dependencyOrder` and `inPlayOrder` of
    `packages/core/src/setup.ts`. Goals are told apart by their index in the input. */
module PlayOrder {
  import opened Lists
  import opened JsText
  import opened Options

  type Ref = string

  /** `from` is the goal's own reference, `needs` the references of the goals it needs, and
      `slug` its proposed id after `slug`. */
  datatype Goal = Goal(from: Ref, person: string, needs: seq<Ref>, slug: string, instruction: Text)

  // ----- What must come first -----

  /** `new Map(goals.map((g) => [g.from, g]))`: the last goal with a reference wins. */
  function ByRef(goals: seq<Goal>, ref: Ref): (r: Option<nat>)
    ensures r.Some? ==> r.value < |goals| && goals[r.value].from == ref
    ensures r.None? ==> forall i :: 0 <= i < |goals| ==> goals[i].from != ref
  {
    if goals == [] then None
    else if goals[|goals| - 1].from == ref then Some(|goals| - 1)
    else ByRef(goals[..|goals| - 1], ref)
  }

  /** Goal `a` must be played before goal `b`: it is an earlier goal of the same person, or a
      goal of another person that `b` needs. */
  ghost predicate MustPrecede(goals: seq<Goal>, a: nat, b: nat) {
    && a < |goals| && b < |goals|
    && if goals[a].person == goals[b].person then a < b
       else exists ref :: ref in goals[b].needs && ByRef(goals, ref) == Some(a)
  }

  ghost predicate Edge(goals: seq<Goal>, walk: seq<nat>, k: nat)
    requires k + 1 < |walk|
  {
    MustPrecede(goals, walk[k], walk[k + 1])
  }

  /** Each goal of the walk must precede the next one. */
  ghost predicate IsWalk(goals: seq<Goal>, walk: seq<nat>) {
    walk != [] && forall k :: 0 <= k < |walk| - 1 ==> Edge(goals, walk, k)
  }

  /** A round of goals each of which must precede the next, back to the first. */
  ghost predicate IsCycle(goals: seq<Goal>, c: seq<nat>) {
    |c| >= 2 && c[0] == c[|c| - 1] && IsWalk(goals, c)
  }

  ghost predicate Cyclic(goals: seq<Goal>) {
    exists c :: IsCycle(goals, c)
  }

  /** `order` lists every index below `n` exactly once. */
  ghost predicate IsPermutation(order: seq<nat>, n: nat) {
    |order| == n && Distinct(order) && forall i :: 0 <= i < n ==> order[i] < n
  }

  function Identity(n: nat): seq<nat> {
    seq(n, i => i)
  }

  ghost predicate Respects(goals: seq<Goal>, order: seq<nat>) {
    forall y, a: nat :: 0 <= y < |order| && MustPrecede(goals, a, order[y]) ==> a in order[..y]
  }

  /** At the first place where the orders differ, `a` has the smaller index. */
  ghost predicate LexLess(a: seq<nat>, b: seq<nat>) {
    exists k :: 0 <= k < |a| && k < |b| && a[..k] == b[..k] && a[k] < b[k]
  }

  /** Of all orders that respect the relation, `order` is the one closest to the input. */
  ghost predicate IsFirstOrder(goals: seq<Goal>, order: seq<nat>) {
    && IsPermutation(order, |goals|) && Respects(goals, order)
    && forall other :: IsPermutation(other, |goals|) && Respects(goals, other) ==> other == order || LexLess(order, other)
  }

  // ----- An order and a cycle exclude each other -----

  lemma {:induction false} WalkGoesForward(goals: seq<Goal>, order: seq<nat>, c: seq<nat>, y: nat)
    requires Respects(goals, order)
    requires |c| >= 2 && IsWalk(goals, c)
    requires y < |order| && order[y] == c[|c| - 1]
    ensures c[0] in order[..y]
    decreases |c|
  {
    var n := |c| - 1;
    assert Edge(goals, c, n - 1);
    assert c[n - 1] in order[..y];
    if n > 1 {
      var x :| 0 <= x < y && order[x] == c[n - 1];
      WalkPrefix(goals, c, n);
      WalkGoesForward(goals, order, c[..n], x);
      assert order[..x] <= order[..y];
    }
  }

  lemma OrderMeansAcyclic(goals: seq<Goal>, order: seq<nat>)
    requires IsPermutation(order, |goals|) && Respects(goals, order)
    ensures !Cyclic(goals)
  {
    forall c | IsCycle(goals, c) ensures false {
      assert Edge(goals, c, 0);
      PermutationHasAll(order, |goals|, c[0]);
      var y :| 0 <= y < |order| && order[y] == c[0];
      WalkGoesForward(goals, order, c, y);
    }
  }

  lemma PermutationHasAll(order: seq<nat>, n: nat, i: nat)
    requires IsPermutation(order, n) && i < n
    ensures i in order
  {
    if i !in order {
      DistinctCount(order);
      Subset(Placed(order), Below(n) - {i});
    }
  }

  ghost predicate Waits(goals: seq<Goal>, waiting: set<nat>, i: nat) {
    exists a :: a in waiting && MustPrecede(goals, a, i)
  }

  /** When every goal of a non-empty set waits for another goal of the set, the waiting goes
      round in a circle. */
  lemma {:induction false} WaitingMeansCycle(goals: seq<Goal>, waiting: set<nat>, walk: seq<nat>)
    requires forall i {:trigger Waits(goals, waiting, i)} :: i in waiting ==> Waits(goals, waiting, i)
    requires IsWalk(goals, walk) && Distinct(walk) && forall i :: i in walk ==> i in waiting
    ensures Cyclic(goals)
    decreases |waiting| - |walk|
  {
    assert walk[0] in waiting && Waits(goals, waiting, walk[0]);
    var a :| a in waiting && MustPrecede(goals, a, walk[0]);
    var longer := [a] + walk;
    WalkFrom(goals, a, walk);
    if a in walk {
      var j :| 0 <= j < |walk| && walk[j] == a;
      WalkPrefix(goals, longer, j + 2);
      assert IsCycle(goals, longer[..j + 2]);
    } else {
      DistinctCount(longer);
      Subset(Placed(longer), waiting);
      WaitingMeansCycle(goals, waiting, longer);
    }
  }

  lemma WalkFrom(goals: seq<Goal>, a: nat, walk: seq<nat>)
    requires IsWalk(goals, walk) && MustPrecede(goals, a, walk[0])
    ensures IsWalk(goals, [a] + walk)
  {
    forall k | 0 <= k < |walk| ensures Edge(goals, [a] + walk, k) {
      assert k > 0 ==> Edge(goals, walk, k - 1);
    }
  }

  lemma WalkPrefix(goals: seq<Goal>, walk: seq<nat>, n: nat)
    requires IsWalk(goals, walk) && 0 < n <= |walk|
    ensures IsWalk(goals, walk[..n])
  {
    forall k | 0 <= k < n - 1 ensures Edge(goals, walk[..n], k) {
      assert Edge(goals, walk, k);
    }
  }

  // ----- `dependencyOrder` -----

  /** The goals that `dependencyOrder` records as coming before goal `i`: the person's previous
      goal, and the needed goals of other people. */
  ghost predicate Recorded(goals: seq<Goal>, a: nat, i: nat) {
    && MustPrecede(goals, a, i)
    && (goals[a].person == goals[i].person ==> forall b :: a < b < i ==> goals[b].person != goals[i].person)
  }

  /** One of the first `k` needs of goal `i` is goal `a` of another person. */
  ghost predicate Needed(goals: seq<Goal>, i: nat, k: nat, a: nat)
    requires i < |goals| && k <= |goals[i].needs|
  {
    && a < |goals| && goals[a].person != goals[i].person
    && exists x :: 0 <= x < k && ByRef(goals, goals[i].needs[x]) == Some(a)
  }

  method PredecessorsOf(goals: seq<Goal>, i: nat) returns (before: set<nat>)
    requires i < |goals|
    ensures forall a: nat :: a in before <==> Recorded(goals, a, i)
  {
    before := {};
    var j := i;
    while j > 0 && goals[j - 1].person != goals[i].person
      invariant 0 <= j <= i
      invariant forall b :: j <= b < i ==> goals[b].person != goals[i].person
    {
      j := j - 1;
    }
    if j > 0 {
      before := {j - 1};
    }
    ghost var own := before;
    var k := 0;
    while k < |goals[i].needs|
      invariant 0 <= k <= |goals[i].needs|
      invariant forall a: nat :: a in before <==> a in own || Needed(goals, i, k, a)
    {
      var needed := ByRef(goals, goals[i].needs[k]);
      forall a: nat
        ensures Needed(goals, i, k + 1, a) <==>
                Needed(goals, i, k, a) || (needed == Some(a) && goals[a].person != goals[i].person)
      {
        if needed == Some(a) && goals[a].person != goals[i].person {
          assert ByRef(goals, goals[i].needs[k]) == Some(a);
        }
      }
      if needed.Some? && needed.value != i && goals[needed.value].person != goals[i].person {
        before := before + {needed.value};
      }
      k := k + 1;
    }
    forall a: nat
      ensures a in before <==> Recorded(goals, a, i)
    {
      if Recorded(goals, a, i) && goals[a].person != goals[i].person {
        var ref :| ref in goals[i].needs && ByRef(goals, ref) == Some(a);
        var x :| 0 <= x < |goals[i].needs| && goals[i].needs[x] == ref;
        assert Needed(goals, i, k, a);
      }
    }
  }

  /** `goals.find(...)` in the loop: the first goal that is not placed but whose recorded
      predecessors all are. */
  function FirstReady(before: seq<set<nat>>, placed: set<nat>, from: nat): (r: Option<nat>)
    requires from <= |before|
    ensures r.Some? ==> from <= r.value < |before| && r.value !in placed && before[r.value] <= placed
    ensures r.Some? ==> forall i :: from <= i < r.value ==> i in placed || !(before[i] <= placed)
    ensures r.None? ==> forall i :: from <= i < |before| ==> i in placed || !(before[i] <= placed)
    decreases |before| - from
  {
    if from == |before| then None
    else if from !in placed && before[from] <= placed then Some(from)
    else FirstReady(before, placed, from + 1)
  }

  ghost predicate RecordedIn(goals: seq<Goal>, before: seq<set<nat>>) {
    |before| == |goals| && forall i, a: nat :: 0 <= i < |goals| ==> (a in before[i] <==> Recorded(goals, a, i))
  }

  /** Each step took the first goal that was ready. */
  ghost predicate Greedy(before: seq<set<nat>>, order: seq<nat>) {
    && Distinct(order)
    && (forall k :: 0 <= k < |order| ==> order[k] < |before| && before[order[k]] <= Placed(order[..k]))
    && forall k, i :: 0 <= k < |order| && 0 <= i < order[k] ==> i in order[..k] || !(before[i] <= Placed(order[..k]))
  }

  method DependencyOrder(goals: seq<Goal>) returns (r: Option<seq<nat>>)
    ensures r.None? <==> Cyclic(goals)
    ensures r.Some? ==> IsFirstOrder(goals, r.value)
  {
    var before: seq<set<nat>> := [];
    while |before| < |goals|
      invariant |before| <= |goals|
      invariant forall i, a: nat :: 0 <= i < |before| ==> (a in before[i] <==> Recorded(goals, a, i))
    {
      var own := PredecessorsOf(goals, |before|);
      before := before + [own];
    }
    var placed: set<nat> := {};
    var ordered: seq<nat> := [];
    while |ordered| < |goals|
      invariant Greedy(before, ordered) && placed == Placed(ordered)
      invariant |ordered| <= |goals|
      decreases |goals| - |ordered|
    {
      var next := FirstReady(before, placed, 0);
      if next.None? {
        StuckMeansCycle(goals, before, ordered);
        return None;
      }
      GreedyStep(before, ordered, next.value);
      placed := placed + {next.value};
      ordered := ordered + [next.value];
    }
    GreedyIsFirst(goals, before, ordered);
    OrderMeansAcyclic(goals, ordered);
    r := Some(ordered);
  }

  lemma GreedyStep(before: seq<set<nat>>, order: seq<nat>, next: nat)
    requires Greedy(before, order) && next < |before| && next !in order
    requires before[next] <= Placed(order)
    requires forall i :: 0 <= i < next ==> i in Placed(order) || !(before[i] <= Placed(order))
    ensures Greedy(before, order + [next])
    ensures Placed(order + [next]) == Placed(order) + {next}
  {
    var longer := order + [next];
    assert forall k :: 0 <= k <= |order| ==> longer[..k] == order[..k];
    assert longer[..|order|] == order;
  }

  lemma StuckMeansCycle(goals: seq<Goal>, before: seq<set<nat>>, order: seq<nat>)
    requires RecordedIn(goals, before) && Greedy(before, order) && |order| < |goals|
    requires forall i :: 0 <= i < |before| ==> i in Placed(order) || !(before[i] <= Placed(order))
    ensures Cyclic(goals)
  {
    var waiting := Below(|goals|) - Placed(order);
    forall i | i in waiting
      ensures Waits(goals, waiting, i)
    {
      var a :| a in before[i] && a !in Placed(order);
      assert Recorded(goals, a, i);
    }
    var i := SomeWaiting(order, |goals|);
    WaitingMeansCycle(goals, waiting, [i]);
  }

  lemma SomeWaiting(order: seq<nat>, n: nat) returns (i: nat)
    requires Distinct(order) && |order| < n
    ensures i < n && i !in order
  {
    DistinctCount(order);
    if forall x :: x in Below(n) ==> x in Placed(order) {
      Subset(Below(n), Placed(order));
    }
    i :| i in Below(n) && i !in Placed(order);
  }

  /** Placing each goal after its recorded predecessors places it after all it must follow. */
  lemma {:induction false} RecordedSuffices(goals: seq<Goal>, before: seq<set<nat>>, order: seq<nat>, y: nat, a: nat)
    requires RecordedIn(goals, before) && Greedy(before, order)
    requires y < |order| && MustPrecede(goals, a, order[y])
    ensures a in order[..y]
    decreases order[y] - a
  {
    var b := order[y];
    if Recorded(goals, a, b) {
      assert a in before[b];
    } else {
      var mid := LastBetween(goals, a, b, b - 1);
      assert Recorded(goals, mid, b);
      assert mid in before[b];
      var x :| 0 <= x < y && order[x] == mid;
      RecordedSuffices(goals, before, order, x, a);
      assert order[..x] <= order[..y];
    }
  }

  lemma LastBetween(goals: seq<Goal>, a: nat, b: nat, from: nat) returns (mid: nat)
    requires a <= from < b < |goals|
    requires exists m :: a < m <= from && goals[m].person == goals[b].person
    requires forall m :: from < m < b ==> goals[m].person != goals[b].person
    ensures a < mid < b && goals[mid].person == goals[b].person
    ensures forall m :: mid < m < b ==> goals[m].person != goals[b].person
  {
    mid := from;
    while goals[mid].person != goals[b].person
      invariant a < mid < b
      invariant exists m :: a < m <= mid && goals[m].person == goals[b].person
      invariant forall m :: mid < m < b ==> goals[m].person != goals[b].person
      decreases mid
    {
      mid := mid - 1;
    }
  }

  lemma GreedyIsFirst(goals: seq<Goal>, before: seq<set<nat>>, order: seq<nat>)
    requires RecordedIn(goals, before) && Greedy(before, order) && |order| == |goals|
    ensures IsFirstOrder(goals, order)
  {
    forall y, a: nat | 0 <= y < |order| && MustPrecede(goals, a, order[y])
      ensures a in order[..y]
    {
      RecordedSuffices(goals, before, order, y, a);
    }
    forall other | IsPermutation(other, |goals|) && Respects(goals, other) && other != order
      ensures LexLess(order, other)
    {
      GreedyBeats(goals, before, order, other);
    }
  }

  lemma GreedyBeats(goals: seq<Goal>, before: seq<set<nat>>, order: seq<nat>, other: seq<nat>)
    requires RecordedIn(goals, before) && Greedy(before, order) && |order| == |goals|
    requires IsPermutation(other, |goals|) && Respects(goals, other) && other != order
    ensures LexLess(order, other)
  {
    hide MustPrecede, RecordedIn, Greedy, Respects, Recorded;
    GreedyPermutes(goals, before, order);
    var k := FirstDifference(order, other);
    BeforeIsPlaced(goals, before, other, k);
    GreedyTakesLeast(before, order, k, other[k]);
  }

  lemma GreedyPermutes(goals: seq<Goal>, before: seq<set<nat>>, order: seq<nat>)
    requires RecordedIn(goals, before) && Greedy(before, order) && |order| == |goals|
    ensures IsPermutation(order, |before|) && |before| == |goals|
  {
  }

  lemma BeforeIsPlaced(goals: seq<Goal>, before: seq<set<nat>>, other: seq<nat>, k: nat)
    requires RecordedIn(goals, before) && IsPermutation(other, |goals|) && Respects(goals, other) && k < |other|
    ensures before[other[k]] <= Placed(other[..k])
  {
    hide MustPrecede;
    forall a | a in before[other[k]] ensures a in Placed(other[..k]) {
      assert Recorded(goals, a, other[k]);
    }
  }

  lemma GreedyTakesLeast(before: seq<set<nat>>, order: seq<nat>, k: nat, o: nat)
    requires Greedy(before, order) && k < |order| && o < |before|
    requires o !in order[..k] && before[o] <= Placed(order[..k])
    ensures order[k] <= o
  {
  }

  lemma FirstDifference(a: seq<nat>, b: seq<nat>) returns (k: nat)
    requires |a| == |b| && a != b
    ensures k < |a| && a[..k] == b[..k] && a[k] != b[k]
  {
    k := 0;
    while a[k] == b[k]
      invariant k < |a| && a[..k] == b[..k]
      invariant a[k..] != b[k..]
      decreases |a| - k
    {
      assert a[k..] == [a[k]] + a[k + 1..] && b[k..] == [b[k]] + b[k + 1..];
      k := k + 1;
    }
  }

  /** A plan that is already in a possible order stays as it is. */
  lemma RespectedOrderStays(goals: seq<Goal>, order: seq<nat>)
    requires IsFirstOrder(goals, order)
    requires forall a: nat, b: nat :: MustPrecede(goals, a, b) ==> a < b
    ensures order == Identity(|goals|)
  {
    var same := Identity(|goals|);
    assert IsPermutation(same, |goals|);
    forall y, a: nat | 0 <= y < |same| && MustPrecede(goals, a, same[y])
      ensures a in same[..y]
    {
      assert same[..y][a] == a;
    }
    assert Respects(goals, same);
    forall k | 0 <= k < |order| && order[..k] == same[..k]
      ensures order[k] >= same[k]
    {
      if order[k] < k {
        NotAgain(order, k, order[k]);
      }
    }
  }

  lemma NotAgain(order: seq<nat>, k: nat, x: nat)
    requires Distinct(order) && x < k < |order|
    requires order[..k] == Identity(|order|)[..k]
    ensures order[k] != x
  {
    assert order[x] == order[..k][x] == Identity(|order|)[..k][x];
  }
}
