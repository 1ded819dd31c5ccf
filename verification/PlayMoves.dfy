/** Which goals a playing order moves up, for every playing order, complete or not: the order that
    `inPlayOrder` of `packages/core/src/setup.ts` gives is the one sorted by the first step that pulls
    each goal. */
module PlayMoves {
  import opened Lists
  import opened PlayOrder
  import opened Setup
  import opened Planning

  /** The step names the goal, or a later one of the same person. */
  predicate Pulls(goals: seq<Goal>, ref: Ref, g: nat) {
    exists h :: g <= h < |goals| && goals[h].from == ref && goals[h].person == goals[g].person
  }

  /** One of the first `k` steps pulls the goal. */
  predicate Pulled(goals: seq<Goal>, playOrder: seq<Ref>, k: nat, g: nat)
    requires k <= |playOrder|
  {
    exists j :: 0 <= j < k && Pulls(goals, playOrder[j], g)
  }

  /** Some step pulls `a` before any has pulled `b`. */
  ghost predicate PulledBefore(goals: seq<Goal>, playOrder: seq<Ref>, a: nat, b: nat) {
    exists k :: 0 <= k <= |playOrder| && Pulled(goals, playOrder, k, a) && !Pulled(goals, playOrder, k, b)
  }

  /** `a` is pulled before `b`, or both by one step, or neither, and `a` was proposed before. */
  ghost predicate GoesBefore(goals: seq<Goal>, playOrder: seq<Ref>, a: nat, b: nat) {
    || PulledBefore(goals, playOrder, a, b)
    || (a < b && forall k :: 0 <= k <= |playOrder| ==> (Pulled(goals, playOrder, k, a) <==> Pulled(goals, playOrder, k, b)))
  }

  /** What the steps so far have ordered. */
  ghost predicate OrderedSoFar(goals: seq<Goal>, playOrder: seq<Ref>, k: nat, st: Split)
    requires k <= |playOrder|
  {
    && Splits(goals, st.ordered, st.left)
    && (forall g: nat :: g in st.ordered <==> g < |goals| && Pulled(goals, playOrder, k, g))
    && forall x, y :: 0 <= x < y < |st.ordered| ==> BeforeSoFar(goals, playOrder, k, st.ordered[x], st.ordered[y])
  }

  ghost predicate BeforeSoFar(goals: seq<Goal>, playOrder: seq<Ref>, k: nat, a: nat, b: nat)
    requires k <= |playOrder|
  {
    || PulledBefore(goals, playOrder, a, b)
    || (a < b && forall j :: 0 <= j <= k ==> (Pulled(goals, playOrder, j, a) <==> Pulled(goals, playOrder, j, b)))
  }

  lemma PulledGrows(goals: seq<Goal>, playOrder: seq<Ref>, j: nat, k: nat, g: nat)
    requires j <= k <= |playOrder| && Pulled(goals, playOrder, j, g)
    ensures Pulled(goals, playOrder, k, g)
  {
  }

  lemma PulledOneMore(goals: seq<Goal>, playOrder: seq<Ref>, k: nat, g: nat)
    requires k < |playOrder|
    ensures Pulled(goals, playOrder, k + 1, g) <==> Pulled(goals, playOrder, k, g) || Pulls(goals, playOrder[k], g)
  {
    hide Pulls;
    if Pulls(goals, playOrder[k], g) {
      assert Pulled(goals, playOrder, k + 1, g);
    }
  }

  /** A goal is ordered or left, not both. */
  lemma LeftAre(goals: seq<Goal>, st: Split, g: nat)
    requires Splits(goals, st.ordered, st.left)
    ensures g in st.left <==> g < |goals| && g !in st.ordered
  {
    if g < |goals| {
      HasAll(goals, st.ordered, st.left, g);
    }
    Reassembled(goals, st.ordered, st.left);
    if g in st.left {
      var j :| 0 <= j < |st.left| && st.left[j] == g;
      DistinctParts(st.ordered, st.left, j);
    }
  }

  /** What a step moves: the goals that are left and that it pulls. */
  function Moved(goals: seq<Goal>, st: Split, ref: Ref): (r: seq<nat>)
    requires AllBelow(st.left, |goals|)
  {
    var i := FindRef(goals, st.left, ref);
    if i == |st.left| then [] else Filter(goals, st.left[..i + 1], goals[st.left[i]].person, true)
  }

  lemma MoveUpIs(goals: seq<Goal>, st: Split, ref: Ref)
    requires AllBelow(st.left, |goals|)
    ensures MoveUp(goals, st, ref).ordered == st.ordered + Moved(goals, st, ref)
    ensures Increasing(st.left) ==> Increasing(Moved(goals, st, ref))
  {
    var i := FindRef(goals, st.left, ref);
    if i < |st.left| && Increasing(st.left) {
      assert Increasing(st.left[..i + 1]);
    }
  }

  lemma MovedMeansPulled(goals: seq<Goal>, st: Split, ref: Ref, g: nat)
    requires AllBelow(st.left, |goals|) && Increasing(st.left) && g in Moved(goals, st, ref)
    ensures g in st.left && Pulls(goals, ref, g)
  {
    var i := FindRef(goals, st.left, ref);
    var j :| 0 <= j < i + 1 && st.left[..i + 1][j] == g;
    assert st.left[j] == g && st.left[j] <= st.left[i];
  }

  lemma PulledMeansMoved(goals: seq<Goal>, playOrder: seq<Ref>, k: nat, st: Split, g: nat)
    requires k < |playOrder| && DistinctRefs(goals) && OrderedSoFar(goals, playOrder, k, st)
    requires AllBelow(st.left, |goals|) && g in st.left && Pulls(goals, playOrder[k], g)
    ensures g in Moved(goals, st, playOrder[k])
  {
    hide Splits;
    var ref := playOrder[k];
    var h :| g <= h < |goals| && goals[h].from == ref && goals[h].person == goals[g].person;
    LeftAre(goals, st, g);
    LeftAre(goals, st, h);
    hide Pulls;
    forall j | 0 <= j < k ensures Pulls(goals, playOrder[j], h) ==> Pulls(goals, playOrder[j], g) {
      PullsEarlier(goals, playOrder[j], g, h);
    }
    TakesUpTo(goals, st, ref, g, h);
  }

  lemma PullsEarlier(goals: seq<Goal>, ref: Ref, g: nat, h: nat)
    requires g <= h < |goals| && goals[g].person == goals[h].person
    ensures Pulls(goals, ref, h) ==> Pulls(goals, ref, g)
  {
  }

  lemma TakesUpTo(goals: seq<Goal>, st: Split, ref: Ref, g: nat, h: nat)
    requires Splits(goals, st.ordered, st.left) && DistinctRefs(goals) && AllBelow(st.left, |goals|)
    requires g in st.left && h in st.left && g <= h && goals[h].from == ref && goals[h].person == goals[g].person
    ensures g in Moved(goals, st, ref)
  {
    var left := st.left;
    var i := FindRef(goals, left, ref);
    var p :| 0 <= p < |left| && left[p] == h;
    assert i < |left| && left[i] == h;
    var j :| 0 <= j < |left| && left[j] == g;
    assert j <= i;
    assert left[..i + 1][j] == g;
  }

  lemma StepOrders(goals: seq<Goal>, playOrder: seq<Ref>, k: nat, st: Split)
    requires k < |playOrder| && DistinctRefs(goals) && OrderedSoFar(goals, playOrder, k, st) && AllBelow(st.left, |goals|)
    ensures OrderedSoFar(goals, playOrder, k + 1, MoveUp(goals, st, playOrder[k]))
  {
    hide Splits, Pulls, Pulled, Moved, MoveUp, PulledBefore, BeforeSoFar;
    var next, moved := MoveUp(goals, st, playOrder[k]), Moved(goals, st, playOrder[k]);
    MoveUpSplits(goals, st, playOrder[k]);
    LeftIncreases(goals, st);
    MoveUpIs(goals, st, playOrder[k]);
    forall g: nat ensures g in next.ordered <==> g < |goals| && Pulled(goals, playOrder, k + 1, g) {
      OrderedAfter(goals, playOrder, k, st, g);
    }
    forall x, y | 0 <= x < y < |next.ordered| ensures BeforeSoFar(goals, playOrder, k + 1, next.ordered[x], next.ordered[y]) {
      PairAfter(goals, playOrder, k, st, x, y);
    }
  }

  lemma LeftIncreases(goals: seq<Goal>, st: Split)
    requires Splits(goals, st.ordered, st.left)
    ensures Increasing(st.left)
  {
  }

  lemma OrderedAfter(goals: seq<Goal>, playOrder: seq<Ref>, k: nat, st: Split, g: nat)
    requires k < |playOrder| && DistinctRefs(goals) && OrderedSoFar(goals, playOrder, k, st) && AllBelow(st.left, |goals|)
    ensures g in st.ordered + Moved(goals, st, playOrder[k]) <==> g < |goals| && Pulled(goals, playOrder, k + 1, g)
  {
    hide Splits, Pulls, Pulled, Moved, PulledBefore, BeforeSoFar;
    LeftIncreases(goals, st);
    LeftAre(goals, st, g);
    PulledOneMore(goals, playOrder, k, g);
    if g in Moved(goals, st, playOrder[k]) {
      MovedMeansPulled(goals, st, playOrder[k], g);
    }
    if g in st.left && Pulls(goals, playOrder[k], g) {
      PulledMeansMoved(goals, playOrder, k, st, g);
    }
  }

  lemma PairAfter(goals: seq<Goal>, playOrder: seq<Ref>, k: nat, st: Split, x: nat, y: nat)
    requires k < |playOrder| && DistinctRefs(goals) && OrderedSoFar(goals, playOrder, k, st) && AllBelow(st.left, |goals|)
    requires var order := st.ordered + Moved(goals, st, playOrder[k]); x < y < |order|
    ensures var order := st.ordered + Moved(goals, st, playOrder[k]); BeforeSoFar(goals, playOrder, k + 1, order[x], order[y])
  {
    hide Splits, Pulls, Pulled, Moved;
    LeftIncreases(goals, st);
    MoveUpIs(goals, st, playOrder[k]);
    var order := st.ordered + Moved(goals, st, playOrder[k]);
    var a, b := order[x], order[y];
    OrderedAfter(goals, playOrder, k, st, a);
    OrderedAfter(goals, playOrder, k, st, b);
    if y < |st.ordered| {
      assert a in st.ordered && b in st.ordered;
      assert BeforeSoFar(goals, playOrder, k, a, b);
    } else {
      assert b in Moved(goals, st, playOrder[k]);
      NotPulledYet(goals, playOrder, k, st, b);
      if x < |st.ordered| {
        assert a in st.ordered;
      } else {
        assert a in Moved(goals, st, playOrder[k]);
        NotPulledYet(goals, playOrder, k, st, a);
      }
    }
  }

  lemma NotPulledYet(goals: seq<Goal>, playOrder: seq<Ref>, k: nat, st: Split, g: nat)
    requires k < |playOrder| && OrderedSoFar(goals, playOrder, k, st) && AllBelow(st.left, |goals|) && g in Moved(goals, st, playOrder[k])
    ensures forall j :: 0 <= j <= k ==> !Pulled(goals, playOrder, j, g)
  {
    hide Splits, Pulls, Pulled, Moved, BeforeSoFar;
    LeftIncreases(goals, st);
    MovedMeansPulled(goals, st, playOrder[k], g);
    LeftAre(goals, st, g);
    forall j | 0 <= j <= k ensures !Pulled(goals, playOrder, j, g) {
      if Pulled(goals, playOrder, j, g) {
        PulledGrows(goals, playOrder, j, k, g);
      }
    }
  }

  lemma {:induction false} MovesOrder(goals: seq<Goal>, playOrder: seq<Ref>, k: nat)
    requires k <= |playOrder| && DistinctRefs(goals)
    ensures OrderedSoFar(goals, playOrder, k, Moves(goals, playOrder[..k]))
  {
    hide OrderedSoFar, MoveUp, Moves, Splits;
    if k == 0 {
      NothingMoved(goals, playOrder);
    } else {
      MovesSplit(goals, playOrder[..k - 1]);
      SplitIsBelow(goals, Moves(goals, playOrder[..k - 1]));
      MovesOrder(goals, playOrder, k - 1);
      MovesOneMore(goals, playOrder, k);
      StepOrders(goals, playOrder, k - 1, Moves(goals, playOrder[..k - 1]));
    }
  }

  lemma NothingMoved(goals: seq<Goal>, playOrder: seq<Ref>)
    ensures OrderedSoFar(goals, playOrder, 0, Moves(goals, playOrder[..0]))
  {
    hide Splits;
    MovesSplit(goals, playOrder[..0]);
    assert Moves(goals, playOrder[..0]).ordered == [];
  }

  lemma SplitIsSorted(goals: seq<Goal>, playOrder: seq<Ref>, st: Split, x: nat, y: nat)
    requires OrderedSoFar(goals, playOrder, |playOrder|, st) && x < y < |st.ordered + st.left|
    ensures GoesBefore(goals, playOrder, (st.ordered + st.left)[x], (st.ordered + st.left)[y])
  {
    hide Splits, Pulls, Pulled;
    var a, b := (st.ordered + st.left)[x], (st.ordered + st.left)[y];
    LeftIncreases(goals, st);
    if y < |st.ordered| {
      assert BeforeSoFar(goals, playOrder, |playOrder|, a, b);
    } else {
      assert b in st.left;
      NeverPulled(goals, playOrder, st, b);
      if x < |st.ordered| {
        assert a in st.ordered;
      } else {
        assert a in st.left;
        NeverPulled(goals, playOrder, st, a);
      }
    }
  }

  /** For every playing order: the goals are sorted by the first step that pulls them, those that none
      pulls come last, and what one step pulls, or none, keeps the order in which it was proposed. */
  lemma PlayedIsSorted(goals: seq<Goal>, playOrder: seq<Ref>, x: nat, y: nat)
    requires DistinctRefs(goals) && x < y < |goals|
    ensures GoesBefore(goals, playOrder, Played(goals, playOrder)[x], Played(goals, playOrder)[y])
  {
    var st := Moves(goals, playOrder);
    MovesOrder(goals, playOrder, |playOrder|);
    assert playOrder[..|playOrder|] == playOrder;
    assert Played(goals, playOrder) == st.ordered + st.left;
    hide OrderedSoFar, GoesBefore, Moves, Played;
    SplitIsSorted(goals, playOrder, st, x, y);
  }

  lemma NeverPulled(goals: seq<Goal>, playOrder: seq<Ref>, st: Split, g: nat)
    requires OrderedSoFar(goals, playOrder, |playOrder|, st) && g in st.left
    ensures forall j :: 0 <= j <= |playOrder| ==> !Pulled(goals, playOrder, j, g)
  {
    hide Splits, Pulls, Pulled, BeforeSoFar;
    LeftAre(goals, st, g);
    forall j | 0 <= j <= |playOrder| ensures !Pulled(goals, playOrder, j, g) {
      if Pulled(goals, playOrder, j, g) {
        PulledGrows(goals, playOrder, j, |playOrder|, g);
      }
    }
  }

  // ----- What that makes of the order of a plan -----

  /** Of all orders that let come first what must, the order is the one that always takes next what
      goes first by the playing order; when no order does, it is the playing order itself. */
  ghost predicate FollowsPlay(goals: seq<Goal>, playOrder: seq<Ref>, order: seq<nat>) {
    if Cyclic(goals) then forall x, y :: 0 <= x < y < |order| ==> GoesBefore(goals, playOrder, order[x], order[y])
    else
      && Respects(goals, order)
      && forall other :: IsPermutation(other, |goals|) && Respects(goals, other) ==> other == order || TakesFirst(goals, playOrder, order, other)
  }

  /** Where they first differ, `order` takes what goes first. */
  ghost predicate TakesFirst(goals: seq<Goal>, playOrder: seq<Ref>, order: seq<nat>, other: seq<nat>) {
    exists k :: 0 <= k < |order| && k < |other| && order[..k] == other[..k] && GoesBefore(goals, playOrder, order[k], other[k])
  }

  /** A cycle stays one when the goals are reordered. */
  lemma CyclesStay(goals: seq<Goal>, order: seq<nat>)
    requires IsPermutation(order, |goals|) && KeepsPersons(goals, order) && DistinctRefs(goals)
    requires Cyclic(goals)
    ensures Cyclic(Permuted(goals, order))
  {
    hide MustPrecede;
    var c :| IsCycle(goals, c);
    forall k | 0 <= k < |c| ensures c[k] < |goals| {
      var j := if k == |c| - 1 then k - 1 else k;
      assert Edge(goals, c, j);
      PrecedesAmong(goals, c[j], c[j + 1]);
    }
    var d := Places(order, |goals|, c);
    forall k | 0 <= k < |d| - 1 ensures Edge(Permuted(goals, order), d, k) {
      assert Edge(goals, c, k);
      SameRelation(goals, order, d[k], d[k + 1]);
    }
    SamePlace(order, d[0], d[|d| - 1]);
    assert IsCycle(Permuted(goals, order), d);
  }

  lemma SamePlace(order: seq<nat>, a: nat, b: nat)
    requires Distinct(order) && a < |order| && b < |order| && order[a] == order[b]
    ensures a == b
  {
  }

  /** Where the goals of a walk, or of another order, stand in this one. */
  lemma {:induction false} Places(order: seq<nat>, n: nat, c: seq<nat>) returns (d: seq<nat>)
    requires IsPermutation(order, n)
    ensures |d| == |c| && forall k :: 0 <= k < |c| && c[k] < n ==> d[k] < n && order[d[k]] == c[k]
  {
    d := [];
    if c != [] {
      d := Places(order, n, c[..|c| - 1]);
      var x := c[|c| - 1];
      var p := 0;
      if x < n {
        PermutationHasAll(order, n, x);
        p :| 0 <= p < |order| && order[p] == x;
      }
      d := d + [p];
    }
  }

  lemma PlacesPermute(order: seq<nat>, n: nat, other: seq<nat>, d: seq<nat>)
    requires IsPermutation(order, n) && IsPermutation(other, n)
    requires |d| == n && forall k :: 0 <= k < n ==> d[k] < n && order[d[k]] == other[k]
    ensures IsPermutation(d, n) && Composed(order, d) == other
  {
  }

  lemma PlacesRespect(goals: seq<Goal>, order: seq<nat>, other: seq<nat>, d: seq<nat>)
    requires IsPermutation(order, |goals|) && KeepsPersons(goals, order) && DistinctRefs(goals)
    requires IsPermutation(other, |goals|) && Respects(goals, other)
    requires |d| == |goals| && forall k :: 0 <= k < |goals| ==> d[k] < |goals| && order[d[k]] == other[k]
    ensures Respects(Permuted(goals, order), d)
  {
    hide MustPrecede;
    forall y, x: nat | 0 <= y < |d| && MustPrecede(Permuted(goals, order), x, d[y]) ensures x in d[..y] {
      PrecedesAmong(Permuted(goals, order), x, d[y]);
      SameRelation(goals, order, x, d[y]);
      assert order[x] in other[..y];
      var z :| 0 <= z < y && other[z] == order[x];
      SamePlace(order, d[z], x);
      assert d[..y][z] == x;
    }
  }

  /** What the pipeline does is that order, whatever of the goals the playing order names. */
  lemma ArrangementFollowsPlay(goals: seq<Goal>, playOrder: seq<Ref>, order: seq<nat>)
    requires DistinctRefs(goals) && IsArrangement(goals, playOrder, order) && IsPermutation(order, |goals|)
    requires !Cyclic(goals) ==> Respects(goals, order)
    ensures FollowsPlay(goals, playOrder, order)
  {
    hide MustPrecede, Played, GoesBefore, KeepsPersons;
    var played := Played(goals, playOrder);
    PlayedKeepsPersons(goals, playOrder);
    if Cyclic(goals) {
      CyclesStay(goals, played);
      forall x, y | 0 <= x < y < |order| ensures GoesBefore(goals, playOrder, order[x], order[y]) {
        PlayedIsSorted(goals, playOrder, x, y);
      }
    } else {
      NoNewCycles(goals, played);
      var o :| IsFirstOrder(Permuted(goals, played), o) && order == Composed(played, o);
      forall other | IsPermutation(other, |goals|) && Respects(goals, other) ensures other == order || TakesFirst(goals, playOrder, order, other) {
        FirstTakesFirst(goals, playOrder, o, other);
      }
    }
  }

  lemma PlayedKeepsPersons(goals: seq<Goal>, playOrder: seq<Ref>)
    ensures KeepsPersons(goals, Played(goals, playOrder))
  {
    hide Splits, KeepsPersons;
    MovesSplit(goals, playOrder);
    Reassembled(goals, Moves(goals, playOrder).ordered, Moves(goals, playOrder).left);
  }

  lemma NoNewCycles(goals: seq<Goal>, order: seq<nat>)
    requires IsPermutation(order, |goals|) && KeepsPersons(goals, order) && DistinctRefs(goals)
    ensures !Cyclic(goals) ==> !Cyclic(Permuted(goals, order))
  {
    hide Cyclic;
    if Cyclic(Permuted(goals, order)) {
      SameCycles(goals, order);
    }
  }

  lemma FirstTakesFirst(goals: seq<Goal>, playOrder: seq<Ref>, o: seq<nat>, other: seq<nat>)
    requires DistinctRefs(goals) && KeepsPersons(goals, Played(goals, playOrder))
    requires IsFirstOrder(Permuted(goals, Played(goals, playOrder)), o)
    requires IsPermutation(other, |goals|) && Respects(goals, other)
    ensures var order := Composed(Played(goals, playOrder), o); other == order || TakesFirst(goals, playOrder, order, other)
  {
    hide MustPrecede, Played, GoesBefore, KeepsPersons, Respects;
    var played := Played(goals, playOrder);
    var order := Composed(played, o);
    var d := Places(played, |goals|, other);
    PlacesPermute(played, |goals|, other, d);
    PlacesRespect(goals, played, other, d);
    LessTakesFirst(goals, playOrder, o, d);
  }

  lemma LessTakesFirst(goals: seq<Goal>, playOrder: seq<Ref>, o: seq<nat>, d: seq<nat>)
    requires DistinctRefs(goals) && IsPermutation(o, |goals|) && IsPermutation(d, |goals|)
    ensures LexLess(o, d) ==> TakesFirst(goals, playOrder, Composed(Played(goals, playOrder), o), Composed(Played(goals, playOrder), d))
  {
    hide Played, GoesBefore, DistinctRefs;
    if LexLess(o, d) {
      var order, other := Composed(Played(goals, playOrder), o), Composed(Played(goals, playOrder), d);
      var k :| 0 <= k < |o| && k < |d| && o[..k] == d[..k] && o[k] < d[k];
      assert forall i :: 0 <= i < k ==> o[i] == o[..k][i] == d[..k][i] == d[i];
      assert order[..k] == other[..k];
      PlayedIsSorted(goals, playOrder, o[k], d[k]);
    }
  }
}
