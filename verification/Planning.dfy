/** The pipeline of `planFrom` in `packages/core/src/setup.ts`, up to the turns that
    `packages/protocol/src/project.ts` makes of the plan. */
module Planning {
  import opened Lists
  import opened Options
  import opened FreeIds
  import opened PlayOrder
  import opened Setup
  import opened Turns

  // ----- `uniqueIds` -----

  function WithoutTrailingDashes(s: string): string {
    if s != "" && s[|s| - 1] == '-' then WithoutTrailingDashes(s[..|s| - 1]) else s
  }

  function BaseId(slug: string, fallback: string, i: nat): string {
    var base := WithoutTrailingDashes(if |slug| > 40 then slug[..40] else slug);
    if base == "" then fallback + "-" + Digits(i + 1) else base
  }

  lemma {:induction false} WithoutDashesIs(s: string)
    ensures var r := WithoutTrailingDashes(s);
      && r <= s && (r != "" ==> r[|r| - 1] != '-') && forall i :: |r| <= i < |s| ==> s[i] == '-'
  {
    if s != "" && s[|s| - 1] == '-' {
      WithoutDashesIs(s[..|s| - 1]);
    }
  }

  /** As much of the slug as 40 characters allow without a dash at the end, and nothing more is cut. */
  lemma BaseIdIs(slug: string, fallback: string, i: nat)
    ensures var n := if |slug| > 40 then 40 else |slug|;
      if forall k :: 0 <= k < n ==> slug[k] == '-' then BaseId(slug, fallback, i) == fallback + "-" + Digits(i + 1)
      else
        var base := BaseId(slug, fallback, i);
        && base <= slug && 0 < |base| <= n && base[|base| - 1] != '-' && forall k :: |base| <= k < n ==> slug[k] == '-'
  {
    var n := if |slug| > 40 then 40 else |slug|;
    WithoutDashesIs(slug[..n]);
    assert |slug| <= 40 ==> slug[..n] == slug;
    var r := WithoutTrailingDashes(slug[..n]);
    assert r == "" ==> forall k :: 0 <= k < n ==> slug[k] == slug[..n][k] == '-';
    assert r != "" ==> slug[..n][|r| - 1] == slug[|r| - 1] != '-';
  }

  ghost function Taken(ids: seq<string>): set<string> {
    set id | id in ids
  }

  /** Each id is its slug's, and is only numbered when it was taken before. */
  ghost predicate NamedAfter(ids: seq<string>, slugs: seq<string>, fallback: string) {
    |ids| <= |slugs| && forall i :: 0 <= i < |ids| ==> ids[i] == IdAfter(ids[..i], slugs[i], fallback, i)
  }

  ghost function IdAfter(before: seq<string>, slug: string, fallback: string, i: nat): string {
    FreeId(BaseId(slug, fallback, i), BaseId(slug, fallback, i) + "-", 2, Taken(before))
  }

  /** The id is the slug's base when that was not taken, or has the first number from 2 on that is free. */
  lemma IdAfterIs(before: seq<string>, slug: string, fallback: string, i: nat)
    ensures var id, base := IdAfter(before, slug, fallback, i), BaseId(slug, fallback, i);
      if base !in before then id == base else exists n :: IsFirstFree(base + "-", 2, Taken(before), id, n)
  {
    hide FreeId, BaseId, IsFirstFree;
    var base := BaseId(slug, fallback, i);
    assert base in Taken(before) <==> base in before;
    FreeIdIs(base, base + "-", 2, Taken(before));
    var id := IdAfter(before, slug, fallback, i);
    assert id == FreeId(base, base + "-", 2, Taken(before));
    if base in before {
      assert exists n :: IsFirstFree(base + "-", 2, Taken(before), id, n);
    } else {
      assert id == base;
    }
  }

  method UniqueIds(slugs: seq<string>, fallback: string) returns (ids: seq<string>)
    ensures |ids| == |slugs| && Distinct(ids) && NamedAfter(ids, slugs, fallback)
  {
    hide IsFirstFree, FreeId, BaseId;
    var seen: set<string> := {};
    ids := [];
    while |ids| < |slugs|
      invariant |ids| <= |slugs| && Distinct(ids) && seen == Taken(ids) && NamedAfter(ids, slugs, fallback)
    {
      var base := BaseId(slugs[|ids|], fallback, |ids|);
      var id := FindFreeId(base, base + "-", 2, seen);
      assert forall i :: 0 <= i <= |ids| ==> (ids + [id])[..i] == ids[..i];
      assert ids[..|ids|] == ids;
      seen := seen + {id};
      ids := ids + [id];
    }
  }

  // ----- Two reorderings in a row -----

  function Permuted(goals: seq<Goal>, order: seq<nat>): seq<Goal>
    requires forall i :: 0 <= i < |order| ==> order[i] < |goals|
  {
    seq(|order|, i requires 0 <= i < |order| => goals[order[i]])
  }

  function Composed(first: seq<nat>, second: seq<nat>): seq<nat>
    requires forall i :: 0 <= i < |second| ==> second[i] < |first|
  {
    seq(|second|, i requires 0 <= i < |second| => first[second[i]])
  }

  lemma PersonsInOrder(goals: seq<Goal>, order: seq<nat>, x: nat, y: nat)
    requires IsPermutation(order, |goals|) && KeepsPersons(goals, order)
    requires x < |order| && y < |order| && goals[order[x]].person == goals[order[y]].person
    ensures x < y <==> order[x] < order[y]
  {
    if order[x] < order[y] {
      assert order[x] in order[..y];
    } else if order[y] < order[x] {
      assert order[y] in order[..x];
    }
  }

  /** Reordering goals with distinct references changes nothing about what must come first. */
  lemma SameRelation(goals: seq<Goal>, order: seq<nat>, x: nat, y: nat)
    requires IsPermutation(order, |goals|) && KeepsPersons(goals, order) && DistinctRefs(goals)
    requires x < |goals| && y < |goals|
    ensures DistinctRefs(Permuted(goals, order))
    ensures MustPrecede(Permuted(goals, order), x, y) <==> MustPrecede(goals, order[x], order[y])
  {
    var played := Permuted(goals, order);
    assert DistinctRefs(played) by {
      forall i, j | 0 <= i < j < |played| ensures played[i].from != played[j].from {
        assert order[i] != order[j];
      }
    }
    if goals[order[x]].person == goals[order[y]].person {
      PersonsInOrder(goals, order, x, y);
    }
  }

  lemma SameCycles(goals: seq<Goal>, order: seq<nat>)
    requires IsPermutation(order, |goals|) && KeepsPersons(goals, order) && DistinctRefs(goals)
    requires Cyclic(Permuted(goals, order))
    ensures Cyclic(goals)
  {
    var c :| IsCycle(Permuted(goals, order), c);
    forall k | 0 <= k < |c| ensures c[k] < |goals| {
      if k == |c| - 1 { assert Edge(Permuted(goals, order), c, 0); } else { assert Edge(Permuted(goals, order), c, k); }
    }
    var d := Composed(order, c);
    forall k | 0 <= k < |d| - 1 ensures Edge(goals, d, k) {
      assert Edge(Permuted(goals, order), c, k);
      SameRelation(goals, order, c[k], c[k + 1]);
    }
    assert IsCycle(goals, d);
  }

  lemma ComposedPermutation(first: seq<nat>, second: seq<nat>, n: nat)
    requires IsPermutation(first, n) && IsPermutation(second, n)
    ensures IsPermutation(Composed(first, second), n)
  {
  }

  lemma ComposedKeepsPersons(goals: seq<Goal>, first: seq<nat>, second: seq<nat>)
    requires IsPermutation(first, |goals|) && KeepsPersons(goals, first)
    requires IsPermutation(second, |goals|) && Respects(Permuted(goals, first), second)
    ensures KeepsPersons(goals, Composed(first, second))
  {
    var order, played := Composed(first, second), Permuted(goals, first);
    forall y, a: nat | 0 <= y < |order| && order[y] < |goals| && a < order[y] && goals[a].person == goals[order[y]].person
      ensures a in order[..y]
    {
      assert a in first[..second[y]];
      var x :| 0 <= x < second[y] && first[x] == a;
      assert MustPrecede(played, x, second[y]);
      var z :| 0 <= z < y && second[z] == x;
      assert order[..y][z] == a;
    }
  }

  lemma ComposedRespects(goals: seq<Goal>, first: seq<nat>, second: seq<nat>)
    requires IsPermutation(first, |goals|) && KeepsPersons(goals, first) && DistinctRefs(goals)
    requires IsPermutation(second, |goals|) && Respects(Permuted(goals, first), second)
    ensures Respects(goals, Composed(first, second))
  {
    var order := Composed(first, second);
    forall y, a: nat | 0 <= y < |order| && MustPrecede(goals, a, order[y])
      ensures a in order[..y]
    {
      PermutationHasAll(first, |goals|, a);
      var x :| 0 <= x < |first| && first[x] == a;
      SameRelation(goals, first, x, second[y]);
      assert x in second[..y];
      var z :| 0 <= z < y && second[z] == x;
      assert order[..y][z] == a;
    }
  }

  /** The goals in the proposed playing order and then, unless the needs go round in a circle, in
      the first order that respects them. */
  ghost predicate IsArrangement(goals: seq<Goal>, playOrder: seq<Ref>, order: seq<nat>) {
    var played := Played(goals, playOrder);
    var arranged := Permuted(goals, played);
    if Cyclic(arranged) then order == played
    else exists o :: IsFirstOrder(arranged, o) && order == Composed(played, o)
  }

  /** `const played = inPlayOrder(...)` and `dependencyOrder(played) ?? played`. */
  method Arrange(goals: seq<Goal>, playOrder: seq<Ref>) returns (order: seq<nat>)
    ensures IsArrangement(goals, playOrder, order)
    ensures IsPermutation(order, |goals|) && KeepsPersons(goals, order)
    ensures DistinctRefs(goals) && !Cyclic(goals) ==> Respects(goals, order)
  {
    var first := InPlayOrder(goals, playOrder);
    var second := DependencyOrder(Permuted(goals, first));
    match second
    case None =>
      order := first;
      if DistinctRefs(goals) {
        SameCycles(goals, first);
      }
    case Some(o) =>
      order := Composed(first, o);
      ComposedPermutation(first, o, |goals|);
      ComposedKeepsPersons(goals, first, o);
      if DistinctRefs(goals) {
        ComposedRespects(goals, first, o);
      }
  }

  /** A playing order that names every goal, keeps each person's goals in order and puts what is
      needed first is the one that is played. */
  lemma ProposedOrderPlays(goals: seq<Goal>, playOrder: seq<Ref>, q: seq<nat>, order: seq<nat>)
    requires IsArrangement(goals, playOrder, order) && Proposes(goals, playOrder, q) && Respects(goals, q)
    ensures order == q
  {
    hide MustPrecede, Played;
    ProposedOrderIsKept(goals, playOrder, q);
    var arranged := Permuted(goals, q);
    if !Cyclic(arranged) {
      var o :| IsFirstOrder(arranged, o) && order == Composed(q, o);
      forall x: nat, y: nat | MustPrecede(arranged, x, y) ensures x < y {
        PrecedesAmong(arranged, x, y);
        SameRelation(goals, q, x, y);
        assert q[x] in q[..y];
      }
      RespectedOrderStays(arranged, o);
      assert Composed(q, Identity(|goals|)) == q;
    }
  }

  lemma PrecedesAmong(goals: seq<Goal>, x: nat, y: nat)
    requires MustPrecede(goals, x, y)
    ensures x < |goals| && y < |goals|
  {
  }

  // ----- The plan -----

  /** Every goal plays in a strictly later turn than each goal of another person it needs. */
  ghost predicate NeedsPlayEarlier(goals: seq<Goal>, order: seq<nat>, turns: seq<Turn<string>>)
    requires IsPermutation(order, |goals|) && |Flat(turns)| == |goals|
  {
    forall x: nat, y: nat | x < |order| && y < |order| && NeedsOther(goals[order[y]], goals[order[x]])
      :: TurnAt(turns, x) < TurnAt(turns, y)
  }

  predicate NeedsOther(g: Goal, needed: Goal) {
    needed.person != g.person && needed.from in g.needs
  }

  function Slugs(goals: seq<Goal>): seq<string> {
    seq(|goals|, i requires 0 <= i < |goals| => goals[i].slug)
  }

  function Named(goals: seq<Goal>, ids: seq<string>): seq<PlanGoal>
    requires |ids| == |goals|
  {
    seq(|goals|, i requires 0 <= i < |goals| => PlanGoal(ids[i], goals[i].instruction, Some(goals[i].person)))
  }

  /** The plan holds every proposed goal once under an id of its own, keeps each person's goals
      in order, and plays what a goal needs before it whenever that is possible at all. */
  method PlanGoals(goals: seq<Goal>, playOrder: seq<Ref>, personas: seq<string>)
      returns (order: seq<nat>, plan: seq<PlanGoal>, turns: seq<Turn<string>>)
    ensures IsPermutation(order, |goals|) && KeepsPersons(goals, order)
    ensures IsArrangement(goals, playOrder, order)
    ensures |plan| == |goals| && Distinct(Ids(plan)) && NamedAfter(Ids(plan), Slugs(Permuted(goals, order)), "goal")
    ensures forall i :: 0 <= i < |plan| ==>
      plan[i].instruction == goals[order[i]].instruction && plan[i].person == Some(goals[order[i]].person)
    ensures AllOwned(plan) && RunLength(turns) && Flat(turns) == Owners(plan)
    ensures DistinctRefs(goals) && !Cyclic(goals) ==> Respects(goals, order) && NeedsPlayEarlier(goals, order, turns)
  {
    order := Arrange(goals, playOrder);
    var arranged := Permuted(goals, order);
    var ids := UniqueIds(Slugs(arranged), "goal");
    plan := Named(arranged, ids);
    assert Ids(plan) == ids;
    turns := TurnsOf(personas, plan);
    if DistinctRefs(goals) && !Cyclic(goals) {
      LaterTurns(goals, order, plan, turns);
    }
  }

  lemma LaterTurns(goals: seq<Goal>, order: seq<nat>, plan: seq<PlanGoal>, turns: seq<Turn<string>>)
    requires IsPermutation(order, |goals|) && Respects(goals, order) && DistinctRefs(goals)
    requires |plan| == |goals| && forall i :: 0 <= i < |plan| ==> plan[i].person == Some(goals[order[i]].person)
    requires AllOwned(plan) && Flat(turns) == Owners(plan)
    ensures NeedsPlayEarlier(goals, order, turns)
  {
    forall x: nat, y: nat | x < |order| && y < |order| && NeedsOther(goals[order[y]], goals[order[x]])
      ensures TurnAt(turns, x) < TurnAt(turns, y)
    {
      assert MustPrecede(goals, order[x], order[y]);
      assert order[x] in order[..y];
      TurnsGoForward(turns, x, y);
    }
  }
}
