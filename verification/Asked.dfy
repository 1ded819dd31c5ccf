/** What each person of a plan is asked to do, and that `planFrom` of `packages/core/src/setup.ts`
    changes nothing about it. */
module Asked {
  import opened Lists
  import opened JsText
  import opened Options
  import opened PlayOrder
  import opened Setup
  import opened Turns
  import opened Planning
  import opened Proposals
  import opened GoalsPerPerson

  const INSTRUCTION_CHARS := 300

  function Clipped(goals: seq<PlanGoal>): (r: seq<PlanGoal>)
  {
    seq(|goals|, i requires 0 <= i < |goals| => goals[i].(instruction := Clip(goals[i].instruction, INSTRUCTION_CHARS)))
  }

  function InstructionsAt(goals: seq<Goal>, order: seq<nat>): seq<Text>
    requires AllBelow(order, |goals|)
  {
    seq(|order|, i requires 0 <= i < |order| => goals[order[i]].instruction)
  }

  lemma {:induction false} KeptOrderIncreases(goals: seq<Goal>, order: seq<nat>, person: string, k: nat)
    requires IsPermutation(order, |goals|) && KeepsPersons(goals, order) && k <= |order|
    ensures Increasing(Filter(goals, order[..k], person, true))
  {
    hide Filter;
    if k == 0 {
      NothingAsked(goals, person);
      assert order[..0] == [];
    } else {
      assert order[..k][..k - 1] == order[..k - 1];
      FilterOneMore(goals, order[..k], person);
      KeptOrderIncreases(goals, order, person, k - 1);
      var front := Filter(goals, order[..k - 1], person, true);
      if goals[order[k - 1]].person == person {
        forall j | 0 <= j < |front| ensures front[j] < order[k - 1] {
          assert front[j] in front;
          var x :| 0 <= x < k - 1 && order[x] == front[j];
          PersonsInOrder(goals, order, x, k - 1);
        }
      }
    }
  }

  lemma {:induction false} IncreasingIsUnique(a: seq<nat>, b: seq<nat>)
    requires Increasing(a) && Increasing(b) && forall x :: x in a <==> x in b
    ensures a == b
  {
    SameEmptiness(a, b);
    if a != [] {
      var m, n := |a| - 1, |b| - 1;
      assert a[m] in b && b[n] in a;
      forall x ensures x in a[..m] <==> x in b[..n] {
        FrontHas(a, x);
        FrontHas(b, x);
      }
      IncreasingIsUnique(a[..m], b[..n]);
      assert a == a[..m] + [a[m]] && b == b[..n] + [b[n]];
    }
  }

  lemma SameEmptiness(a: seq<nat>, b: seq<nat>)
    requires forall x :: x in a <==> x in b
    ensures a == [] <==> b == []
  {
    if a != [] { assert a[0] in b; }
    if b != [] { assert b[0] in a; }
  }

  lemma FrontHas(a: seq<nat>, x: nat)
    requires Increasing(a) && a != []
    ensures x in a[..|a| - 1] <==> x in a && x != a[|a| - 1]
  {
    assert a == a[..|a| - 1] + [a[|a| - 1]];
  }

  /** Goals reordered without changing the order of any person's, ask of everybody the same. */
  lemma SameAsked(goals: seq<Goal>, order: seq<nat>, person: string)
    requires IsPermutation(order, |goals|) && KeepsPersons(goals, order)
    ensures Filter(goals, order, person, true) == Filter(goals, Identity(|goals|), person, true)
  {
    KeptOrderIncreases(goals, order, person, |order|);
    assert order[..|order|] == order;
    forall x ensures x in order <==> x in Identity(|goals|) {
      if 0 <= x < |goals| {
        PermutationHasAll(order, |goals|, x);
        assert Identity(|goals|)[x] == x;
      }
    }
    IncreasingIsUnique(Filter(goals, order, person, true), Filter(goals, Identity(|goals|), person, true));
  }

  /** `plan` asks what `goals` ask in that order. */
  ghost predicate Asks(plan: seq<PlanGoal>, goals: seq<Goal>, order: seq<nat>) {
    && |plan| == |order| && AllBelow(order, |goals|)
    && forall i :: 0 <= i < |plan| ==> plan[i].person == Some(goals[order[i]].person) && plan[i].instruction == goals[order[i]].instruction
  }

  lemma {:induction false} AskedInOrder(plan: seq<PlanGoal>, goals: seq<Goal>, order: seq<nat>, person: string)
    requires Asks(plan, goals, order)
    ensures AskedOf(plan, person) == InstructionsAt(goals, Filter(goals, order, person, true))
    decreases |plan|
  {
    hide AskedOf, Filter;
    if plan == [] {
      NothingAsked(goals, person);
    } else {
      var n := |plan| - 1;
      AskedInOrder(plan[..n], goals, order[..n], person);
      AskedOneMore(plan, person);
      FilterOneMore(goals, order, person);
    }
  }

  lemma NothingAsked(goals: seq<Goal>, person: string)
    ensures AskedOf([], person) == [] && Filter(goals, [], person, true) == []
  {
  }

  function AsPlan(goals: seq<Goal>): seq<PlanGoal> {
    seq(|goals|, i requires 0 <= i < |goals| => PlanGoal("", goals[i].instruction, Some(goals[i].person)))
  }

  function TextsOf(goals: seq<GoalProposal>): seq<Text> {
    seq(|goals|, i requires 0 <= i < |goals| => goals[i].instruction)
  }

  lemma {:induction false} AllTheirs(goals: seq<PlanGoal>, id: string, person: string)
    requires forall i :: 0 <= i < |goals| ==> goals[i].person == Some(id)
    ensures GoalsFor(goals, person) == if person == id then goals else []
  {
    if goals != [] {
      AllTheirs(goals[..|goals| - 1], id, person);
    }
  }

  /** Each person is asked what was kept of their proposal, and nobody else is asked anything. */
  lemma {:induction false} OwnedAsks(people: seq<PersonProposal>, ids: seq<string>, person: string)
    requires |ids| == |people| && Distinct(ids)
    ensures forall k :: 0 <= k < |ids| && ids[k] == person ==> AskedOf(AsPlan(OwnedBy(people, ids)), person) == TextsOf(GoalsKept(people[k]))
    ensures person !in ids ==> AskedOf(AsPlan(OwnedBy(people, ids)), person) == []
    decreases |people|
  {
    hide OwnedBy, AskedOf, GoalsKept, TextsOf, AsPlan;
    if people == [] {
      NobodyAsked(ids, person);
    } else {
      var n := |people| - 1;
      OwnedAsks(people[..n], ids[..n], person);
      OneMoreAsked(people, ids, person);
      assert person == ids[n] ==> person !in ids[..n];
    }
  }

  lemma NobodyAsked(ids: seq<string>, person: string)
    requires ids == []
    ensures AskedOf(AsPlan(OwnedBy([], ids)), person) == []
  {
  }

  lemma OneMoreAsked(people: seq<PersonProposal>, ids: seq<string>, person: string)
    requires |ids| == |people| && people != []
    ensures var n := |people| - 1;
      AskedOf(AsPlan(OwnedBy(people, ids)), person) ==
      AskedOf(AsPlan(OwnedBy(people[..n], ids[..n])), person) + if person == ids[n] then TextsOf(GoalsKept(people[n])) else []
  {
    hide AskedOf, GoalsKept, GoalsOf, OwnedBy, AsPlan;
    var n := |people| - 1;
    var before, own := OwnedBy(people[..n], ids[..n]), GoalsOf(people[n], ids[n]);
    OwnedSplits(people, ids);
    AsPlanConcat(before, own);
    AskedOfConcat(AsPlan(before), AsPlan(own), person);
    OwnAsked(people[n], ids[n], person);
  }

  lemma OwnedSplits(people: seq<PersonProposal>, ids: seq<string>)
    requires |ids| == |people| && people != []
    ensures var n := |people| - 1; OwnedBy(people, ids) == OwnedBy(people[..n], ids[..n]) + GoalsOf(people[n], ids[n])
  {
  }

  lemma AsPlanConcat(a: seq<Goal>, b: seq<Goal>)
    ensures AsPlan(a + b) == AsPlan(a) + AsPlan(b)
  {
  }

  lemma OwnAsked(p: PersonProposal, id: string, person: string)
    ensures AskedOf(AsPlan(GoalsOf(p, id)), person) == if person == id then TextsOf(GoalsKept(p)) else []
  {
    hide GoalsKept;
    AllTheirs(AsPlan(GoalsOf(p, id)), id, person);
  }

  lemma {:induction false} OwnedCount(people: seq<PersonProposal>, ids: seq<string>)
    requires |ids| == |people|
    ensures |people| <= |OwnedBy(people, ids)| + |people| <= (MAX_GOALS_KEPT + 1) * |people|
    decreases |people|
  {
    hide GoalsKept;
    if people != [] {
      OwnedCount(people[..|people| - 1], ids[..|people| - 1]);
    }
  }

  lemma {:induction false} OwnersAreKnown(people: seq<PersonProposal>, ids: seq<string>)
    requires |ids| == |people|
    ensures forall i :: 0 <= i < |OwnedBy(people, ids)| ==> OwnedBy(people, ids)[i].person in ids
    decreases |people|
  {
    hide GoalsKept;
    if people != [] {
      var n := |people| - 1;
      OwnersAreKnown(people[..n], ids[..n]);
      assert ids[n] in ids && forall id :: id in ids[..n] ==> id in ids;
    }
  }

  lemma {:induction false} OwnedHaveText(people: seq<PersonProposal>, ids: seq<string>)
    requires |ids| == |people|
    ensures forall i :: 0 <= i < |OwnedBy(people, ids)| ==> HasText(OwnedBy(people, ids)[i].instruction)
    decreases |people|
  {
    hide HasText;
    if people != [] {
      var n := |people| - 1;
      OwnedHaveText(people[..n], ids[..n]);
      var own := GoalsOf(people[n], ids[n]);
      forall i | 0 <= i < |own| ensures HasText(own[i].instruction) {
        assert GoalsKept(people[n])[i] in GoalsKept(people[n]);
      }
    }
  }

  lemma AskedOneMore(goals: seq<PlanGoal>, person: string)
    requires goals != []
    ensures var n := |goals| - 1;
      AskedOf(goals, person) ==
      AskedOf(goals[..n], person) + if goals[n].person.None? || goals[n].person == Some(person) then [goals[n].instruction] else []
  {
  }

  lemma {:induction false} ClippedAsks(goals: seq<PlanGoal>, person: string)
    ensures |AskedOf(Clipped(goals), person)| == |AskedOf(goals, person)|
    ensures forall i :: 0 <= i < |AskedOf(goals, person)| ==>
      AskedOf(Clipped(goals), person)[i] == Clip(AskedOf(goals, person)[i], INSTRUCTION_CHARS)
    decreases |goals|
  {
    hide Clip, AskedOf;
    if goals == [] {
      NothingAsked([], person);
    } else {
      var n := |goals| - 1;
      assert Clipped(goals)[..n] == Clipped(goals[..n]);
      ClippedAsks(goals[..n], person);
      AskedOneMore(goals, person);
      AskedOneMore(Clipped(goals), person);
    }
  }
}
