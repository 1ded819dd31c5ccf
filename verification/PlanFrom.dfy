/** `planFrom` of `packages/core/src/setup.ts` from the people the model proposes to the plan, and
    the rules of `ProjectConfigSchema` in `packages/protocol/src/project.ts` that the people and
    goals of a plan must keep. */
module PlanFrom {
  import opened Lists
  import opened JsText
  import opened Options
  import opened PlayOrder
  import opened Setup
  import opened Turns
  import opened Planning
  import opened Proposals
  import opened GoalsPerPerson
  import opened Asked
  import opened PlanNeeds
  import opened PlayMoves

  const NAME_CHARS := 100
  const BRIEF_CHARS := 800

  datatype Persona = Persona(id: string, name: Text, brief: Text)
  datatype Plan = Plan(personas: seq<Persona>, goals: seq<PlanGoal>)

  function Personas(people: seq<PersonProposal>, ids: seq<string>): seq<Persona>
    requires |ids| == |people|
  {
    seq(|people|, i requires 0 <= i < |people| => Persona(ids[i], Clip(people[i].name, NAME_CHARS), Clip(people[i].brief, BRIEF_CHARS)))
  }

  // ----- The rules -----

  function PersonaIds(personas: seq<Persona>): seq<string> {
    seq(|personas|, i requires 0 <= i < |personas| => personas[i].id)
  }

  /** Numbers, ids and owners. */
  ghost predicate IsConsistent(plan: Plan) {
    && 1 <= |plan.personas| <= MAX_PERSONAS && 1 <= |plan.goals| <= MAX_GOALS
    && Distinct(PersonaIds(plan.personas)) && Distinct(Ids(plan.goals))
    && (forall i :: 0 <= i < |plan.goals| && plan.goals[i].person.Some? ==> plan.goals[i].person.value in PersonaIds(plan.personas))
    && forall i :: 0 <= i < |plan.personas| ==> 1 <= |GoalsFor(plan.goals, plan.personas[i].id)| <= MAX_GOALS_PER_PERSONA
  }

  /** Lengths of texts. */
  predicate TextsFit(plan: Plan) {
    && (forall i :: 0 <= i < |plan.personas| ==> 1 <= |plan.personas[i].name| <= 100 && 1 <= |plan.personas[i].brief| <= 2000)
    && forall i :: 0 <= i < |plan.goals| ==> 1 <= |plan.goals[i].instruction| <= 1000
  }

  /** What clipping leaves nothing of, although it has text: half a surrogate pair. */
  predicate IsHalfCharacter(t: Text) {
    |Trim(t)| == 1 && IsHighSurrogate(Trim(t)[0])
  }

  lemma ClipVanishes(t: Text, max: nat)
    requires HasText(t) && max > 1
    ensures Clip(t, max) == [] <==> IsHalfCharacter(t)
  {
    var cut := CutAt(Trim(t), max);
    TrimStartStarts(cut);
  }

  // ----- The plan -----

  function ClippedTexts(goals: seq<GoalProposal>): seq<Text> {
    seq(|goals|, i requires 0 <= i < |goals| => Clip(goals[i].instruction, INSTRUCTION_CHARS))
  }

  /** The people are those kept, and each is asked what they were proposed to do, in that order. */
  ghost predicate AsksWhatWasProposed(plan: Plan, people: seq<PersonProposal>) {
    && |plan.personas| == |people|
    && forall k :: 0 <= k < |people| ==>
         && plan.personas[k].name == Clip(people[k].name, NAME_CHARS)
         && plan.personas[k].brief == Clip(people[k].brief, BRIEF_CHARS)
         && AskedOf(plan.goals, plan.personas[k].id) == ClippedTexts(GoalsKept(people[k]))
  }

  /** People and goals are named after their slugs, and the goals come as they are arranged. */
  ghost predicate IsArranged(plan: Plan, people: seq<PersonProposal>, playOrder: seq<Ref>) {
    var ids := PersonaIds(plan.personas);
    && |ids| == |people| && NamedAfter(ids, PersonSlugs(people), "persona")
    && exists order :: ArrangedAs(plan.goals, OwnedBy(people, ids), playOrder, order)
  }

  ghost predicate ArrangedAs(goals: seq<PlanGoal>, owned: seq<Goal>, playOrder: seq<Ref>, order: seq<nat>) {
    && IsPermutation(order, |owned|) && IsArrangement(owned, playOrder, order) && |goals| == |order|
    && NamedAfter(Ids(goals), Slugs(Permuted(owned, order)), "goal")
    && (DistinctRefs(owned) ==> FollowsPlay(owned, playOrder, order))
    && forall i :: 0 <= i < |goals| ==> goals[i].person == Some(owned[order[i]].person)
  }

  ghost predicate NoHalfCharacters(people: seq<PersonProposal>) {
    forall k :: 0 <= k < |people| ==>
      && !IsHalfCharacter(people[k].name) && !IsHalfCharacter(people[k].brief)
      && forall j :: 0 <= j < |GoalsKept(people[k])| ==> !IsHalfCharacter(GoalsKept(people[k])[j].instruction)
  }

  lemma {:induction false} AskedHas(goals: seq<PlanGoal>, person: string)
    requires AllOwned(goals)
    ensures forall i :: 0 <= i < |goals| && goals[i].person == Some(person) ==> goals[i].instruction in AskedOf(goals, person)
    ensures forall t :: t in AskedOf(goals, person) ==> exists i :: 0 <= i < |goals| && goals[i].instruction == t
    decreases |goals|
  {
    if goals != [] {
      var n := |goals| - 1;
      AskedHas(goals[..n], person);
      hide AskedOf;
      AskedOneMore(goals, person);
      forall t | t in AskedOf(goals, person) ensures exists i :: 0 <= i < |goals| && goals[i].instruction == t {
        if t in AskedOf(goals[..n], person) {
          var i :| 0 <= i < n && goals[..n][i].instruction == t;
          assert goals[i].instruction == t;
        } else {
          assert goals[n].instruction == t;
        }
      }
      forall i | 0 <= i < |goals| && goals[i].person == Some(person) ensures goals[i].instruction in AskedOf(goals, person) {
        assert i < n ==> goals[..n][i] == goals[i];
      }
    }
  }

  ghost predicate GoalTextsFit(goals: seq<PlanGoal>) {
    forall i :: 0 <= i < |goals| ==> 1 <= |goals[i].instruction| <= 1000
  }

  /** The goals of a plan have text exactly when everything that somebody is asked has. */
  lemma GoalsFit(plan: Plan)
    requires IsConsistent(plan) && AllOwned(plan.goals)
    requires forall i :: 0 <= i < |plan.goals| ==> |plan.goals[i].instruction| <= INSTRUCTION_CHARS
    ensures GoalTextsFit(plan.goals) <==>
      forall k, t :: 0 <= k < |plan.personas| && t in AskedOf(plan.goals, plan.personas[k].id) ==> t != []
  {
    hide AskedOf;
    forall k | 0 <= k < |plan.personas|
      ensures GoalTextsFit(plan.goals) ==> forall t :: t in AskedOf(plan.goals, plan.personas[k].id) ==> t != []
    {
      AskedHas(plan.goals, plan.personas[k].id);
    }
    if forall k, t :: 0 <= k < |plan.personas| && t in AskedOf(plan.goals, plan.personas[k].id) ==> t != [] {
      forall i | 0 <= i < |plan.goals| ensures |plan.goals[i].instruction| >= 1 {
        var p := plan.goals[i].person.value;
        AskedHas(plan.goals, p);
        var k :| 0 <= k < |plan.personas| && PersonaIds(plan.personas)[k] == p;
        assert plan.goals[i].instruction in AskedOf(plan.goals, plan.personas[k].id);
      }
    }
  }

  lemma KeptTextsVanish(p: PersonProposal)
    requires Usable(p)
    ensures Clip(p.name, NAME_CHARS) == [] <==> IsHalfCharacter(p.name)
    ensures Clip(p.brief, BRIEF_CHARS) == [] <==> IsHalfCharacter(p.brief)
    ensures (forall t :: t in ClippedTexts(GoalsKept(p)) ==> t != []) <==>
      forall j :: 0 <= j < |GoalsKept(p)| ==> !IsHalfCharacter(GoalsKept(p)[j].instruction)
  {
    hide Clip, HasText, IsHalfCharacter;
    ClipVanishes(p.name, NAME_CHARS);
    ClipVanishes(p.brief, BRIEF_CHARS);
    var kept := GoalsKept(p);
    forall j | 0 <= j < |kept|
      ensures ClippedTexts(kept)[j] in ClippedTexts(kept) && (ClippedTexts(kept)[j] == [] <==> IsHalfCharacter(kept[j].instruction))
    {
      assert kept[j] in kept;
      ClipVanishes(kept[j].instruction, INSTRUCTION_CHARS);
    }
  }

  /** The plan passes the length rules exactly when no text that was kept is half a character. */
  lemma TextsFitExactly(plan: Plan, people: seq<PersonProposal>)
    requires IsConsistent(plan) && AllOwned(plan.goals) && AsksWhatWasProposed(plan, people)
    requires forall p :: p in people ==> Usable(p)
    requires forall i :: 0 <= i < |plan.goals| ==> |plan.goals[i].instruction| <= INSTRUCTION_CHARS
    ensures TextsFit(plan) <==> NoHalfCharacters(people)
  {
    hide AskedOf, Clip, IsHalfCharacter, GoalsKept, Usable, IsConsistent;
    GoalsFit(plan);
    forall k | 0 <= k < |people|
      ensures plan.personas[k].name == [] <==> IsHalfCharacter(people[k].name)
      ensures plan.personas[k].brief == [] <==> IsHalfCharacter(people[k].brief)
      ensures (forall t :: t in AskedOf(plan.goals, plan.personas[k].id) ==> t != []) <==>
        forall j :: 0 <= j < |GoalsKept(people[k])| ==> !IsHalfCharacter(GoalsKept(people[k])[j].instruction)
    {
      assert people[k] in people;
      KeptTextsVanish(people[k]);
    }
  }

  /** Somebody whose whole name is half a surrogate pair is usable, but has no name in a plan. */
  function Nameless(): PersonProposal {
    PersonProposal("ada", [0xD83D], [0x61], [GoalProposal("join", [0x62], [])])
  }

  /** No plan that is made for them passes the length rules. */
  lemma HalfCharacterFails(plan: Plan)
    requires AsksWhatWasProposed(plan, PeopleKept([Nameless()]))
    ensures Usable(Nameless()) && !TextsFit(plan)
  {
    hide AskedOf, GoalsKept, Nameless, PeopleKept, Usable;
    NamelessVanishes();
    NamelessIsKept();
  }

  lemma NamelessVanishes()
    ensures Usable(Nameless()) && Clip(Nameless().name, NAME_CHARS) == []
  {
    hide Clip;
    var p := Nameless();
    assert p.goals[0] in p.goals && HasText(p.goals[0].instruction);
    ClipVanishes(p.name, NAME_CHARS);
  }

  lemma NamelessIsKept()
    requires Usable(Nameless())
    ensures PeopleKept([Nameless()]) == [Nameless()]
  {
    hide Usable, Nameless;
    var p := Nameless();
    ChosenOneMore([], p, Usable);
    assert [] + [p] == [p];
  }

  /** The plan that is made asks everybody what they were proposed to do. */
  lemma PlanAsks(people: seq<PersonProposal>, ids: seq<string>, goals: seq<PlanGoal>, order: seq<nat>, k: nat)
    requires |ids| == |people| && Distinct(ids) && k < |people|
    requires IsPermutation(order, |OwnedBy(people, ids)|) && KeepsPersons(OwnedBy(people, ids), order)
    requires Asks(goals, OwnedBy(people, ids), order)
    ensures AskedOf(Clipped(goals), ids[k]) == ClippedTexts(GoalsKept(people[k]))
  {
    hide AskedOf, GoalsKept, OwnedBy, Filter, KeepsPersons, Clip;
    var owned, id := OwnedBy(people, ids), ids[k];
    AskedInOrder(goals, owned, order, id);
    SameAsked(owned, order, id);
    AskedInOrder(AsPlan(owned), owned, Identity(|owned|), id);
    OwnedAsks(people, ids, id);
    ClippedAsks(goals, id);
    assert AskedOf(goals, id) == TextsOf(GoalsKept(people[k]));
  }

  /** Every plan that is made is consistent, and asks everybody what they were proposed to do. It
      passes all rules exactly when no text that was kept is half a character. */
  method Make(proposed: seq<PersonProposal>, playOrder: seq<Ref>) returns (r: Option<Plan>)
    ensures r.None? <==> forall p :: p in proposed ==>
      Trim(p.name) == [] || Trim(p.brief) == [] || forall g :: g in p.goals ==> Trim(g.instruction) == []
    ensures r.Some? ==> IsConsistent(r.value) && AsksWhatWasProposed(r.value, PeopleKept(proposed))
    ensures r.Some? ==> IsArranged(r.value, PeopleKept(proposed), playOrder)
    ensures r.Some? ==> (TextsFit(r.value) <==> NoHalfCharacters(PeopleKept(proposed)))
    ensures r.Some? ==> KeptHavePlaces(r.value.goals, PersonaIds(r.value.personas), PeopleKept(proposed))
    ensures r.Some? ==> KeepsToProposals(r.value.goals, PersonaIds(r.value.personas), PeopleKept(proposed), playOrder)
  {
    hide Usable, GoalsKept, OwnedBy, KeepsPersons, AskedOf, Clip, IsConsistent, TextsFit, NoHalfCharacters, AsksWhatWasProposed, NeedsPlayEarlier, IsArrangement, NamedAfter, KeptHavePlaces, KeepsToProposals, Respects, Cyclic, DistinctRefs, FollowsPlay, Trim, PeopleKept;
    var people := PeopleKept(proposed);
    NobodyIsUsable(proposed);
    if people == [] {
      return None;
    }
    var ids := UniqueIds(PersonSlugs(people), "persona");
    var owned := OwnedBy(people, ids);
    var order, goals, turns := PlanGoals(owned, playOrder, ids);
    var plan := Plan(Personas(people, ids), Clipped(goals));
    PlanIsConsistent(people, ids, goals, order);
    TextsFitExactly(plan, people);
    assert PersonaIds(plan.personas) == ids && Ids(plan.goals) == Ids(goals);
    if DistinctRefs(owned) {
      ArrangementFollowsPlay(owned, playOrder, order);
    }
    assert ArrangedAs(plan.goals, owned, playOrder, order);
    PlanKeeps(plan.goals, people, ids, playOrder, order);
    r := Some(plan);
  }

  lemma NobodyIsUsable(proposed: seq<PersonProposal>)
    ensures PeopleKept(proposed) == [] <==> forall p :: p in proposed ==>
      Trim(p.name) == [] || Trim(p.brief) == [] || forall g :: g in p.goals ==> Trim(g.instruction) == []
  {
    hide Usable, Trim;
    forall p | p in proposed ensures !Usable(p) <==>
      Trim(p.name) == [] || Trim(p.brief) == [] || forall g :: g in p.goals ==> Trim(g.instruction) == []
    {
      UsableIs(p);
    }
  }

  lemma UsableIs(p: PersonProposal)
    ensures !Usable(p) <==> Trim(p.name) == [] || Trim(p.brief) == [] || forall g :: g in p.goals ==> Trim(g.instruction) == []
  {
    hide Trim;
  }

  /** With names of their own, goals that must come first do, unless the needs go round, and an order
      that can be played is played. */
  ghost predicate KeepsToProposals(goals: seq<PlanGoal>, ids: seq<string>, people: seq<PersonProposal>, playOrder: seq<Ref>) {
    DistinctNames(people) ==>
      && (!NeedsGoRound(people) ==> NeedsComeFirst(goals, ids, people))
      && ScheduleIsPlayed(goals, ids, people, playOrder)
  }

  lemma PlanKeeps(goals: seq<PlanGoal>, people: seq<PersonProposal>, ids: seq<string>, playOrder: seq<Ref>, order: seq<nat>)
    requires |ids| == |people| && Distinct(ids) && ArrangedAs(goals, OwnedBy(people, ids), playOrder, order)
    requires KeepsPersons(OwnedBy(people, ids), order) && NamedAfter(ids, PersonSlugs(people), "persona")
    requires var owned := OwnedBy(people, ids); DistinctRefs(owned) && !Cyclic(owned) ==> Respects(owned, order)
    ensures KeptHavePlaces(goals, ids, people) && KeepsToProposals(goals, ids, people, playOrder)
  {
    hide OwnedBy, KeepsPersons, Respects, DistinctNames, DistinctRefs, Cyclic, NeedsGoRound, NeedsComeFirst, ScheduleIsPlayed, KeptHavePlaces, IsArrangement, NamedAfter;
    KeptHavePlacesIn(goals, people, ids, order);
    if DistinctNames(people) {
      NamesAreRefs(people, ids);
      ScheduleIsPlayedIn(goals, people, ids, playOrder, order);
      if !NeedsGoRound(people) {
        RoundOrAcyclic(people, ids);
        NeedsComeFirstIn(goals, people, ids, order);
      }
    }
  }

  lemma RoundOrAcyclic(people: seq<PersonProposal>, ids: seq<string>)
    requires |ids| == |people| && Distinct(ids)
    ensures !NeedsGoRound(people) ==> !Cyclic(OwnedBy(people, ids))
  {
    hide Cyclic, OwnedBy, NeedsGoRound;
    if Cyclic(OwnedBy(people, ids)) {
      CycleMeansRound(people, ids);
    }
  }

  lemma PlanIsConsistent(people: seq<PersonProposal>, ids: seq<string>, goals: seq<PlanGoal>, order: seq<nat>)
    requires |ids| == |people| && Distinct(ids) && 1 <= |people| <= MAX_PEOPLE_KEPT && forall p :: p in people ==> Usable(p)
    requires IsPermutation(order, |OwnedBy(people, ids)|) && KeepsPersons(OwnedBy(people, ids), order)
    requires Asks(goals, OwnedBy(people, ids), order) && Distinct(Ids(goals))
    ensures IsConsistent(Plan(Personas(people, ids), Clipped(goals)))
    ensures AsksWhatWasProposed(Plan(Personas(people, ids), Clipped(goals)), people)
  {
    hide Usable, GoalsKept, OwnedBy, KeepsPersons, AskedOf, Clip, Asks, GoalsFor;
    var plan := Plan(Personas(people, ids), Clipped(goals));
    forall k | 0 <= k < |people|
      ensures AskedOf(plan.goals, plan.personas[k].id) == ClippedTexts(GoalsKept(people[k]))
      ensures 1 <= |GoalsFor(plan.goals, plan.personas[k].id)| <= MAX_GOALS_KEPT
    {
      assert people[k] in people;
      PlanAsks(people, ids, goals, order, k);
      CountAsked(plan.goals, ids[k]);
    }
    OwnersOfPlan(people, ids, goals, order);
    OwnedCount(people, ids);
    assert PersonaIds(plan.personas) == ids && Ids(plan.goals) == Ids(goals);
    CountAsked(plan.goals, ids[0]);
  }

  lemma OwnersOfPlan(people: seq<PersonProposal>, ids: seq<string>, goals: seq<PlanGoal>, order: seq<nat>)
    requires |ids| == |people| && IsPermutation(order, |OwnedBy(people, ids)|) && Asks(goals, OwnedBy(people, ids), order)
    ensures |goals| == |OwnedBy(people, ids)|
    ensures forall i :: 0 <= i < |goals| ==> goals[i].person.Some? && goals[i].person.value in ids
  {
    hide OwnedBy;
    OwnersAreKnown(people, ids);
  }

  lemma CountAsked(goals: seq<PlanGoal>, person: string)
    ensures |AskedOf(goals, person)| == |GoalsFor(goals, person)|
    ensures GoalsFor(goals, person) != [] ==> goals != []
  {
  }

}
