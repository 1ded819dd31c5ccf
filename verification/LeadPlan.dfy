/** The lead's goals for a pull request: `settleTurns` of `packages/core/src/pr-plan.ts` settles the
    model's answer. */
module LeadPlan {
  import opened Options
  import opened Lists
  import opened JsText
  import opened FreeIds
  import opened Turns

  const MAX_LEAD_GOALS := 8
  const GOAL_CHARS := 300

  datatype LeadPerson = LeadPerson(id: string, name: string)
  datatype ProposedTurn = ProposedTurn(person: string, instructions: seq<Text>)
  datatype LeadGoal = LeadGoal(id: string, instruction: Text)

  /** The text tests that are not modelled: how names are compared, and what `leaksPullRequest`
      finds in an instruction. */
  datatype Judge = Judge(fold: string -> string, firstWord: string -> string, leaks: Text -> bool)

  // ----- Settling an answer -----

  predicate IsPersonId(people: seq<LeadPerson>, id: string) {
    exists p :: p in people && p.id == id
  }

  predicate NameFits(p: LeadPerson, wanted: string, judge: Judge) {
    judge.fold(p.name) == wanted || judge.firstWord(judge.fold(p.name)) == wanted
  }

  function ByName(people: seq<LeadPerson>, wanted: string, judge: Judge): (r: seq<LeadPerson>)
    ensures forall p :: p in r ==> p in people
  {
    Chosen(people, NameTest(wanted, judge))
  }

  function NameTest(wanted: string, judge: Judge): LeadPerson -> bool {
    p => NameFits(p, wanted, judge)
  }

  /** A person named by id, or by a name that only one of them has. */
  function PersonId(named: string, people: seq<LeadPerson>, judge: Judge): (r: Option<string>)
    ensures r.Some? ==> IsPersonId(people, r.value)
    ensures IsPersonId(people, named) ==> r == Some(named)
  {
    if IsPersonId(people, named) then Some(named)
    else
      var byName := ByName(people, judge.fold(named), judge);
      if |byName| == 1 then
        assert byName[0] in byName;
        Some(byName[0].id)
      else None
  }

  predicate Usable(instruction: Text, judge: Judge) {
    instruction != [] && !judge.leaks(instruction)
  }

  /** A person's usable goals, clipped. */
  function UsableOf(person: string, instructions: seq<Text>, judge: Judge): seq<(string, Text)> {
    if instructions == [] then []
    else
      var clipped := Clip(instructions[|instructions| - 1], GOAL_CHARS);
      UsableOf(person, instructions[..|instructions| - 1], judge) + (if Usable(clipped, judge) then [(person, clipped)] else [])
  }

  function UsableFrom(person: Option<string>, instructions: seq<Text>, judge: Judge): seq<(string, Text)> {
    if person.Some? then UsableOf(person.value, instructions, judge) else []
  }

  /** All usable goals of the answer, in order. */
  function Candidates(answer: seq<ProposedTurn>, people: seq<LeadPerson>, judge: Judge): seq<(string, Text)> {
    if answer == [] then []
    else
      var turn := answer[|answer| - 1];
      Candidates(answer[..|answer| - 1], people, judge) + UsableFrom(PersonId(turn.person, people, judge), turn.instructions, judge)
  }

  /** The limit keeps the first goals. */
  function Kept(candidates: seq<(string, Text)>): seq<(string, Text)> {
    if |candidates| > MAX_LEAD_GOALS then candidates[..MAX_LEAD_GOALS] else candidates
  }

  ghost function IdsOf(goals: seq<(string, LeadGoal)>): set<string> {
    set i | 0 <= i < |goals| :: goals[i].1.id
  }

  /** Goal `n` is `pr-goal-n`, or the next number that is free. */
  ghost function WithIds(kept: seq<(string, Text)>, taken: set<string>): (r: seq<(string, LeadGoal)>)
    ensures |r| == |kept|
  {
    if kept == [] then []
    else
      var n := |kept|;
      var front := WithIds(kept[..n - 1], taken);
      var id := FreeId(Numbered("pr-goal-", n), "pr-goal-", n + 1, taken + IdsOf(front));
      front + [(kept[n - 1].0, LeadGoal(id, kept[n - 1].1))]
  }

  ghost function Settled(answer: seq<ProposedTurn>, people: seq<LeadPerson>, judge: Judge, taken: set<string>): seq<(string, LeadGoal)> {
    WithIds(Kept(Candidates(answer, people, judge)), taken)
  }

  function GoalCount(answer: seq<ProposedTurn>): nat {
    if answer == [] then 0 else GoalCount(answer[..|answer| - 1]) + |answer[|answer| - 1].instructions|
  }

  lemma CountOneMore(answer: seq<ProposedTurn>, turn: ProposedTurn)
    ensures GoalCount(answer + [turn]) == GoalCount(answer) + |turn.instructions|
  {
    assert (answer + [turn])[..|answer|] == answer;
  }

  lemma IdIsFree(first: string, base: string, from: nat, taken: set<string>)
    ensures FreeId(first, base, from, taken) !in taken
  {
  }

  lemma WithOneMore(kept: seq<(string, Text)>, c: (string, Text), taken: set<string>)
    ensures var front := WithIds(kept, taken);
            var id := FreeId(Numbered("pr-goal-", |kept| + 1), "pr-goal-", |kept| + 2, taken + IdsOf(front));
            && WithIds(kept + [c], taken) == front + [(c.0, LeadGoal(id, c.1))]
            && IdsOf(WithIds(kept + [c], taken)) == IdsOf(front) + {id}
  {
    assert (kept + [c])[..|kept|] == kept;
    var front := WithIds(kept, taken);
    var more := WithIds(kept + [c], taken);
    assert forall i :: 0 <= i < |front| ==> more[i] == front[i];
    assert more[|front|].1.id in IdsOf(more);
    assert IdsOf(more) == IdsOf(front) + {more[|front|].1.id};
  }

  lemma InIds(goals: seq<(string, LeadGoal)>)
    ensures forall i :: 0 <= i < |goals| ==> goals[i].1.id in IdsOf(goals)
  {
  }

  lemma {:induction false} IdsAreOwn(kept: seq<(string, Text)>, taken: set<string>)
    ensures IdsOf(WithIds(kept, taken)) !! taken
    ensures forall i, j :: 0 <= i < j < |kept| ==> WithIds(kept, taken)[i].1.id != WithIds(kept, taken)[j].1.id
    ensures forall i :: 0 <= i < |kept| ==>
      WithIds(kept, taken)[i].0 == kept[i].0 && WithIds(kept, taken)[i].1.instruction == kept[i].1
  {
    if kept != [] {
      hide FreeId, WithIds, IdsOf;
      var n := |kept|;
      var front := WithIds(kept[..n - 1], taken);
      assert kept == kept[..n - 1] + [kept[n - 1]];
      IdsAreOwn(kept[..n - 1], taken);
      WithOneMore(kept[..n - 1], kept[n - 1], taken);
      IdIsFree(Numbered("pr-goal-", n), "pr-goal-", n + 1, taken + IdsOf(front));
      InIds(front);
    }
  }

  /** Where `settleTurns` stands: the candidates so far, and the goals it has named. */
  ghost predicate Settling(candidates: seq<(string, Text)>, goals: seq<(string, LeadGoal)>, used: set<string>, kept: nat, taken: set<string>) {
    goals == WithIds(Kept(candidates), taken) && used == taken + IdsOf(goals) && kept == |goals|
  }

  lemma SettleCandidate(candidates: seq<(string, Text)>, c: (string, Text), goals: seq<(string, LeadGoal)>, used: set<string>, kept: nat, taken: set<string>)
    requires Settling(candidates, goals, used, kept, taken)
    ensures var id := FreeId(Numbered("pr-goal-", kept + 1), "pr-goal-", kept + 2, used);
            if kept >= MAX_LEAD_GOALS then Settling(candidates + [c], goals, used, kept, taken)
            else Settling(candidates + [c], goals + [(c.0, LeadGoal(id, c.1))], used + {id}, kept + 1, taken)
  {
    if kept < MAX_LEAD_GOALS {
      WithOneMore(candidates, c, taken);
      assert Kept(candidates + [c]) == candidates + [c];
    } else {
      assert Kept(candidates + [c]) == Kept(candidates);
    }
  }

  function Pairs(person: Option<string>, goals: seq<LeadGoal>): seq<(string, LeadGoal)> {
    if person.Some? then Tagged(person.value, goals) else []
  }

  /** Where a turn stands after some of its instructions. */
  ghost predicate InTurn(person: Option<string>, instructions: seq<Text>, judge: Judge, goals: seq<LeadGoal>, used: set<string>, kept: nat,
                         candidates: seq<(string, Text)>, before: seq<(string, LeadGoal)>, taken: set<string>) {
    && (person.None? ==> goals == [])
    && Settling(candidates + UsableFrom(person, instructions, judge), before + Pairs(person, goals), used, kept, taken)
  }

  predicate Dropped(person: Option<string>, clipped: Text, judge: Judge, kept: nat) {
    person.None? || !Usable(clipped, judge) || kept >= MAX_LEAD_GOALS
  }

  lemma TurnStep(person: Option<string>, instructions: seq<Text>, next: Text, judge: Judge, goals: seq<LeadGoal>, used: set<string>, kept: nat,
                 candidates: seq<(string, Text)>, before: seq<(string, LeadGoal)>, taken: set<string>)
    requires InTurn(person, instructions, judge, goals, used, kept, candidates, before, taken)
    ensures var clipped := Clip(next, GOAL_CHARS);
            var id := FreeId(Numbered("pr-goal-", kept + 1), "pr-goal-", kept + 2, used);
            if Dropped(person, clipped, judge, kept)
            then InTurn(person, instructions + [next], judge, goals, used, kept, candidates, before, taken)
            else InTurn(person, instructions + [next], judge, goals + [LeadGoal(id, clipped)], used + {id}, kept + 1, candidates, before, taken)
  {
    hide Clip, FreeId, Settling;
    var clipped := Clip(next, GOAL_CHARS);
    assert (instructions + [next])[..|instructions|] == instructions;
    if person.Some? {
      var sofar := candidates + UsableFrom(person, instructions, judge);
      if Usable(clipped, judge) {
        var c := (person.value, clipped);
        var id := FreeId(Numbered("pr-goal-", kept + 1), "pr-goal-", kept + 2, used);
        assert candidates + UsableFrom(person, instructions + [next], judge) == sofar + [c];
        assert before + Pairs(person, goals + [LeadGoal(id, clipped)]) == before + Pairs(person, goals) + [(c.0, LeadGoal(id, c.1))];
        SettleCandidate(sofar, c, before + Pairs(person, goals), used, kept, taken);
      } else {
        assert UsableFrom(person, instructions + [next], judge) == UsableFrom(person, instructions, judge);
      }
    }
  }

  ghost predicate KeptIfClean(text: Text, goals: seq<LeadGoal>, judge: Judge) {
    text != [] && !judge.leaks(text) ==> exists g :: g in goals && g.instruction == text
  }

  lemma StillKept(goals: seq<LeadGoal>, g: LeadGoal, judge: Judge)
    ensures forall text :: KeptIfClean(text, goals, judge) ==> KeptIfClean(text, goals + [g], judge)
    ensures KeptIfClean(g.instruction, goals + [g], judge)
  {
    assert forall h :: h in goals ==> h in goals + [g];
    assert g in goals + [g];
  }

  /** The inner loop: one turn's goals. */
  method KeepGoals(person: Option<string>, instructions: seq<Text>, judge: Judge, used0: set<string>, kept0: nat,
                   ghost candidates: seq<(string, Text)>, ghost before: seq<(string, LeadGoal)>, ghost taken: set<string>)
      returns (goals: seq<LeadGoal>, used: set<string>, kept: nat, dropped: nat)
    requires InTurn(person, [], judge, [], used0, kept0, candidates, before, taken)
    ensures InTurn(person, instructions, judge, goals, used, kept, candidates, before, taken)
    ensures |goals| + dropped == |instructions| && kept == kept0 + |goals|
    ensures forall g :: g in goals ==> person.Some? && g.instruction != [] && !judge.leaks(g.instruction)
    ensures person.Some? && kept < MAX_LEAD_GOALS ==>
      forall i :: 0 <= i < |instructions| ==> KeptIfClean(Clip(instructions[i], GOAL_CHARS), goals, judge)
  {
    hide InTurn, Clip, FreeId;
    goals, used, kept, dropped := [], used0, kept0, 0;
    var k := 0;
    assert instructions[..0] == [];
    while k < |instructions|
      invariant 0 <= k <= |instructions| && |goals| + dropped == k && kept == kept0 + |goals|
      invariant forall g :: g in goals ==> person.Some? && g.instruction != [] && !judge.leaks(g.instruction)
      invariant person.Some? && kept < MAX_LEAD_GOALS ==>
        forall i :: 0 <= i < k ==> KeptIfClean(Clip(instructions[i], GOAL_CHARS), goals, judge)
      invariant InTurn(person, instructions[..k], judge, goals, used, kept, candidates, before, taken)
    {
      var instruction := Clip(instructions[k], GOAL_CHARS);
      TurnStep(person, instructions[..k], instructions[k], judge, goals, used, kept, candidates, before, taken);
      assert instructions[..k + 1] == instructions[..k] + [instructions[k]];
      if Dropped(person, instruction, judge, kept) {
        dropped := dropped + 1;
      } else {
        var id := FindFreeId(Numbered("pr-goal-", kept + 1), "pr-goal-", kept + 2, used);
        used := used + {id};
        StillKept(goals, LeadGoal(id, instruction), judge);
        goals := goals + [LeadGoal(id, instruction)];
        kept := kept + 1;
      }
      k := k + 1;
    }
    assert instructions[..k] == instructions;
  }

  lemma SettlingStarts(people: seq<LeadPerson>, judge: Judge, taken: set<string>)
    ensures Settling(Candidates([], people, judge), Flat<LeadGoal>([]), taken, 0, taken)
    ensures GoalCount([]) == 0 && RunLength<LeadGoal>([])
  {
  }

  lemma SettlingEnds(answer: seq<ProposedTurn>, people: seq<LeadPerson>, judge: Judge, goals: seq<(string, LeadGoal)>, used: set<string>, kept: nat, taken: set<string>)
    requires Settling(Candidates(answer, people, judge), goals, used, kept, taken)
    ensures goals == Settled(answer, people, judge, taken)
  {
  }

  lemma TurnStarts(person: Option<string>, judge: Judge, used: set<string>, kept: nat,
                   candidates: seq<(string, Text)>, before: seq<(string, LeadGoal)>, taken: set<string>)
    requires Settling(candidates, before, used, kept, taken)
    ensures InTurn(person, [], judge, [], used, kept, candidates, before, taken)
  {
    assert candidates + UsableFrom(person, [], judge) == candidates;
    assert before + Pairs(person, []) == before;
  }

  lemma TurnEnds(answer: seq<ProposedTurn>, turn: ProposedTurn, people: seq<LeadPerson>, judge: Judge, goals: seq<LeadGoal>, used: set<string>, kept: nat,
                 turns: seq<Turn<LeadGoal>>, taken: set<string>)
    requires RunLength(turns)
    requires InTurn(PersonId(turn.person, people, judge), turn.instructions, judge, goals, used, kept, Candidates(answer, people, judge), Flat(turns), taken)
    ensures var person := PersonId(turn.person, people, judge);
            var next := if |goals| > 0 && person.Some? then Added(turns, person.value, goals) else turns;
            && (|goals| > 0 ==> person.Some?) && RunLength(next) && |Flat(next)| == |Flat(turns)| + |goals|
            && Settling(Candidates(answer + [turn], people, judge), Flat(next), used, kept, taken)
  {
    var person := PersonId(turn.person, people, judge);
    assert (answer + [turn])[..|answer|] == answer;
    if |goals| > 0 {
      AddedIsFlat(turns, person.value, goals);
      AddedRunLength(turns, person.value, goals);
    } else {
      assert Flat(turns) + Pairs(person, goals) == Flat(turns);
    }
  }

  // ----- What is kept, over the answer alone -----

  /** The answer names a person by id, or by the name or first name of exactly one. */
  ghost predicate Names(named: string, people: seq<LeadPerson>, judge: Judge, id: string) {
    if exists p :: p in people && p.id == named then id == named
    else exists i :: OnlyOneNamed(named, people, judge, id, i)
  }

  ghost predicate OnlyOneNamed(named: string, people: seq<LeadPerson>, judge: Judge, id: string, i: nat) {
    && i < |people| && people[i].id == id
    && forall j :: 0 <= j < |people| ==>
         (j == i <==> judge.fold(people[j].name) == judge.fold(named) || judge.firstWord(judge.fold(people[j].name)) == judge.fold(named))
  }

  /** All instructions of the answer in order, each with whom it names. */
  function Offers(answer: seq<ProposedTurn>): seq<(string, Text)> {
    if answer == [] then []
    else Offers(answer[..|answer| - 1]) + Tagged(answer[|answer| - 1].person, answer[|answer| - 1].instructions)
  }

  /** For a person, with text, and without what must not be told. */
  ghost predicate IsClean(offer: (string, Text), people: seq<LeadPerson>, judge: Judge) {
    && (exists id :: Names(offer.0, people, judge, id))
    && Clip(offer.1, GOAL_CHARS) != [] && !judge.leaks(Clip(offer.1, GOAL_CHARS))
  }

  ghost function CleanTest(people: seq<LeadPerson>, judge: Judge): ((string, Text)) -> bool {
    offer => IsClean(offer, people, judge)
  }

  /** The goal is the offer, clipped, for the person that it names. */
  ghost predicate IsOffered(goal: (string, Text), offer: (string, Text), people: seq<LeadPerson>, judge: Judge) {
    Names(offer.0, people, judge, goal.0) && goal.1 == Clip(offer.1, GOAL_CHARS)
  }

  /** The goals are the first eight clean offers, in order, and `at` says which. */
  ghost predicate AreFirstClean(goals: seq<(string, LeadGoal)>, offers: seq<(string, Text)>, people: seq<LeadPerson>, judge: Judge, at: seq<nat>) {
    && |at| == |goals| <= 8 && Increase(at)
    && (forall k :: 0 <= k < |at| ==>
          && at[k] < |offers| && IsClean(offers[at[k]], people, judge)
          && IsOffered((goals[k].0, goals[k].1.instruction), offers[at[k]], people, judge))
    && forall t :: 0 <= t < |offers| && IsClean(offers[t], people, judge) && t !in at ==> |at| == 8 && forall k :: 0 <= k < 8 ==> at[k] < t
  }

  /** Goal `k`, counted from 1, is called `pr-goal-k`, or with the next number that is free. */
  ghost predicate AreNumbered(goals: seq<(string, LeadGoal)>, taken: set<string>) {
    forall k :: 0 <= k < |goals| ==> HasNumber(goals, taken, k)
  }

  ghost predicate HasNumber(goals: seq<(string, LeadGoal)>, taken: set<string>, k: nat)
    requires k < |goals|
  {
    exists n :: IsNumbered(goals, taken, k, n)
  }

  ghost predicate IsNumbered(goals: seq<(string, LeadGoal)>, taken: set<string>, k: nat, n: nat)
    requires k < |goals|
  {
    && n > k && goals[k].1.id == "pr-goal-" + Digits(n) && goals[k].1.id !in taken + IdsOf(goals[..k])
    && forall m :: k < m < n ==> Numbered("pr-goal-", m) in taken + IdsOf(goals[..k])
  }

  lemma PersonIdNames(named: string, people: seq<LeadPerson>, judge: Judge)
    ensures forall id :: Names(named, people, judge, id) <==> PersonId(named, people, judge) == Some(id)
  {
    if !IsPersonId(people, named) {
      var wanted := judge.fold(named);
      var at := ChosenAt(people, NameTest(wanted, judge));
      assert |at| >= 2 ==> at[0] < at[1];
      forall id, i: nat | OnlyOneNamed(named, people, judge, id, i) ensures at == [i] {
        assert NameTest(wanted, judge)(people[i]) && i in at;
        assert forall k :: 0 <= k < |at| ==> NameTest(wanted, judge)(people[at[k]]) && at[k] == i;
      }
      if |at| == 1 {
        assert forall j :: 0 <= j < |people| && NameTest(wanted, judge)(people[j]) ==> j in at;
        assert OnlyOneNamed(named, people, judge, people[at[0]].id, at[0]);
      }
    }
  }

  /** One offer, as a candidate if it is clean. */
  function OfOffer(offer: (string, Text), people: seq<LeadPerson>, judge: Judge): seq<(string, Text)> {
    UsableFrom(PersonId(offer.0, people, judge), [offer.1], judge)
  }

  function OfOffers(offers: seq<(string, Text)>, people: seq<LeadPerson>, judge: Judge): seq<(string, Text)> {
    if offers == [] then [] else OfOffers(offers[..|offers| - 1], people, judge) + OfOffer(offers[|offers| - 1], people, judge)
  }

  lemma {:induction false} OffersConcat(a: seq<(string, Text)>, b: seq<(string, Text)>, people: seq<LeadPerson>, judge: Judge)
    ensures OfOffers(a + b, people, judge) == OfOffers(a, people, judge) + OfOffers(b, people, judge)
  {
    hide OfOffer;
    if b == [] {
      assert a + b == a;
    } else {
      OffersConcat(a, b[..|b| - 1], people, judge);
      assert (a + b)[..|a + b| - 1] == a + b[..|b| - 1];
    }
  }

  lemma OneUsable(person: string, text: Text, judge: Judge)
    ensures UsableOf(person, [text], judge) == if Usable(Clip(text, GOAL_CHARS), judge) then [(person, Clip(text, GOAL_CHARS))] else []
  {
    var none: seq<Text> := [text][..0];
    assert none == [] && UsableOf(person, none, judge) == [];
  }

  lemma {:induction false} TurnsOffers(person: string, instructions: seq<Text>, people: seq<LeadPerson>, judge: Judge)
    ensures OfOffers(Tagged(person, instructions), people, judge) == UsableFrom(PersonId(person, people, judge), instructions, judge)
  {
    hide Clip, PersonId, Usable;
    if instructions != [] {
      var front, last := instructions[..|instructions| - 1], instructions[|instructions| - 1];
      TurnsOffers(person, front, people, judge);
      assert Tagged(person, instructions)[..|instructions| - 1] == Tagged(person, front);
      assert OfOffers(Tagged(person, instructions), people, judge) ==
        UsableFrom(PersonId(person, people, judge), front, judge) + OfOffer((person, last), people, judge);
      if PersonId(person, people, judge).Some? {
        OneUsable(PersonId(person, people, judge).value, last, judge);
      }
    }
  }

  lemma {:induction false} CandidatesAreOffers(answer: seq<ProposedTurn>, people: seq<LeadPerson>, judge: Judge)
    ensures Candidates(answer, people, judge) == OfOffers(Offers(answer), people, judge)
  {
    hide UsableFrom, PersonId, OfOffers;
    if answer == [] {
      NoOffers(people, judge);
    } else {
      var front, turn := answer[..|answer| - 1], answer[|answer| - 1];
      CandidatesAreOffers(front, people, judge);
      OffersConcat(Offers(front), Tagged(turn.person, turn.instructions), people, judge);
      TurnsOffers(turn.person, turn.instructions, people, judge);
    }
  }

  lemma NoOffers(people: seq<LeadPerson>, judge: Judge)
    ensures OfOffers([], people, judge) == []
  {
  }

  lemma OfferIs(offer: (string, Text), people: seq<LeadPerson>, judge: Judge)
    ensures var r := OfOffer(offer, people, judge);
      if IsClean(offer, people, judge) then |r| == 1 && IsOffered(r[0], offer, people, judge) else r == []
  {
    hide Clip, Names, PersonId;
    PersonIdNames(offer.0, people, judge);
    if PersonId(offer.0, people, judge).Some? {
      OneUsable(PersonId(offer.0, people, judge).value, offer.1, judge);
    }
  }

  lemma OneMoreOffer(front: seq<(string, Text)>, offer: (string, Text), people: seq<LeadPerson>, judge: Judge)
    ensures OfOffers(front + [offer], people, judge) == OfOffers(front, people, judge) + OfOffer(offer, people, judge)
  {
    assert (front + [offer])[..|front|] == front;
  }

  ghost predicate AreOffered(goals: seq<(string, Text)>, offers: seq<(string, Text)>, people: seq<LeadPerson>, judge: Judge, at: seq<nat>) {
    |at| == |goals| && forall k :: 0 <= k < |at| ==> at[k] < |offers| && IsOffered(goals[k], offers[at[k]], people, judge)
  }

  lemma OfferedOneMore(goals: seq<(string, Text)>, more: seq<(string, Text)>, front: seq<(string, Text)>, offer: (string, Text),
                       people: seq<LeadPerson>, judge: Judge, at: seq<nat>)
    requires AreOffered(goals, front, people, judge, at)
    requires more == [] || (|more| == 1 && IsOffered(more[0], offer, people, judge))
    ensures AreOffered(goals + more, front + [offer], people, judge, if more == [] then at else at + [|front|])
  {
    hide IsOffered;
  }

  lemma NoOfferAt(people: seq<LeadPerson>, judge: Judge)
    ensures ArePlaces([], CleanTest(people, judge), []) && AreOffered(OfOffers([], people, judge), [], people, judge, [])
  {
  }

  lemma OneMoreOfferAt(front: seq<(string, Text)>, offer: (string, Text), people: seq<LeadPerson>, judge: Judge, at: seq<nat>)
    requires ArePlaces(front, CleanTest(people, judge), at) && AreOffered(OfOffers(front, people, judge), front, people, judge, at)
    ensures var next := if IsClean(offer, people, judge) then at + [|front|] else at;
      && ArePlaces(front + [offer], CleanTest(people, judge), next)
      && AreOffered(OfOffers(front + [offer], people, judge), front + [offer], people, judge, next)
  {
    hide IsClean, IsOffered, OfOffer, OfOffers, ArePlaces, AreOffered;
    OfferIs(offer, people, judge);
    OneMoreOffer(front, offer, people, judge);
    PlacesOneMore(front, offer, CleanTest(people, judge), at);
    OfferedOneMore(OfOffers(front, people, judge), OfOffer(offer, people, judge), front, offer, people, judge, at);
    assert CleanTest(people, judge)(offer) == IsClean(offer, people, judge);
  }

  lemma {:induction false} OffersAt(offers: seq<(string, Text)>, people: seq<LeadPerson>, judge: Judge) returns (at: seq<nat>)
    ensures ArePlaces(offers, CleanTest(people, judge), at)
    ensures AreOffered(OfOffers(offers, people, judge), offers, people, judge, at)
  {
    hide IsClean, OfOffers, ArePlaces, AreOffered, CleanTest;
    if offers == [] {
      NoOfferAt(people, judge);
      at := [];
    } else {
      var front, offer := offers[..|offers| - 1], offers[|offers| - 1];
      assert offers == front + [offer];
      at := OffersAt(front, people, judge);
      OneMoreOfferAt(front, offer, people, judge, at);
      at := if IsClean(offer, people, judge) then at + [|front|] else at;
    }
  }

  lemma FirstCleanIn(answer: seq<ProposedTurn>, people: seq<LeadPerson>, judge: Judge, taken: set<string>) returns (at: seq<nat>)
    ensures AreFirstClean(Settled(answer, people, judge, taken), Offers(answer), people, judge, at)
  {
    hide IsClean, IsOffered, Candidates, OfOffers, Offers;
    var all := OffersAt(Offers(answer), people, judge);
    CandidatesAreOffers(answer, people, judge);
    IdsAreOwn(Kept(Candidates(answer, people, judge)), taken);
    at := FirstPlaces(Offers(answer), people, judge, all);
  }

  lemma FirstPlaces(offers: seq<(string, Text)>, people: seq<LeadPerson>, judge: Judge, all: seq<nat>) returns (at: seq<nat>)
    requires ArePlaces(offers, CleanTest(people, judge), all)
    ensures at == Front(all, 8) && Increase(at)
    ensures forall k :: 0 <= k < |at| ==> at[k] < |offers| && IsClean(offers[at[k]], people, judge)
    ensures forall t :: 0 <= t < |offers| && IsClean(offers[t], people, judge) && t !in at ==> |at| == 8 && forall k :: 0 <= k < 8 ==> at[k] < t
  {
    hide IsClean;
    at := Front(all, 8);
    assert forall t :: 0 <= t < |offers| ==> CleanTest(people, judge)(offers[t]) == IsClean(offers[t], people, judge);
    assert forall k :: 0 <= k < |at| ==> at[k] == all[k] && at[k] in at && at[k] in all;
  }

  lemma {:induction false} NumberedIn(kept: seq<(string, Text)>, taken: set<string>)
    ensures AreNumbered(WithIds(kept, taken), taken)
  {
    if kept != [] {
      var n := |kept|;
      NumberedIn(kept[..n - 1], taken);
      var front, goals := WithIds(kept[..n - 1], taken), WithIds(kept, taken);
      forall k | 0 <= k < |goals| ensures HasNumber(goals, taken, k) {
        if k < |front| {
          assert HasNumber(front, taken, k);
          var m :| IsNumbered(front, taken, k, m);
          assert goals[..k] == front[..k];
          assert IsNumbered(goals, taken, k, m);
        } else {
          assert goals[..k] == front;
          var used := taken + IdsOf(front);
          var m := if Numbered("pr-goal-", n) in used then NextFree("pr-goal-", n + 1, used) else n;
          assert IsNumbered(goals, taken, k, m);
        }
      }
    }
  }

  /** Keeps the first usable goals in order, counts the rest, and leaves no empty turn and no
      two neighbouring turns of one person. */
  method SettleTurns(answer: seq<ProposedTurn>, people: seq<LeadPerson>, judge: Judge, taken: set<string>)
      returns (turns: seq<Turn<LeadGoal>>, dropped: nat)
    ensures RunLength(turns) && Flat(turns) == Settled(answer, people, judge, taken)
    ensures |Flat(turns)| + dropped == |Offers(answer)|
    ensures exists at :: AreFirstClean(Flat(turns), Offers(answer), people, judge, at)
    ensures AreNumbered(Flat(turns), taken)
  {
    hide AreFirstClean, AreNumbered, Offers, InTurn, Settling, Candidates, PersonId, Settled, GoalCount, RunLength, Added;
    var used, kept := taken, 0;
    turns, dropped := [], 0;
    var k := 0;
    SettlingStarts(people, judge, taken);
    assert answer[..0] == [] && turns == [];
    while k < |answer|
      invariant 0 <= k <= |answer| && RunLength(turns)
      invariant Settling(Candidates(answer[..k], people, judge), Flat(turns), used, kept, taken)
      invariant |Flat(turns)| + dropped == GoalCount(answer[..k])
    {
      var person := PersonId(answer[k].person, people, judge);
      TurnStarts(person, judge, used, kept, Candidates(answer[..k], people, judge), Flat(turns), taken);
      var goals, drops;
      goals, used, kept, drops := KeepGoals(person, answer[k].instructions, judge, used, kept, Candidates(answer[..k], people, judge), Flat(turns), taken);
      TurnEnds(answer[..k], answer[k], people, judge, goals, used, kept, turns, taken);
      assert answer[..k + 1] == answer[..k] + [answer[k]];
      CountOneMore(answer[..k], answer[k]);
      dropped := dropped + drops;
      if |goals| > 0 {
        turns := Added(turns, person.value, goals);
      }
      k := k + 1;
    }
    assert answer[..k] == answer;
    SettlingEnds(answer, people, judge, Flat(turns), used, kept, taken);
    var at := FirstCleanIn(answer, people, judge, taken);
    NumberedInSettled(answer, people, judge, taken);
    OffersCount(answer);
  }

  lemma NumberedInSettled(answer: seq<ProposedTurn>, people: seq<LeadPerson>, judge: Judge, taken: set<string>)
    ensures AreNumbered(Settled(answer, people, judge, taken), taken)
  {
    NumberedIn(Kept(Candidates(answer, people, judge)), taken);
  }

  lemma {:induction false} OffersCount(answer: seq<ProposedTurn>)
    ensures GoalCount(answer) == |Offers(answer)|
  {
    if answer != [] {
      OffersCount(answer[..|answer| - 1]);
    }
  }
}
