/** Turns: stretches of goals that one person plays in a row. `packages/protocol/src/project.ts`,
    `apps/control-plane/src/runs/pr-plan-store.ts` and `packages/core/src/pr-plan.ts` all build
    them by appending to the last turn when the person stays the same. */
module Turns {
  import opened Options
  import opened JsText

  const MAX_PERSONAS := 12
  const MAX_GOALS_PER_PERSONA := 20
  const MAX_GOALS := MAX_PERSONAS * MAX_GOALS_PER_PERSONA
  const MAX_ID: nat := 60

  datatype Turn<T> = Turn(person: string, goals: seq<T>)

  /** The goals in playing order, each with its person. */
  function Flat<T>(turns: seq<Turn<T>>): seq<(string, T)> {
    if turns == [] then []
    else Flat(turns[..|turns| - 1]) + Tagged(turns[|turns| - 1].person, turns[|turns| - 1].goals)
  }

  function Tagged<T>(person: string, goals: seq<T>): seq<(string, T)> {
    seq(|goals|, i requires 0 <= i < |goals| => (person, goals[i]))
  }

  /** No turn is empty and no two neighbours belong to one person. */
  ghost predicate RunLength<T>(turns: seq<Turn<T>>) {
    && (forall i :: 0 <= i < |turns| ==> turns[i].goals != [])
    && forall i :: 0 < i < |turns| ==> turns[i - 1].person != turns[i].person
  }

  /** `last.goals.push(...goals)` when the last turn is this person's, a new turn otherwise. */
  function Added<T>(turns: seq<Turn<T>>, person: string, goals: seq<T>): seq<Turn<T>> {
    if turns != [] && turns[|turns| - 1].person == person
    then turns[..|turns| - 1] + [Turn(person, turns[|turns| - 1].goals + goals)]
    else turns + [Turn(person, goals)]
  }

  lemma AddedIsFlat<T>(turns: seq<Turn<T>>, person: string, goals: seq<T>)
    ensures Flat(Added(turns, person, goals)) == Flat(turns) + Tagged(person, goals)
  {
    var more := Added(turns, person, goals);
    assert more[..|more| - 1] == if |more| == |turns| then turns[..|turns| - 1] else turns;
    if |more| == |turns| {
      var last := turns[|turns| - 1].goals;
      assert Tagged(person, last + goals) == Tagged(person, last) + Tagged(person, goals);
    }
  }

  lemma AddedRunLength<T>(turns: seq<Turn<T>>, person: string, goals: seq<T>)
    requires RunLength(turns) && goals != []
    ensures RunLength(Added(turns, person, goals))
  {
  }

  /** Where the last turn starts in the flat list. */
  function LastStart<T>(a: seq<Turn<T>>): nat
    requires a != []
  {
    |Flat(a[..|a| - 1])|
  }

  /** The last turn is the tail of the flat list, and another person's goal stands before it. */
  lemma LastTurn<T>(a: seq<Turn<T>>)
    requires RunLength(a) && a != []
    ensures var last, start := a[|a| - 1], LastStart(a);
            && start < |Flat(a)| && Flat(a)[..start] == Flat(a[..|a| - 1])
            && Flat(a)[start..] == Tagged(last.person, last.goals)
            && (forall i :: start <= i < |Flat(a)| ==> Flat(a)[i].0 == last.person)
            && (start > 0 ==> Flat(a)[start - 1].0 != last.person)
  {
    var front := a[..|a| - 1];
    if front != [] {
      var before := front[|front| - 1];
      assert Flat(front) == Flat(front[..|front| - 1]) + Tagged(before.person, before.goals);
      assert before == a[|a| - 2];
      assert Flat(a)[|Flat(front)| - 1] == Tagged(before.person, before.goals)[|before.goals| - 1];
    }
  }

  lemma SameLastStart<T>(a: seq<Turn<T>>, b: seq<Turn<T>>)
    requires RunLength(a) && RunLength(b) && Flat(a) == Flat(b) && a != [] && b != []
    ensures LastStart(a) == LastStart(b)
  {
    hide Flat, Tagged, RunLength, LastStart;
    LastTurn(a);
    LastTurn(b);
    var f, i, j := Flat(a), LastStart(a), LastStart(b);
    assert f[|f| - 1].0 == a[|a| - 1].person == b[|b| - 1].person;
  }

  lemma TaggedIsInjective<T>(a: Turn<T>, b: Turn<T>)
    requires a.goals != [] && Tagged(a.person, a.goals) == Tagged(b.person, b.goals)
    ensures a == b
  {
    assert |a.goals| == |b.goals|;
    assert Tagged(a.person, a.goals)[0] == Tagged(b.person, b.goals)[0];
    forall i | 0 <= i < |a.goals| ensures a.goals[i] == b.goals[i] {
      assert Tagged(a.person, a.goals)[i] == Tagged(b.person, b.goals)[i];
    }
  }

  lemma SomeGoals<T>(a: seq<Turn<T>>)
    requires RunLength(a)
    ensures Flat(a) == [] <==> a == []
  {
  }

  /** The goals in order decide the turns. */
  lemma {:induction false} RunLengthIsUnique<T>(a: seq<Turn<T>>, b: seq<Turn<T>>)
    requires RunLength(a) && RunLength(b) && Flat(a) == Flat(b)
    ensures a == b
    decreases |a|
  {
    hide Flat, Tagged;
    SomeGoals(a);
    SomeGoals(b);
    if a != [] {
      var front, back := a[..|a| - 1], b[..|b| - 1];
      LastTurn(a);
      LastTurn(b);
      SameLastStart(a, b);
      TaggedIsInjective(a[|a| - 1], b[|b| - 1]);
      RunLengthIsUnique(front, back);
      assert a == front + [a[|a| - 1]] && b == back + [b[|b| - 1]];
    }
  }

  /** The turn in which the goal at position `k` of the playing order is played. */
  ghost function TurnAt<T>(turns: seq<Turn<T>>, k: nat): (t: nat)
    requires k < |Flat(turns)|
    ensures t < |turns| && Flat(turns)[k].0 == turns[t].person && Flat(turns)[k].1 in turns[t].goals
    decreases |turns|
  {
    var front := turns[..|turns| - 1];
    if k < |Flat(front)| then TurnAt(front, k)
    else
      var last := turns[|turns| - 1];
      assert Flat(turns)[k] == Tagged(last.person, last.goals)[k - |Flat(front)|];
      |turns| - 1
  }

  lemma {:induction false} TurnsGoForward<T>(turns: seq<Turn<T>>, x: nat, y: nat)
    requires x <= y < |Flat(turns)|
    ensures TurnAt(turns, x) <= TurnAt(turns, y)
    decreases |turns|
  {
    var front := turns[..|turns| - 1];
    if y < |Flat(front)| {
      TurnsGoForward(front, x, y);
    }
  }

  // ----- `turnsOf` of `packages/protocol/src/project.ts` -----

  datatype PlanGoal = PlanGoal(id: string, instruction: Text, person: Option<string>)

  function GoalsFor(goals: seq<PlanGoal>, person: string): seq<PlanGoal> {
    if goals == [] then []
    else
      var last := goals[|goals| - 1];
      GoalsFor(goals[..|goals| - 1], person) + (if last.person.None? || last.person == Some(person) then [last] else [])
  }

  function Ids(goals: seq<PlanGoal>): seq<string> {
    seq(|goals|, i requires 0 <= i < |goals| => goals[i].id)
  }

  predicate AllOwned(goals: seq<PlanGoal>) {
    forall i :: 0 <= i < |goals| ==> goals[i].person.Some?
  }

  function Owners(goals: seq<PlanGoal>): seq<(string, string)>
    requires AllOwned(goals)
  {
    seq(|goals|, i requires 0 <= i < |goals| => (goals[i].person.value, goals[i].id))
  }

  /** Goals that all have an owner are played in order, in as few turns as possible; with a
      shared goal among them, each person plays everything that is theirs in one turn. */
  method TurnsOf(personas: seq<string>, goals: seq<PlanGoal>) returns (turns: seq<Turn<string>>)
    ensures AllOwned(goals) ==> RunLength(turns) && Flat(turns) == Owners(goals)
    ensures !AllOwned(goals) ==> |turns| == |personas|
    ensures !AllOwned(goals) ==>
              forall i :: 0 <= i < |personas| ==> turns[i] == Turn(personas[i], Ids(GoalsFor(goals, personas[i])))
  {
    if !AllOwned(goals) {
      return seq(|personas|, i requires 0 <= i < |personas| => Turn(personas[i], Ids(GoalsFor(goals, personas[i]))));
    }
    hide RunLength, Flat, Added;
    turns := [];
    var k := 0;
    NoTurns();
    while k < |goals|
      invariant 0 <= k <= |goals|
      invariant RunLength(turns) && Flat(turns) == Owners(goals)[..k]
    {
      AddedIsFlat(turns, goals[k].person.value, [goals[k].id]);
      AddedRunLength(turns, goals[k].person.value, [goals[k].id]);
      turns := Added(turns, goals[k].person.value, [goals[k].id]);
      assert Tagged(goals[k].person.value, [goals[k].id]) == [Owners(goals)[k]];
      assert Owners(goals)[..k + 1] == Owners(goals)[..k] + [Owners(goals)[k]];
      k := k + 1;
    }
    assert Owners(goals)[..k] == Owners(goals);
  }

  lemma NoTurns()
    ensures RunLength<string>([]) && Flat<string>([]) == []
  {
  }
}
