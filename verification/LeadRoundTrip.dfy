/** Settling the lead's answer, putting it into the plan in `change` mode, storing it, reading it
    back and settling it again: `storedPlanFor` in `apps/control-plane/src/runs/pr-plan.ts`
    relies on getting the same turns. */
module LeadRoundTrip {
  import opened Options
  import opened JsText
  import opened Turns
  import opened LeadPlan
  import opened LeadStore

  ghost predicate AllFrom(people: seq<LeadPerson>, goals: seq<Pair>) {
    forall i :: 0 <= i < |goals| ==> IsPersonId(people, goals[i].0)
  }

  /** No stored instruction ends in half a surrogate pair. */
  ghost predicate WholeCharacters(goals: seq<Pair>) {
    forall i :: 0 <= i < |goals| ==> !EndsInHighSurrogate(goals[i].1.instruction)
  }

  function PersonIds(people: seq<LeadPerson>): seq<string> {
    seq(|people|, i requires 0 <= i < |people| => people[i].id)
  }

  lemma PersonIdsAreAll(people: seq<LeadPerson>, id: string)
    ensures id in PersonIds(people) <==> IsPersonId(people, id)
  {
    if IsPersonId(people, id) {
      var i :| 0 <= i < |people| && people[i].id == id;
      assert PersonIds(people)[i] == id;
    }
  }

  // ----- Which turns are offered -----

  ghost predicate PeopleIn(turns: seq<Turn<LeadGoal>>, keep: set<string>) {
    forall i :: 0 <= i < |turns| ==> turns[i].person in keep
  }

  lemma {:induction false} OfAllPeople(turns: seq<Turn<LeadGoal>>, keep: set<string>)
    requires PeopleIn(turns, keep)
    ensures OfPeople(turns, keep) == turns
  {
    if turns != [] {
      OfAllPeople(turns[..|turns| - 1], keep);
    }
  }

  lemma {:induction false} OfFewerPeople(turns: seq<Turn<LeadGoal>>, keep: set<string>)
    requires RunLength(turns)
    ensures |Flat(OfPeople(turns, keep))| <= |Flat(turns)|
    ensures !PeopleIn(turns, keep) ==> |Flat(OfPeople(turns, keep))| < |Flat(turns)|
  {
    hide RunLength, Flat;
    if turns == [] {
      assert OfPeople(turns, keep) == turns;
    } else {
      var front, last := turns[..|turns| - 1], turns[|turns| - 1];
      assert turns == front + [last];
      FrontRunLength(turns);
      OfFewerPeople(front, keep);
      FlatGrows(front, last);
      FlatGrows(OfPeople(front, keep), last);
      assert OfPeople(turns, keep) == if last.person in keep then OfPeople(front, keep) + [last] else OfPeople(front, keep);
    }
  }

  lemma FlatGrows(front: seq<Turn<LeadGoal>>, last: Turn<LeadGoal>)
    ensures |Flat(front + [last])| == |Flat(front)| + |last.goals|
  {
    assert (front + [last])[..|front|] == front;
  }

  lemma FrontRunLength(turns: seq<Turn<LeadGoal>>)
    requires RunLength(turns) && turns != []
    ensures RunLength(turns[..|turns| - 1]) && turns[|turns| - 1].goals != []
  {
  }

  lemma PeopleAreInFlat(turns: seq<Turn<LeadGoal>>, i: nat)
    requires RunLength(turns) && i < |turns|
    ensures exists k :: 0 <= k < |Flat(turns)| && Flat(turns)[k].0 == turns[i].person
  {
    var front, last := turns[..|turns| - 1], turns[|turns| - 1];
    if i < |turns| - 1 {
      PeopleAreInFlat(front, i);
      var k :| 0 <= k < |Flat(front)| && Flat(front)[k].0 == turns[i].person;
      assert Flat(turns)[k] == Flat(front)[k];
    } else {
      assert Flat(turns)[|Flat(front)|] == Tagged(last.person, last.goals)[0];
    }
  }

  lemma TurnsFrom(people: seq<LeadPerson>, turns: seq<Turn<LeadGoal>>)
    requires RunLength(turns) && AllFrom(people, Flat(turns))
    ensures forall i :: 0 <= i < |turns| ==> IsPersonId(people, turns[i].person)
  {
    hide Flat, IsPersonId;
    forall i | 0 <= i < |turns| ensures IsPersonId(people, turns[i].person) {
      PeopleAreInFlat(turns, i);
    }
  }

  lemma LeadOfFew(people: seq<LeadPerson>, turns: seq<Turn<LeadGoal>>, maxPeople: nat)
    requires RunLength(turns) && AllFrom(people, Flat(turns)) && |PeopleOf(turns)| <= maxPeople
    ensures Lead(PersonIds(people), turns, true, maxPeople) == turns
  {
    hide Flat, IsPersonId;
    TurnsFrom(people, turns);
    var known := set p | p in PersonIds(people);
    forall i | 0 <= i < |turns| ensures turns[i].person in known {
      PersonIdsAreAll(people, turns[i].person);
    }
    OfAllPeople(turns, known);
    OfAllPeople(turns, FirstPeople(turns, maxPeople));
  }

  lemma LeadOfMany(people: seq<LeadPerson>, turns: seq<Turn<LeadGoal>>, maxPeople: nat)
    requires RunLength(turns) && AllFrom(people, Flat(turns)) && |PeopleOf(turns)| > maxPeople
    ensures |Flat(Lead(PersonIds(people), turns, true, maxPeople))| < |Flat(turns)|
  {
    hide Flat, IsPersonId;
    TurnsFrom(people, turns);
    var known := set p | p in PersonIds(people);
    forall i | 0 <= i < |turns| ensures turns[i].person in known {
      PersonIdsAreAll(people, turns[i].person);
    }
    OfAllPeople(turns, known);
    var left := PeopleOf(turns)[maxPeople];
    assert left in PeopleOf(turns);
    var i :| 0 <= i < |turns| && turns[i].person == left;
    assert !PeopleIn(turns, FirstPeople(turns, maxPeople));
    OfFewerPeople(turns, FirstPeople(turns, maxPeople));
  }

  // ----- Settling again -----

  /** What is known of settled goals. */
  ghost predicate IsSettled(goals: seq<Pair>, people: seq<LeadPerson>, judge: Judge, taken: set<string>) {
    && goals == WithIds(Proposals(goals), taken) && |goals| <= MAX_LEAD_GOALS
    && AllFrom(people, goals)
    && (forall i :: 0 <= i < |goals| ==> Usable(goals[i].1.instruction, judge))
    && forall i :: 0 <= i < |goals| ==>
         (Clip(goals[i].1.instruction, GOAL_CHARS) == goals[i].1.instruction <==> !EndsInHighSurrogate(goals[i].1.instruction))
  }

  lemma SettledGoals(answer: seq<ProposedTurn>, people: seq<LeadPerson>, judge: Judge, taken: set<string>)
    ensures IsSettled(Settled(answer, people, judge, taken), people, judge, taken)
  {
    hide Clip, Usable, IsPersonId, Candidates, WithIds;
    var cs := Kept(Candidates(answer, people, judge));
    var goals := Settled(answer, people, judge, taken);
    SettledTurns(goals, cs, taken);
    CandidatesAreUsable(answer, people, judge);
    forall i | 0 <= i < |goals|
      ensures Usable(goals[i].1.instruction, judge) && IsPersonId(people, goals[i].0)
      ensures Clip(goals[i].1.instruction, GOAL_CHARS) == goals[i].1.instruction <==> !EndsInHighSurrogate(goals[i].1.instruction)
    {
      assert cs[i] == Proposals(goals)[i];
      assert cs[i] in Candidates(answer, people, judge);
      var t :| cs[i].1 == Clip(t, GOAL_CHARS);
      ClipAgain(t, GOAL_CHARS);
    }
  }

  /** Stored turns that hold all settled goals settle to the same goals exactly when no
      instruction loses a character to clipping. */
  lemma SettlesAgain(turns: seq<Turn<LeadGoal>>, people: seq<LeadPerson>, judge: Judge, taken: set<string>)
    requires RunLength(turns) && IsSettled(Flat(turns), people, judge, taken)
    ensures Settled(AsAnswer(turns), people, judge, taken) == Flat(turns) <==> WholeCharacters(Flat(turns))
  {
    hide Clip, Usable, IsPersonId, Candidates, WithIds, Flat, ReclippedAll;
    var goals := Flat(turns);
    var cs := Proposals(goals);
    TurnsFrom(people, turns);
    CandidatesOfStored(turns, people, judge);
    ReclippedSame(cs, judge);
    ReclippedIsNotLonger(cs, judge);
    var again := Settled(AsAnswer(turns), people, judge, taken);
    SettledTurns(again, ReclippedAll(cs, judge), taken);
    assert again == goals <==> ReclippedAll(cs, judge) == cs;
  }

  lemma SettlesToNoMore(turns: seq<Turn<LeadGoal>>, people: seq<LeadPerson>, judge: Judge, taken: set<string>)
    requires RunLength(turns) && AllFrom(people, Flat(turns))
    ensures |Settled(AsAnswer(turns), people, judge, taken)| <= |Flat(turns)|
  {
    hide Clip, Usable, IsPersonId, Candidates, Flat, ReclippedAll;
    TurnsFrom(people, turns);
    CandidatesOfStored(turns, people, judge);
    ReclippedIsNotLonger(Proposals(Flat(turns)), judge);
  }

  /** The rows that are stored of settled turns in `change` mode. */
  ghost function StoredRows(first: seq<Turn<LeadGoal>>, people: seq<LeadPerson>, maxPeople: nat): seq<Pair> {
    var added := Admitted([], Flat(Lead(PersonIds(people), first, true, maxPeople)));
    Rows(PersonIds(people), Merged(WithGoals(PersonIds(people), added), added))
  }

  // ----- The round trip -----

  ghost predicate ComesBack(first: seq<Turn<LeadGoal>>, maxPeople: nat) {
    |PeopleOf(first)| <= maxPeople && WholeCharacters(Flat(first))
  }

  /** Everything the lead's goals go through. `again` is empty when nothing was stored. */
  method StoreAndReadBack(answer: seq<ProposedTurn>, people: seq<LeadPerson>, judge: Judge, taken: set<string>, maxPeople: nat)
      returns (first: seq<Turn<LeadGoal>>, again: seq<Turn<LeadGoal>>)
    ensures RunLength(first) && Flat(first) == Settled(answer, people, judge, taken)
    ensures first != [] ==> (again == first <==> ComesBack(first, maxPeople))
  {
    hide Flat, Lead, Settled, ComesBack, IsSettled, PeopleOf, Admitted, Rows, WithGoals, AllFrom, RunLength;
    var dropped;
    first, dropped := SettleTurns(answer, people, judge, taken);
    SettledGoals(answer, people, judge, taken);
    var personas := PersonIds(people);
    var merged := WithLeadsGoals(personas, [], first, true, maxPeople);
    if merged.None? {
      again := [];
      NothingStored(first, people, judge, taken, maxPeople);
      return;
    }
    var stored := TurnsOfPlan(Rows(personas, merged.value));
    again, dropped := SettleTurns(AsAnswer(stored), people, judge, taken);
    Compare(first, stored, again, people, judge, taken, maxPeople);
  }

  lemma OfferedIsAdmitted(first: seq<Turn<LeadGoal>>, people: seq<LeadPerson>, judge: Judge, taken: set<string>, maxPeople: nat)
    requires RunLength(first) && IsSettled(Flat(first), people, judge, taken)
    requires |PeopleOf(first)| <= maxPeople
    ensures Admitted([], Flat(Lead(PersonIds(people), first, true, maxPeople))) == Flat(first)
    ensures Rows(PersonIds(people), Merged(WithGoals(PersonIds(people), Flat(first)), Flat(first))) == Flat(first)
  {
    hide Flat, Lead, Admitted, Rows, WithGoals, Clip, WithIds, PeopleOf;
    LeadOfFew(people, first, maxPeople);
    SettledTurns(Flat(first), Proposals(Flat(first)), taken);
    AllAdmitted(Flat(first));
    forall i | 0 <= i < |Flat(first)| ensures Flat(first)[i].0 in PersonIds(people) {
      PersonIdsAreAll(people, Flat(first)[i].0);
    }
    AllStored(PersonIds(people), Flat(first));
  }

  lemma NothingStored(first: seq<Turn<LeadGoal>>, people: seq<LeadPerson>, judge: Judge, taken: set<string>, maxPeople: nat)
    requires RunLength(first) && IsSettled(Flat(first), people, judge, taken)
    requires Admitted([], Flat(Lead(PersonIds(people), first, true, maxPeople))) == []
    ensures first != [] ==> !ComesBack(first, maxPeople)
  {
    hide Flat, Lead, Admitted, Clip, WithIds, IsSettled, RunLength, PeopleOf;
    SomeGoals(first);
    if |PeopleOf(first)| <= maxPeople {
      OfferedIsAdmitted(first, people, judge, taken, maxPeople);
    }
  }

  lemma Compare(first: seq<Turn<LeadGoal>>, stored: seq<Turn<LeadGoal>>, again: seq<Turn<LeadGoal>>,
                people: seq<LeadPerson>, judge: Judge, taken: set<string>, maxPeople: nat)
    requires RunLength(first) && IsSettled(Flat(first), people, judge, taken)
    requires RunLength(stored) && Flat(stored) == StoredRows(first, people, maxPeople)
    requires RunLength(again) && Flat(again) == Settled(AsAnswer(stored), people, judge, taken)
    ensures again == first <==> ComesBack(first, maxPeople)
  {
    hide Flat, Lead, Admitted, Rows, WithGoals, Settled, IsSettled, RunLength, PeopleOf, WholeCharacters;
    if |PeopleOf(first)| <= maxPeople {
      OfferedIsAdmitted(first, people, judge, taken, maxPeople);
      RunLengthIsUnique(stored, first);
      SettlesAgain(first, people, judge, taken);
      if Flat(again) == Flat(first) {
        RunLengthIsUnique(again, first);
      }
    } else {
      FewerRows(first, stored, people, judge, taken, maxPeople);
      SettlesToNoMore(stored, people, judge, taken);
    }
  }

  lemma FewerRows(first: seq<Turn<LeadGoal>>, stored: seq<Turn<LeadGoal>>, people: seq<LeadPerson>, judge: Judge, taken: set<string>, maxPeople: nat)
    requires RunLength(first) && IsSettled(Flat(first), people, judge, taken) && |PeopleOf(first)| > maxPeople
    requires Flat(stored) == StoredRows(first, people, maxPeople)
    ensures |Flat(stored)| < |Flat(first)| && AllFrom(people, Flat(stored))
  {
    hide Flat, Lead, Admitted, WithGoals, Clip, WithIds, Usable, IsPersonId, PeopleOf, OfKept;
    LeadOfMany(people, first, maxPeople);
    var offered := Flat(Lead(PersonIds(people), first, true, maxPeople));
    var added := Admitted([], offered);
    AdmittedIsNotLonger([], offered);
    var kept := set p | p in PersonIds(people) && p in WithGoals(PersonIds(people), added);
    KeptIsNotLonger(added, kept);
    KeptArePeople(added, kept);
    forall i | 0 <= i < |Flat(stored)| ensures IsPersonId(people, Flat(stored)[i].0) {
      PersonIdsAreAll(people, Flat(stored)[i].0);
    }
  }

  lemma {:induction false} KeptArePeople(goals: seq<Pair>, kept: set<string>)
    ensures forall i :: 0 <= i < |OfKept(goals, kept)| ==> OfKept(goals, kept)[i].0 in kept
  {
    if goals != [] {
      KeptArePeople(goals[..|goals| - 1], kept);
    }
  }
}
