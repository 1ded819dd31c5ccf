/** What happens to the lead's settled goals: `withLeadsGoals` puts them into a plan, `fillPlan`
    stores them as rows, `turnsOfPlan` reads the rows back, and they are settled once more. */
module LeadStore {
  import opened Lists
  import opened Options
  import opened JsText
  import opened Turns
  import opened LeadPlan

  type Pair = (string, LeadGoal)

  // ----- `withLeadsGoals` -----

  function OfPeople(turns: seq<Turn<LeadGoal>>, keep: set<string>): seq<Turn<LeadGoal>> {
    if turns == [] then []
    else OfPeople(turns[..|turns| - 1], keep) + (if turns[|turns| - 1].person in keep then [turns[|turns| - 1]] else [])
  }

  /** `[...new Set(lead.map((t) => t.person))]` */
  function PeopleOf(turns: seq<Turn<LeadGoal>>): (r: seq<string>)
    ensures Distinct(r)
    ensures forall p :: p in r <==> exists i :: 0 <= i < |turns| && turns[i].person == p
  {
    if turns == [] then []
    else
      var front, p := PeopleOf(turns[..|turns| - 1]), turns[|turns| - 1].person;
      assert turns == turns[..|turns| - 1] + [turns[|turns| - 1]];
      if p in front then front else front + [p]
  }

  function FirstPeople(turns: seq<Turn<LeadGoal>>, max: nat): set<string> {
    var first := if |PeopleOf(turns)| > max then PeopleOf(turns)[..max] else PeopleOf(turns);
    set p | p in first
  }

  /** The turns whose goals are offered to the plan. */
  function Lead(personas: seq<string>, turns: seq<Turn<LeadGoal>>, change: bool, maxPeople: nat): seq<Turn<LeadGoal>> {
    var known := OfPeople(turns, set p | p in personas);
    if change then OfPeople(known, FirstPeople(known, maxPeople)) else known
  }

  function CountFor(person: string, goals: seq<(string, string)>): nat {
    if goals == [] then 0
    else CountFor(person, goals[..|goals| - 1]) + (if goals[|goals| - 1].0 == person then 1 else 0)
  }

  /** The goals of the plan as pairs of person and id. */
  function Entries(goals: seq<Pair>): seq<(string, string)> {
    seq(|goals|, i requires 0 <= i < |goals| => (goals[i].0, goals[i].1.id))
  }

  predicate HasId(goals: seq<(string, string)>, id: string) {
    exists g :: g in goals && g.1 == id
  }

  /** A goal is passed over when its id is taken, its person has enough goals, or the plan has. */
  predicate Refused(plan: seq<(string, string)>, g: Pair) {
    HasId(plan, g.1.id) || CountFor(g.0, plan) >= MAX_GOALS_PER_PERSONA || |plan| >= MAX_GOALS
  }

  function Admitted(existing: seq<(string, string)>, offered: seq<Pair>): seq<Pair> {
    if offered == [] then []
    else
      var front, g := Admitted(existing, offered[..|offered| - 1]), offered[|offered| - 1];
      if Refused(existing + Entries(front), g) then front else front + [g]
  }

  datatype Merged = Merged(personas: seq<string>, added: seq<Pair>)

  function WithGoals(personas: seq<string>, added: seq<Pair>): seq<string> {
    if personas == [] then []
    else
      var p := personas[|personas| - 1];
      WithGoals(personas[..|personas| - 1], added) + (if exists g :: g in added && g.0 == p then [p] else [])
  }

  /** The set of ids and the counts that the loop keeps beside the plan. */
  ghost predicate Tally(plan: seq<(string, string)>, ids: set<string>, perPerson: map<string, nat>) {
    && (forall id :: id in ids <==> HasId(plan, id))
    && forall p :: CountFor(p, plan) == Count(perPerson, p)
  }

  function Count(perPerson: map<string, nat>, p: string): nat {
    if p in perPerson then perPerson[p] else 0
  }

  method WithLeadsGoals(personas: seq<string>, existing: seq<(string, string)>, turns: seq<Turn<LeadGoal>>, change: bool, maxPeople: nat)
      returns (r: Option<Merged>)
    ensures var added := Admitted(existing, Flat(Lead(personas, turns, change, maxPeople)));
            r == if added == [] then None else Some(Merged(if change then WithGoals(personas, added) else personas, added))
    ensures r.Some? ==> forall p :: p in r.value.personas <==> p in personas && (change ==> exists g :: g in r.value.added && g.0 == p)
  {
    hide Lead, Flat, Admitted, WithGoals, Tally;
    var offered := Flat(Lead(personas, turns, change, maxPeople));
    var ids := set g | g in existing :: g.1;
    var perPerson: map<string, nat> := map p | p in (set g | g in existing :: g.0) :: CountFor(p, existing);
    var added: seq<Pair> := [];
    TallyStarts(existing, ids, perPerson);
    assert offered[..0] == [];
    var k := 0;
    while k < |offered|
      invariant 0 <= k <= |offered|
      invariant added == Admitted(existing, offered[..k])
      invariant Tally(existing + Entries(added), ids, perPerson)
    {
      var g := offered[k];
      AdmitOneMore(existing, offered, k);
      TallyStep(existing, added, g, ids, perPerson);
      if !(g.1.id in ids || Count(perPerson, g.0) >= MAX_GOALS_PER_PERSONA || |existing| + |added| >= MAX_GOALS) {
        ids := ids + {g.1.id};
        perPerson := perPerson[g.0 := Count(perPerson, g.0) + 1];
        added := added + [g];
      }
      k := k + 1;
    }
    assert offered[..k] == offered;
    if |added| == 0 {
      return None;
    }
    WithGoalsAre(personas, added);
    r := Some(Merged(if change then WithGoals(personas, added) else personas, added));
  }

  lemma {:induction false} WithGoalsAre(personas: seq<string>, added: seq<Pair>)
    ensures forall p :: p in WithGoals(personas, added) <==> p in personas && exists g :: g in added && g.0 == p
  {
    if personas != [] {
      WithGoalsAre(personas[..|personas| - 1], added);
      assert personas == personas[..|personas| - 1] + [personas[|personas| - 1]];
    }
  }

  lemma TallyStarts(existing: seq<(string, string)>, ids: set<string>, perPerson: map<string, nat>)
    requires ids == set g | g in existing :: g.1
    requires forall p :: p in perPerson <==> exists g :: g in existing && g.0 == p
    requires forall p :: p in perPerson ==> perPerson[p] == CountFor(p, existing)
    ensures Admitted(existing, []) == [] && Tally(existing + Entries([]), ids, perPerson)
  {
    assert existing + Entries([]) == existing;
    CountsStart(existing);
  }

  lemma TallyStep(existing: seq<(string, string)>, added: seq<Pair>, g: Pair, ids: set<string>, perPerson: map<string, nat>)
    requires Tally(existing + Entries(added), ids, perPerson)
    ensures Refused(existing + Entries(added), g) <==>
            g.1.id in ids || Count(perPerson, g.0) >= MAX_GOALS_PER_PERSONA || |existing| + |added| >= MAX_GOALS
    ensures Tally(existing + Entries(added + [g]), ids + {g.1.id}, perPerson[g.0 := Count(perPerson, g.0) + 1])
  {
    hide CountFor, HasId;
    OneMoreOwner(existing, added, g);
  }

  lemma {:induction false} CountsStart(existing: seq<(string, string)>)
    ensures forall p :: (forall g :: g in existing ==> g.0 != p) ==> CountFor(p, existing) == 0
  {
    if existing != [] {
      var front := existing[..|existing| - 1];
      assert existing == front + [existing[|existing| - 1]];
      CountsStart(front);
    }
  }

  lemma AdmitOneMore(existing: seq<(string, string)>, offered: seq<Pair>, k: nat)
    requires k < |offered|
    ensures var front := Admitted(existing, offered[..k]);
            Admitted(existing, offered[..k + 1]) == if Refused(existing + Entries(front), offered[k]) then front else front + [offered[k]]
  {
    assert offered[..k + 1][..k] == offered[..k];
  }

  lemma OneMoreOwner(existing: seq<(string, string)>, added: seq<Pair>, g: Pair)
    ensures var before, after := existing + Entries(added), existing + Entries(added + [g]);
            && (forall id :: HasId(after, id) <==> HasId(before, id) || id == g.1.id)
            && forall p :: CountFor(p, after) == CountFor(p, before) + if p == g.0 then 1 else 0
  {
    var before, after := existing + Entries(added), existing + Entries(added + [g]);
    assert after == before + [(g.0, g.1.id)];
    assert after[..|after| - 1] == before;
    forall id ensures HasId(after, id) <==> HasId(before, id) || id == g.1.id {
      assert after[|after| - 1] in after;
      assert forall x :: x in before ==> x in after;
    }
  }

  ghost predicate OwnIds(plan: seq<(string, string)>) {
    forall i, j :: 0 <= i < j < |plan| ==> plan[i].1 != plan[j].1
  }

  ghost predicate FewEach(plan: seq<(string, string)>) {
    forall p :: CountFor(p, plan) <= MAX_GOALS_PER_PERSONA
  }

  /** No id twice, at most so many goals for each person and in all. */
  ghost predicate WithinLimits(plan: seq<(string, string)>) {
    OwnIds(plan) && FewEach(plan) && |plan| <= MAX_GOALS
  }

  /** Within the limits before, within the limits after, and only then. */
  lemma {:induction false} MergingKeepsLimits(existing: seq<(string, string)>, offered: seq<Pair>)
    ensures WithinLimits(existing + Entries(Admitted(existing, offered))) <==> WithinLimits(existing)
  {
    if offered == [] {
      assert existing + Entries([]) == existing;
    } else {
      var front, g := Admitted(existing, offered[..|offered| - 1]), offered[|offered| - 1];
      MergingKeepsLimits(existing, offered[..|offered| - 1]);
      if !Refused(existing + Entries(front), g) {
        LimitsOneMore(existing, front, g);
      }
    }
  }

  lemma LimitsOneMore(existing: seq<(string, string)>, front: seq<Pair>, g: Pair)
    requires !Refused(existing + Entries(front), g)
    ensures WithinLimits(existing + Entries(front + [g])) <==> WithinLimits(existing + Entries(front))
  {
    hide CountFor;
    OneMoreOwner(existing, front, g);
    var plan := existing + Entries(front);
    var more := plan + [(g.0, g.1.id)];
    assert existing + Entries(front + [g]) == more;
    assert forall i :: 0 <= i < |plan| ==> plan[i] in plan && more[i] == plan[i];
    assert forall p :: CountFor(p, plan) <= CountFor(p, more);
  }

  /** Whatever the plan was like, what is added has ids of its own and goes over no limit. */
  lemma {:induction false} AddedWithinLimits(existing: seq<(string, string)>, offered: seq<Pair>)
    ensures var added := Admitted(existing, offered);
            var plan := existing + Entries(added);
            && DistinctIds(added) && (forall g :: g in added ==> !HasId(existing, g.1.id))
            && (forall p :: CountFor(p, plan) <= AtLeast(CountFor(p, existing), MAX_GOALS_PER_PERSONA))
            && |plan| <= AtLeast(|existing|, MAX_GOALS)
  {
    if offered == [] {
      assert existing + Entries([]) == existing;
    } else {
      var front, g := Admitted(existing, offered[..|offered| - 1]), offered[|offered| - 1];
      AddedWithinLimits(existing, offered[..|offered| - 1]);
      if !Refused(existing + Entries(front), g) {
        hide CountFor;
        OneMoreOwner(existing, front, g);
        NewIdIsOwn(existing, front, g);
      }
    }
  }

  /** A goal that is offered is passed over only when the plan has its id, or its person or the plan
      has as many goals as they may. */
  lemma {:induction false} NothingElsePassedOver(existing: seq<(string, string)>, offered: seq<Pair>, t: nat)
    requires t < |offered|
    ensures var plan := existing + Entries(Admitted(existing, offered));
      (exists e :: e in plan && e.1 == offered[t].1.id) || CountFor(offered[t].0, plan) >= 20 || |plan| >= 240
  {
    hide CountFor;
    var n := |offered| - 1;
    var front, g := Admitted(existing, offered[..n]), offered[n];
    OneMoreOwner(existing, front, g);
    assert |Entries(front + [g])| == |Entries(front)| + 1;
    if t < n {
      NothingElsePassedOver(existing, offered[..n], t);
      assert HasId(existing + Entries(front), offered[t].1.id) || CountFor(offered[t].0, existing + Entries(front)) >= 20 || |existing + Entries(front)| >= 240;
    }
  }

  function AtLeast(n: nat, limit: nat): nat {
    if n < limit then limit else n
  }

  lemma NewIdIsOwn(existing: seq<(string, string)>, front: seq<Pair>, g: Pair)
    requires !HasId(existing + Entries(front), g.1.id)
    ensures !HasId(existing, g.1.id) && forall i :: 0 <= i < |front| ==> front[i].1.id != g.1.id
  {
    var plan := existing + Entries(front);
    assert forall e :: e in existing ==> e in plan;
    forall i | 0 <= i < |front| ensures front[i].1.id != g.1.id {
      assert plan[|existing| + i] == (front[i].0, front[i].1.id) && plan[|existing| + i] in plan;
    }
  }

  lemma {:induction false} AdmittedIsNotLonger(existing: seq<(string, string)>, offered: seq<Pair>)
    ensures |Admitted(existing, offered)| <= |offered|
  {
    if offered != [] {
      AdmittedIsNotLonger(existing, offered[..|offered| - 1]);
    }
  }

  ghost predicate DistinctIds(goals: seq<Pair>) {
    forall i, j :: 0 <= i < j < |goals| ==> goals[i].1.id != goals[j].1.id
  }

  /** A few goals with ids of their own are all taken into a plan that has none. */
  lemma {:induction false} AllAdmitted(offered: seq<Pair>)
    requires |offered| <= MAX_LEAD_GOALS && DistinctIds(offered)
    ensures Admitted([], offered) == offered
  {
    hide DistinctIds, Refused, Entries;
    if offered != [] {
      var front, g := offered[..|offered| - 1], offered[|offered| - 1];
      assert offered == front + [g];
      NotRefused(front, g);
      AllAdmitted(front);
    }
  }

  lemma NotRefused(front: seq<Pair>, g: Pair)
    requires |front| < MAX_LEAD_GOALS && DistinctIds(front + [g])
    ensures DistinctIds(front) && !Refused([] + Entries(front), g)
  {
    hide CountFor;
    assert forall i :: 0 <= i < |front| ==> (front + [g])[i] == front[i];
    assert (front + [g])[|front|] == g;
    assert [] + Entries(front) == Entries(front);
    CountIsBounded(g.0, Entries(front));
  }

  lemma {:induction false} CountIsBounded(person: string, goals: seq<(string, string)>)
    ensures CountFor(person, goals) <= |goals|
  {
    if goals != [] {
      CountIsBounded(person, goals[..|goals| - 1]);
    }
  }

  // ----- Rows -----

  /** The goal rows `fillPlan` inserts: those whose person is in the content and in the source plan. */
  function Rows(sourcePersonas: seq<string>, content: Merged): seq<Pair> {
    OfKept(content.added, set p | p in sourcePersonas && p in content.personas)
  }

  function OfKept(goals: seq<Pair>, kept: set<string>): seq<Pair> {
    if goals == [] then []
    else OfKept(goals[..|goals| - 1], kept) + (if goals[|goals| - 1].0 in kept then [goals[|goals| - 1]] else [])
  }

  lemma {:induction false} AllKept(goals: seq<Pair>, kept: set<string>)
    requires forall i :: 0 <= i < |goals| ==> goals[i].0 in kept
    ensures OfKept(goals, kept) == goals
  {
    if goals != [] {
      AllKept(goals[..|goals| - 1], kept);
    }
  }

  lemma {:induction false} KeptIsNotLonger(goals: seq<Pair>, kept: set<string>)
    ensures |OfKept(goals, kept)| <= |goals|
  {
    if goals != [] {
      KeptIsNotLonger(goals[..|goals| - 1], kept);
    }
  }

  lemma {:induction false} InWithGoals(personas: seq<string>, added: seq<Pair>, p: string)
    ensures p in WithGoals(personas, added) <==> p in personas && exists g :: g in added && g.0 == p
  {
    if personas != [] {
      InWithGoals(personas[..|personas| - 1], added, p);
      assert personas == personas[..|personas| - 1] + [personas[|personas| - 1]];
    }
  }

  lemma AllStored(personas: seq<string>, added: seq<Pair>)
    requires forall i :: 0 <= i < |added| ==> added[i].0 in personas
    ensures Rows(personas, Merged(WithGoals(personas, added), added)) == added
  {
    forall i | 0 <= i < |added| ensures added[i].0 in WithGoals(personas, added) {
      assert added[i] in added;
      InWithGoals(personas, added, added[i].0);
    }
    AllKept(added, set p | p in personas && p in WithGoals(personas, added));
  }

  /** Reading the rows back in their order. */
  method TurnsOfPlan(rows: seq<Pair>) returns (turns: seq<Turn<LeadGoal>>)
    ensures RunLength(turns) && Flat(turns) == rows
  {
    turns := [];
    var k := 0;
    while k < |rows|
      invariant 0 <= k <= |rows|
      invariant RunLength(turns) && Flat(turns) == rows[..k]
    {
      AddedIsFlat(turns, rows[k].0, [rows[k].1]);
      AddedRunLength(turns, rows[k].0, [rows[k].1]);
      turns := Added(turns, rows[k].0, [rows[k].1]);
      assert rows[..k + 1] == rows[..k] + [rows[k]];
      k := k + 1;
    }
    assert rows[..k] == rows;
  }

  // ----- Round trip -----

  function Texts(goals: seq<LeadGoal>): seq<Text> {
    seq(|goals|, i requires 0 <= i < |goals| => goals[i].instruction)
  }

  /** Stored turns taken as an answer. */
  function AsAnswer(turns: seq<Turn<LeadGoal>>): seq<ProposedTurn> {
    seq(|turns|, i requires 0 <= i < |turns| => ProposedTurn(turns[i].person, Texts(turns[i].goals)))
  }

  function Proposals(goals: seq<Pair>): (r: seq<(string, Text)>)
    ensures |r| == |goals| && forall i :: 0 <= i < |r| ==> r[i] == (goals[i].0, goals[i].1.instruction)
  {
    seq(|goals|, i requires 0 <= i < |goals| => (goals[i].0, goals[i].1.instruction))
  }

  /** What clipping a stored goal again leaves of it. */
  function Reclipped(c: (string, Text)): (string, Text) {
    (c.0, Clip(c.1, GOAL_CHARS))
  }

  function ReclippedAll(cs: seq<(string, Text)>, judge: Judge): seq<(string, Text)> {
    if cs == [] then []
    else
      var c := Reclipped(cs[|cs| - 1]);
      ReclippedAll(cs[..|cs| - 1], judge) + (if Usable(c.1, judge) then [c] else [])
  }

  lemma {:induction false} ReclippedConcat(a: seq<(string, Text)>, b: seq<(string, Text)>, judge: Judge)
    ensures ReclippedAll(a + b, judge) == ReclippedAll(a, judge) + ReclippedAll(b, judge)
  {
    hide Clip, Usable;
    if b == [] {
      assert a + b == a;
    } else {
      assert (a + b)[..|a + b| - 1] == a + b[..|b| - 1];
      ReclippedConcat(a, b[..|b| - 1], judge);
    }
  }

  lemma {:induction false} UsableOfStored(person: string, goals: seq<LeadGoal>, judge: Judge)
    ensures UsableOf(person, Texts(goals), judge) == ReclippedAll(Proposals(Tagged(person, goals)), judge)
  {
    hide Clip, Usable;
    if goals != [] {
      var front := goals[..|goals| - 1];
      UsableOfStored(person, front, judge);
      assert Texts(goals)[..|goals| - 1] == Texts(front);
      assert Proposals(Tagged(person, goals))[..|goals| - 1] == Proposals(Tagged(person, front));
    }
  }

  lemma NothingStored(people: seq<LeadPerson>, judge: Judge)
    ensures Candidates(AsAnswer([]), people, judge) == ReclippedAll(Proposals(Flat<LeadGoal>([])), judge)
  {
  }

  lemma CandidatesOneMore(front: seq<Turn<LeadGoal>>, last: Turn<LeadGoal>, people: seq<LeadPerson>, judge: Judge)
    requires IsPersonId(people, last.person)
    ensures Candidates(AsAnswer(front + [last]), people, judge) ==
            Candidates(AsAnswer(front), people, judge) + UsableOf(last.person, Texts(last.goals), judge)
  {
    hide Clip, Usable, IsPersonId, UsableOf;
    assert AsAnswer(front + [last])[..|front|] == AsAnswer(front);
  }

  lemma ProposalsOneMore(front: seq<Turn<LeadGoal>>, last: Turn<LeadGoal>)
    ensures Proposals(Flat(front + [last])) == Proposals(Flat(front)) + Proposals(Tagged(last.person, last.goals))
  {
    assert (front + [last])[..|front|] == front;
  }

  /** Reading stored turns as an answer proposes the stored goals again, clipped once more. */
  lemma {:induction false} CandidatesOfStored(turns: seq<Turn<LeadGoal>>, people: seq<LeadPerson>, judge: Judge)
    requires forall i :: 0 <= i < |turns| ==> IsPersonId(people, turns[i].person)
    ensures Candidates(AsAnswer(turns), people, judge) == ReclippedAll(Proposals(Flat(turns)), judge)
  {
    hide Clip, Usable, IsPersonId, UsableOf, Candidates, Flat, ReclippedAll;
    if turns == [] {
      NothingStored(people, judge);
    } else {
      var front, last := turns[..|turns| - 1], turns[|turns| - 1];
      assert turns == front + [last];
      CandidatesOfStored(front, people, judge);
      CandidatesOneMore(front, last, people, judge);
      ProposalsOneMore(front, last);
      ReclippedConcat(Proposals(Flat(front)), Proposals(Tagged(last.person, last.goals)), judge);
      UsableOfStored(last.person, last.goals, judge);
    }
  }

  lemma {:induction false} ReclippedIsNotLonger(cs: seq<(string, Text)>, judge: Judge)
    ensures |ReclippedAll(cs, judge)| <= |cs|
  {
    hide Clip, Usable;
    if cs != [] {
      ReclippedIsNotLonger(cs[..|cs| - 1], judge);
    }
  }

  /** Usable goals are proposed unchanged exactly when clipping leaves each as it is. */
  lemma {:induction false} ReclippedSame(cs: seq<(string, Text)>, judge: Judge)
    requires forall i :: 0 <= i < |cs| ==> Usable(cs[i].1, judge)
    ensures ReclippedAll(cs, judge) == cs <==> forall i :: 0 <= i < |cs| ==> Clip(cs[i].1, GOAL_CHARS) == cs[i].1
  {
    hide Clip, Usable;
    if cs != [] {
      var front, last := cs[..|cs| - 1], cs[|cs| - 1];
      assert cs == front + [last];
      ReclippedSame(front, judge);
      ReclippedIsNotLonger(front, judge);
      var again := ReclippedAll(cs, judge);
      if again == cs {
        assert again == ReclippedAll(front, judge) + [Reclipped(last)];
        assert again[..|cs| - 1] == ReclippedAll(front, judge);
      }
    }
  }

  lemma {:induction false} SettledTurns(goals: seq<Pair>, cs: seq<(string, Text)>, taken: set<string>)
    requires goals == WithIds(cs, taken)
    ensures DistinctIds(goals) && Proposals(goals) == cs
  {
    IdsAreOwn(cs, taken);
  }

  lemma {:induction false} CandidatesAreUsable(answer: seq<ProposedTurn>, people: seq<LeadPerson>, judge: Judge)
    ensures forall c :: c in Candidates(answer, people, judge) ==> Usable(c.1, judge) && IsPersonId(people, c.0)
    ensures forall c :: c in Candidates(answer, people, judge) ==> exists t :: c.1 == Clip(t, GOAL_CHARS)
  {
    hide Clip, Usable, IsPersonId;
    if answer != [] {
      CandidatesAreUsable(answer[..|answer| - 1], people, judge);
      var turn := answer[|answer| - 1];
      var person := PersonId(turn.person, people, judge);
      if person.Some? {
        OfTurnAreUsable(person.value, turn.instructions, judge);
      }
    }
  }

  lemma {:induction false} OfTurnAreUsable(person: string, instructions: seq<Text>, judge: Judge)
    ensures forall c :: c in UsableOf(person, instructions, judge) ==> Usable(c.1, judge) && c.0 == person
    ensures forall c :: c in UsableOf(person, instructions, judge) ==> exists t :: c.1 == Clip(t, GOAL_CHARS)
  {
    hide Clip, Usable;
    if instructions != [] {
      OfTurnAreUsable(person, instructions[..|instructions| - 1], judge);
    }
  }
}
