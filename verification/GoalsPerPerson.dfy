/** `goalsPerPerson` of `apps/control-plane/src/projects/projects.ts`: a goal that everybody
    shares becomes one goal for each person. */
module GoalsPerPerson {
  import opened Lists
  import opened JsText
  import opened Options
  import opened FreeIds
  import opened Turns

  function Instructions(goals: seq<PlanGoal>): seq<Text> {
    seq(|goals|, i requires 0 <= i < |goals| => goals[i].instruction)
  }

  /** What a person is asked to do, in order. */
  function AskedOf(goals: seq<PlanGoal>, person: string): seq<Text> {
    Instructions(GoalsFor(goals, person))
  }

  lemma {:induction false} GoalsForConcat(a: seq<PlanGoal>, b: seq<PlanGoal>, person: string)
    ensures GoalsFor(a + b, person) == GoalsFor(a, person) + GoalsFor(b, person)
  {
    if b == [] {
      assert a + b == a;
    } else {
      assert (a + b)[..|a + b| - 1] == a + b[..|b| - 1];
      GoalsForConcat(a, b[..|b| - 1], person);
    }
  }

  lemma AskedOfConcat(a: seq<PlanGoal>, b: seq<PlanGoal>, person: string)
    ensures AskedOf(a + b, person) == AskedOf(a, person) + AskedOf(b, person)
  {
    GoalsForConcat(a, b, person);
  }

  ghost function IdSet(goals: seq<PlanGoal>): set<string> {
    set id | id in Ids(goals)
  }

  /** What made-up ids start with. */
  ghost function CopyBase(g: PlanGoal, person: string): (base: string)
    ensures |base| <= 57
  {
    Front(g.id, 30) + "-" + Front(person, 26)
  }

  /** The first person keeps the goal's id; the others get ids made of both. */
  ghost function CopyId(g: PlanGoal, person: string, n: nat, taken: set<string>): (id: string)
  {
    var base := CopyBase(g, person);
    if n == 0 then g.id else FreeId(base, base + "-", 2, taken)
  }

  ghost function Copies(g: PlanGoal, personas: seq<string>, taken: set<string>): (r: seq<PlanGoal>)
    ensures |r| == |personas|
  {
    if personas == [] then []
    else
      var n := |personas| - 1;
      var front := Copies(g, personas[..n], taken);
      front + [PlanGoal(CopyId(g, personas[n], n, taken + IdSet(front)), g.instruction, Some(personas[n]))]
  }

  /** A goal with an owner stays as it is. */
  ghost function Owned(goals: seq<PlanGoal>, personas: seq<string>, taken: set<string>): seq<PlanGoal> {
    if goals == [] then []
    else
      var front := Owned(goals[..|goals| - 1], personas, taken);
      front + Expanded(goals[|goals| - 1], personas, taken + IdSet(front))
  }

  ghost function Expanded(g: PlanGoal, personas: seq<string>, taken: set<string>): seq<PlanGoal> {
    if g.person.Some? then [g] else Copies(g, personas, taken)
  }

  /** The copies of one shared goal. `taken` grows by the ids that were made up. */
  method CopiesOf(g: PlanGoal, personas: seq<string>, taken: set<string>) returns (copies: seq<PlanGoal>, nowTaken: set<string>)
    requires g.id in taken
    ensures copies == Copies(g, personas, taken) && nowTaken == taken + IdSet(copies)
    ensures |copies| == |personas|
    ensures forall i :: 0 <= i < |copies| ==> IsCopy(g, personas[i], i, taken + IdSet(copies[..i]), copies[i])
  {
    hide Copies;
    copies, nowTaken := [], taken;
    assert personas[..0] == [];
    while |copies| < |personas|
      invariant |copies| <= |personas| && copies == Copies(g, personas[..|copies|], taken)
      invariant nowTaken == taken + IdSet(copies)
    {
      var p := personas[|copies|];
      var id := g.id;
      if |copies| > 0 {
        var base := Front(g.id, 30) + "-" + Front(p, 26);
        id := FindFreeId(base, base + "-", 2, nowTaken);
        nowTaken := nowTaken + {id};
      }
      CopiesOneMore(g, personas, taken, |copies|);
      OneMoreId(copies, PlanGoal(id, g.instruction, Some(p)));
      copies := copies + [PlanGoal(id, g.instruction, Some(p))];
    }
    assert personas[..|copies|] == personas;
    CopiesAre(g, personas, taken);
  }

  /** The first person's copy has the goal's own id. Another's is called after both, cut to 30 and 26
      characters, with the first number from 2 on that is free if that is taken. */
  ghost predicate IsCopy(g: PlanGoal, person: string, n: nat, taken: set<string>, copy: PlanGoal) {
    && copy.instruction == g.instruction && copy.person == Some(person)
    && var base := (if |g.id| > 30 then g.id[..30] else g.id) + "-" + (if |person| > 26 then person[..26] else person);
      if n == 0 then copy.id == g.id
      else if base !in taken then copy.id == base
      else exists k :: IsFirstFree(base + "-", 2, taken, copy.id, k)
  }

  lemma {:induction false} CopiesAre(g: PlanGoal, personas: seq<string>, taken: set<string>)
    ensures var copies := Copies(g, personas, taken);
      forall i :: 0 <= i < |copies| ==> IsCopy(g, personas[i], i, taken + IdSet(copies[..i]), copies[i])
    decreases |personas|
  {
    if personas != [] {
      hide IsCopy;
      var n := |personas| - 1;
      var front, copies := Copies(g, personas[..n], taken), Copies(g, personas, taken);
      CopiesAre(g, personas[..n], taken);
      assert copies[..n] == front;
      assert forall i :: 0 <= i < n ==> copies[..i] == front[..i] && copies[i] == front[i] && personas[..n][i] == personas[i];
      LastCopy(g, personas[n], n, taken + IdSet(front));
    }
  }

  lemma LastCopy(g: PlanGoal, person: string, n: nat, taken: set<string>)
    ensures IsCopy(g, person, n, taken, PlanGoal(CopyId(g, person, n, taken), g.instruction, Some(person)))
  {
    var base := CopyBase(g, person);
    FreeIdIs(base, base + "-", 2, taken);
  }

  lemma CopiesOneMore(g: PlanGoal, personas: seq<string>, taken: set<string>, n: nat)
    requires n < |personas|
    ensures var front := Copies(g, personas[..n], taken);
      Copies(g, personas[..n + 1], taken) ==
      front + [PlanGoal(CopyId(g, personas[n], n, taken + IdSet(front)), g.instruction, Some(personas[n]))]
  {
    assert personas[..n + 1][..n] == personas[..n];
  }

  lemma CopyIdIsOwn(g: PlanGoal, person: string, n: nat, taken: set<string>)
    ensures n > 0 ==> CopyId(g, person, n, taken) !in taken
    ensures n == 0 ==> CopyId(g, person, n, taken) == g.id
  {
  }

  /** The copies ask every person the same, under ids of their own. */
  lemma {:induction false} CopiesAreOwn(g: PlanGoal, personas: seq<string>, taken: set<string>)
    requires g.id in taken
    ensures var copies := Copies(g, personas, taken);
      && AllOwned(copies) && Distinct(Ids(copies))
      && (forall i :: 0 <= i < |copies| ==> copies[i].instruction == g.instruction && copies[i].person == Some(personas[i]))
      && forall i :: 0 <= i < |copies| ==> copies[i].id == g.id || copies[i].id !in taken
    decreases |personas|
  {
    if personas != [] {
      hide CopyId;
      var n := |personas| - 1;
      var front := Copies(g, personas[..n], taken);
      CopiesAreOwn(g, personas[..n], taken);
      CopyIdIsOwn(g, personas[n], n, taken + IdSet(front));
      var id := CopyId(g, personas[n], n, taken + IdSet(front));
      OneMoreId(front, PlanGoal(id, g.instruction, Some(personas[n])));
      assert forall i :: 0 <= i < |front| ==> Ids(front)[i] in IdSet(front);
    }
  }

  lemma OneMoreId(goals: seq<PlanGoal>, g: PlanGoal)
    ensures Ids(goals + [g]) == Ids(goals) + [g.id]
    ensures IdSet(goals + [g]) == IdSet(goals) + {g.id}
  {
    assert Ids(goals + [g]) == Ids(goals) + [g.id];
  }

  lemma IdsConcat(a: seq<PlanGoal>, b: seq<PlanGoal>)
    ensures Ids(a + b) == Ids(a) + Ids(b)
    ensures IdSet(a + b) == IdSet(a) + IdSet(b)
  {
    assert Ids(a + b) == Ids(a) + Ids(b);
  }

  /** Every person is asked the same as before, every goal has an owner, and no id repeats. */
  method OwnGoals(personas: seq<string>, goals: seq<PlanGoal>) returns (owned: seq<PlanGoal>)
    requires Distinct(personas) && Distinct(Ids(goals))
    ensures owned == Owned(goals, personas, IdSet(goals))
    ensures AllOwned(owned) && Distinct(Ids(owned))
    ensures forall p :: p in personas ==> AskedOf(owned, p) == AskedOf(goals, p)
    ensures forall g :: g in goals && g.person.Some? ==> g in owned
  {
    hide Owned, Copies, AskedOf;
    var taken := set id | id in Ids(goals);
    owned := [];
    NothingOwned(goals, personas);
    var k := 0;
    while k < |goals|
      invariant 0 <= k <= |goals|
      invariant owned == Owned(goals[..k], personas, IdSet(goals)) && taken == IdSet(goals) + IdSet(owned)
      invariant forall g :: g in goals[..k] && g.person.Some? ==> g in owned
    {
      var g := goals[k];
      assert Ids(goals)[k] == g.id;
      var more := [g];
      OneMoreId([], g);
      if g.person.None? {
        more, taken := CopiesOf(g, personas, taken);
      }
      OwnedOneMore(goals, personas, k);
      IdsConcat(owned, more);
      owned := owned + more;
      k := k + 1;
    }
    assert goals[..k] == goals;
    OwnedAreOwn(personas, goals, k);
    forall p | p in personas ensures AskedOf(owned, p) == AskedOf(goals, p) {
      OwnedAskTheSame(personas, goals, k, p);
    }
  }

  lemma NothingOwned(goals: seq<PlanGoal>, personas: seq<string>)
    ensures Owned(goals[..0], personas, IdSet(goals)) == [] && IdSet([]) == {}
  {
  }

  /** Ids stay apart, those of goals still to come included. */
  lemma {:induction false} OwnedAreOwn(personas: seq<string>, goals: seq<PlanGoal>, k: nat)
    requires k <= |goals| && Distinct(Ids(goals))
    ensures var owned := Owned(goals[..k], personas, IdSet(goals));
      AllOwned(owned) && Distinct(Ids(owned)) && forall i :: k <= i < |goals| ==> goals[i].id !in IdSet(owned)
  {
    hide Owned, Copies;
    if k == 0 {
      NothingOwned(goals, personas);
    } else {
      var front, g := Owned(goals[..k - 1], personas, IdSet(goals)), goals[k - 1];
      OwnedAreOwn(personas, goals, k - 1);
      OwnedOneMore(goals, personas, k - 1);
      assert Ids(goals)[k - 1] == g.id;
      var more := Expanded(g, personas, IdSet(goals) + IdSet(front));
      if g.person.None? {
        CopiesAreOwn(g, personas, IdSet(goals) + IdSet(front));
      }
      IdsStayDistinct(goals, front, more, k - 1);
    }
  }

  lemma {:induction false} OwnedAskTheSame(personas: seq<string>, goals: seq<PlanGoal>, k: nat, p: string)
    requires k <= |goals| && Distinct(personas) && p in personas
    ensures AskedOf(Owned(goals[..k], personas, IdSet(goals)), p) == AskedOf(goals[..k], p)
  {
    hide Owned, Copies, AskedOf;
    if k == 0 {
      NothingOwned(goals, personas);
      assert goals[..0] == [];
    } else {
      var front, g := Owned(goals[..k - 1], personas, IdSet(goals)), goals[k - 1];
      OwnedAskTheSame(personas, goals, k - 1, p);
      OwnedOneMore(goals, personas, k - 1);
      assert goals[..k] == goals[..k - 1] + [g];
      AskedOfConcat(goals[..k - 1], [g], p);
      AskedOfConcat(front, Expanded(g, personas, IdSet(goals) + IdSet(front)), p);
      if g.person.None? {
        assert Ids(goals)[k - 1] == g.id;
        CopiesAreOwn(g, personas, IdSet(goals) + IdSet(front));
        CopiesAskOnce(g, Expanded(g, personas, IdSet(goals) + IdSet(front)), personas, p);
      }
    }
  }

  lemma OwnedOneMore(goals: seq<PlanGoal>, personas: seq<string>, k: nat)
    requires k < |goals|
    ensures var front := Owned(goals[..k], personas, IdSet(goals));
      Owned(goals[..k + 1], personas, IdSet(goals)) == front + Expanded(goals[k], personas, IdSet(goals) + IdSet(front))
  {
    hide Copies;
    assert goals[..k + 1][..k] == goals[..k];
  }

  lemma IdsStayDistinct(goals: seq<PlanGoal>, owned: seq<PlanGoal>, more: seq<PlanGoal>, k: nat)
    requires k < |goals| && Distinct(Ids(goals)) && Distinct(Ids(owned)) && Distinct(Ids(more))
    requires forall i :: k <= i < |goals| ==> goals[i].id !in IdSet(owned)
    requires forall i :: 0 <= i < |more| ==> more[i].id == goals[k].id || more[i].id !in IdSet(goals) + IdSet(owned)
    ensures Distinct(Ids(owned + more))
    ensures forall i :: k + 1 <= i < |goals| ==> goals[i].id !in IdSet(owned + more)
  {
    IdsConcat(owned, more);
    assert forall i :: 0 <= i < |goals| ==> Ids(goals)[i] == goals[i].id && Ids(goals)[i] in IdSet(goals);
    forall i | 0 <= i < |more| ensures Ids(more)[i] !in IdSet(owned) {
      assert Ids(more)[i] == more[i].id;
    }
    forall i, j | k + 1 <= i < |goals| && 0 <= j < |more| ensures goals[i].id != Ids(more)[j] {
      assert Ids(goals)[k] != Ids(goals)[i];
      assert Ids(more)[j] == more[j].id;
    }
  }

  lemma CopiesAskOnce(g: PlanGoal, copies: seq<PlanGoal>, personas: seq<string>, p: string)
    requires Distinct(personas) && p in personas && |copies| == |personas| && g.person.None?
    requires forall i :: 0 <= i < |copies| ==> copies[i].instruction == g.instruction && copies[i].person == Some(personas[i])
    ensures AskedOf(copies, p) == AskedOf([g], p)
  {
    var i :| 0 <= i < |personas| && personas[i] == p;
    OnlyOneIsTheirs(copies, p, i);
    OneGoal(g, p);
    hide GoalsFor;
    assert AskedOf(copies, p)[0] == AskedOf([g], p)[0];
  }

  lemma OnlyOneIsTheirs(goals: seq<PlanGoal>, p: string, i: nat)
    requires i < |goals| && goals[i].person == Some(p)
    requires forall j :: 0 <= j < |goals| && j != i ==> goals[j].person.Some? && goals[j].person.value != p
    ensures GoalsFor(goals, p) == [goals[i]]
  {
    hide GoalsFor;
    var front, back := goals[..i], goals[i + 1..];
    assert goals == front + ([goals[i]] + back);
    GoalsForConcat(front, [goals[i]] + back, p);
    GoalsForConcat([goals[i]], back, p);
    NobodysGoals(front, p);
    NobodysGoals(back, p);
    OneGoal(goals[i], p);
  }

  lemma OneGoal(g: PlanGoal, p: string)
    requires g.person.None? || g.person == Some(p)
    ensures GoalsFor([g], p) == [g]
  {
    assert GoalsFor([g], p) == GoalsFor([], p) + [g];
  }

  lemma {:induction false} NobodysGoals(goals: seq<PlanGoal>, p: string)
    requires forall i :: 0 <= i < |goals| ==> goals[i].person.Some? && goals[i].person.value != p
    ensures GoalsFor(goals, p) == []
  {
    if goals != [] {
      NobodysGoals(goals[..|goals| - 1], p);
    }
  }
}
