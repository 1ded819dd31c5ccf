/** Whose goals the lead keeps: `withLeadsGoals` of `apps/control-plane/src/runs/pr-plan.ts` takes the
    turns of people of the plan, and in `change` mode those of the first few of them. */
module LeadPeople {
  import opened Lists
  import opened Turns
  import opened LeadPlan
  import opened LeadStore

  type LeadTurns = seq<Turn<LeadGoal>>

  /** The people of the plan who have a turn among the first `n`. */
  ghost function KnownAmong(personas: seq<string>, turns: LeadTurns, n: nat): set<string>
    requires n <= |turns|
  {
    set i | 0 <= i < n && turns[i].person in personas :: turns[i].person
  }

  /** The person is of the plan, and fewer than so many others of it have a turn before. */
  ghost predicate IsAmongFirst(personas: seq<string>, turns: LeadTurns, person: string, max: nat) {
    person in personas && exists f :: FewBefore(personas, turns, person, max, f)
  }

  ghost predicate FewBefore(personas: seq<string>, turns: LeadTurns, person: string, max: nat, f: nat) {
    f < |turns| && turns[f].person == person && |KnownAmong(personas, turns, f) - {person}| < max
  }

  ghost function PersonTest(keep: set<string>): Turn<LeadGoal> -> bool {
    (t: Turn<LeadGoal>) => t.person in keep
  }

  lemma {:induction false} OfPeopleAt(turns: LeadTurns, keep: set<string>) returns (at: seq<nat>)
    ensures StandAt(OfPeople(turns, keep), turns, at) && ArePlaces(turns, PersonTest(keep), at)
  {
    hide StandAt, ArePlaces;
    if turns == [] {
      at := [];
      NobodysTurns(turns, keep);
    } else {
      var front, t := turns[..|turns| - 1], turns[|turns| - 1];
      assert turns == front + [t];
      at := OfPeopleAt(front, keep);
      PlacesOneMore(front, t, PersonTest(keep), at);
      StandOneMore(OfPeople(front, keep), front, t, at);
      if t.person in keep {
        at := at + [|front|];
      } else {
        assert OfPeople(turns, keep) == OfPeople(front, keep);
      }
    }
  }

  lemma NobodysTurns(turns: LeadTurns, keep: set<string>)
    requires turns == []
    ensures StandAt(OfPeople(turns, keep), turns, []) && ArePlaces(turns, PersonTest(keep), [])
  {
  }

  ghost function Known(personas: seq<string>): set<string> {
    set p | p in personas
  }

  lemma PeopleOneMore(front: LeadTurns, t: Turn<LeadGoal>)
    ensures PeopleOf(front + [t]) == if t.person in PeopleOf(front) then PeopleOf(front) else PeopleOf(front) + [t.person]
  {
    assert (front + [t])[..|front|] == front;
  }

  lemma KnownOneMore(personas: seq<string>, turns: LeadTurns, n: nat)
    requires n < |turns|
    ensures KnownAmong(personas, turns, n + 1) ==
      if turns[n].person in personas then KnownAmong(personas, turns, n) + {turns[n].person} else KnownAmong(personas, turns, n)
  {
  }

  /** The people of the first `n` turns who are of the plan, in the order of their first turns. */
  ghost function FirstKnown(personas: seq<string>, turns: LeadTurns, n: nat): seq<string>
    requires n <= |turns|
  {
    PeopleOf(OfPeople(turns[..n], Known(personas)))
  }

  lemma FirstKnownOneMore(personas: seq<string>, turns: LeadTurns, n: nat)
    requires n < |turns|
    ensures var before, p := FirstKnown(personas, turns, n), turns[n].person;
      FirstKnown(personas, turns, n + 1) == if p in personas && p !in before then before + [p] else before
  {
    hide PeopleOf;
    var known := OfPeople(turns[..n], Known(personas));
    assert turns[..n + 1][..n] == turns[..n];
    PeopleOneMore(known, turns[n]);
    assert turns[n].person !in personas ==> OfPeople(turns[..n + 1], Known(personas)) == known;
  }

  lemma {:induction false} FirstKnownAre(personas: seq<string>, turns: LeadTurns, n: nat)
    requires n <= |turns|
    ensures EachOnce(FirstKnown(personas, turns, n), KnownAmong(personas, turns, n))
  {
    hide FirstKnown, EachOnce, KnownAmong;
    if n == 0 {
      NobodyFirst(personas, turns);
    } else {
      FirstKnownAre(personas, turns, n - 1);
      FirstKnownOneMore(personas, turns, n - 1);
      KnownOneMore(personas, turns, n - 1);
      OneMoreOnce(FirstKnown(personas, turns, n - 1), KnownAmong(personas, turns, n - 1), turns[n - 1].person);
    }
  }

  /** Each of them once. */
  ghost predicate EachOnce(list: seq<string>, all: set<string>) {
    |list| == |all| && forall p :: p in list <==> p in all
  }

  lemma OneMoreOnce(list: seq<string>, all: set<string>, p: string)
    requires EachOnce(list, all)
    ensures EachOnce(if p in list then list else list + [p], all + {p})
  {
    if p in list {
      assert all + {p} == all;
    }
  }

  lemma NobodyFirst(personas: seq<string>, turns: LeadTurns)
    ensures FirstKnown(personas, turns, 0) == [] && KnownAmong(personas, turns, 0) == {} && EachOnce([], {})
  {
    assert turns[..0] == [];
  }

  lemma {:induction false} FirstKnownGrow(personas: seq<string>, turns: LeadTurns, m: nat, n: nat)
    requires m <= n <= |turns|
    ensures FirstKnown(personas, turns, m) <= FirstKnown(personas, turns, n)
  {
    hide FirstKnown;
    if m < n {
      FirstKnownGrow(personas, turns, m, n - 1);
      FirstKnownOneMore(personas, turns, n - 1);
    }
  }

  /** Who is among the first is among the first in the list. */
  lemma FewBeforeMeansFirst(personas: seq<string>, turns: LeadTurns, person: string, max: nat, f: nat)
    requires person in personas && FewBefore(personas, turns, person, max, f)
    ensures person in Front(FirstKnown(personas, turns, |turns|), max)
  {
    hide FirstKnown, KnownAmong;
    var all := FirstKnown(personas, turns, |turns|);
    var before, next := FirstKnown(personas, turns, f), FirstKnown(personas, turns, f + 1);
    FirstKnownAre(personas, turns, f);
    FirstKnownOneMore(personas, turns, f);
    FirstKnownGrow(personas, turns, f + 1, |turns|);
    if person in before {
      EarlierFirst(personas, turns, person, max, f);
    } else {
      assert KnownAmong(personas, turns, f) - {person} == KnownAmong(personas, turns, f);
      assert next == before + [person] && next <= all && |before| < max;
      assert Front(all, max)[|before|] == next[|before|] == person;
    }
  }

  lemma EarlierFirst(personas: seq<string>, turns: LeadTurns, person: string, max: nat, f: nat)
    requires FewBefore(personas, turns, person, max, f) && person in FirstKnown(personas, turns, f)
    ensures person in Front(FirstKnown(personas, turns, |turns|), max)
  {
    hide FirstKnown;
    var all, before := FirstKnown(personas, turns, |turns|), FirstKnown(personas, turns, f);
    FirstKnownAre(personas, turns, f);
    FirstKnownGrow(personas, turns, f, |turns|);
    var known := KnownAmong(personas, turns, f);
    assert person in known && |known - {person}| == |known| - 1;
    var k :| 0 <= k < |before| && before[k] == person;
    assert |before| <= max && all[k] == person;
    assert Front(all, max)[k] == person;
  }

  /** Who is among the first in the list has a turn that few others come before. */
  lemma {:induction false} FirstMeansFewBefore(personas: seq<string>, turns: LeadTurns, person: string, max: nat, n: nat)
    requires n <= |turns| && person in Front(FirstKnown(personas, turns, n), max)
    ensures IsAmongFirst(personas, turns, person, max)
    decreases n
  {
    hide FirstKnown, KnownAmong;
    if n == 0 {
      NobodyFirst(personas, turns);
    } else {
      var before := FirstKnown(personas, turns, n - 1);
      FirstKnownOneMore(personas, turns, n - 1);
      FirstKnownAre(personas, turns, n - 1);
      if person in Front(before, max) {
        FirstMeansFewBefore(personas, turns, person, max, n - 1);
      } else {
        JustCame(before, turns[n - 1].person, person, max);
        assert KnownAmong(personas, turns, n - 1) - {person} == KnownAmong(personas, turns, n - 1);
        assert FewBefore(personas, turns, person, max, n - 1);
      }
    }
  }

  lemma JustCame(before: seq<string>, p: string, person: string, max: nat)
    requires person in Front(before + [p], max) && person !in Front(before, max)
    ensures p == person && |before| < max && person !in before
  {
    var k :| 0 <= k < |Front(before + [p], max)| && Front(before + [p], max)[k] == person;
    assert forall j :: 0 <= j < |Front(before, max)| ==> Front(before, max)[j] in Front(before, max) && Front(before, max)[j] == (before + [p])[j];
  }

  lemma {:induction false} KeptTwice(turns: LeadTurns, a: set<string>, b: set<string>)
    ensures OfPeople(OfPeople(turns, a), b) == OfPeople(turns, a * b)
  {
    if turns != [] {
      var front, t := turns[..|turns| - 1], turns[|turns| - 1];
      KeptTwice(front, a, b);
      if t.person in a {
        var kept := OfPeople(front, a);
        assert OfPeople(turns, a) == kept + [t];
        assert (kept + [t])[..|kept|] == kept;
      } else {
        assert OfPeople(turns, a) == OfPeople(front, a);
      }
    }
  }

  /** Over every list of turns: the goals that are offered to the plan are those of the turns of its
      people, in `change` mode of the first so many of them, in their order. */
  lemma LeadIs(personas: seq<string>, turns: LeadTurns, change: bool, maxPeople: nat) returns (at: seq<nat>)
    ensures StandAt(Lead(personas, turns, change, maxPeople), turns, at) && Increase(at)
    ensures forall t :: 0 <= t < |turns| ==>
      (t in at <==> if change then IsAmongFirst(personas, turns, turns[t].person, maxPeople) else turns[t].person in personas)
  {
    hide OfPeople, StandAt, IsAmongFirst, FirstKnown;
    var keep := if change then Known(personas) * FirstOf(personas, turns, maxPeople) else Known(personas);
    at := OfPeopleAt(turns, keep);
    LeadKeeps(personas, turns, change, maxPeople);
    assert forall i :: 0 <= i < |at| ==> PersonTest(keep)(turns[at[i]]);
    forall t | 0 <= t < |turns|
      ensures t in at <==> if change then IsAmongFirst(personas, turns, turns[t].person, maxPeople) else turns[t].person in personas
    {
      assert PersonTest(keep)(turns[t]) <==> turns[t].person in keep;
      FirstAreFew(personas, turns, turns[t].person, maxPeople);
    }
  }

  ghost function FirstOf(personas: seq<string>, turns: LeadTurns, max: nat): set<string> {
    set p | p in Front(FirstKnown(personas, turns, |turns|), max)
  }

  lemma LeadKeeps(personas: seq<string>, turns: LeadTurns, change: bool, max: nat)
    ensures Lead(personas, turns, change, max) ==
      OfPeople(turns, if change then Known(personas) * FirstOf(personas, turns, max) else Known(personas))
  {
    assert turns[..|turns|] == turns;
    KeptTwice(turns, Known(personas), FirstOf(personas, turns, max));
    assert FirstPeople(OfPeople(turns, Known(personas)), max) == FirstOf(personas, turns, max);
  }

  lemma FirstAreFew(personas: seq<string>, turns: LeadTurns, person: string, max: nat)
    ensures person in Known(personas) * FirstOf(personas, turns, max) <==> IsAmongFirst(personas, turns, person, max)
  {
    hide FirstKnown;
    if person in FirstOf(personas, turns, max) {
      FirstMeansFewBefore(personas, turns, person, max, |turns|);
    }
    if IsAmongFirst(personas, turns, person, max) {
      var f :| FewBefore(personas, turns, person, max, f);
      FewBeforeMeansFirst(personas, turns, person, max, f);
    }
  }
}
