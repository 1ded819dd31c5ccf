/** What the needs of the proposed goals do to the order of a plan: stated over the proposals that
    `planFrom` of `packages/core/src/setup.ts` keeps and the goals that it returns, whatever it builds
    in between. */
module PlanNeeds {
  import opened Lists
  import opened JsText
  import opened Options
  import opened PlayOrder
  import opened Setup
  import opened Turns
  import opened Planning
  import opened Proposals
  import opened GoalsPerPerson
  import opened Asked

  /** A goal that was kept: of which person, and which of theirs. */
  datatype Spot = Spot(person: nat, goal: nat)

  predicate IsSpot(people: seq<PersonProposal>, s: Spot) {
    s.person < |people| && s.goal < |GoalsKept(people[s.person])|
  }

  function KeptAt(people: seq<PersonProposal>, s: Spot): GoalProposal
    requires IsSpot(people, s)
  {
    GoalsKept(people[s.person])[s.goal]
  }

  /** How the needs of other goals name it. */
  function NameOf(people: seq<PersonProposal>, s: Spot): Ref
    requires IsSpot(people, s)
  {
    people[s.person].slug + "\0" + KeptAt(people, s).slug
  }

  /** `a` is an earlier goal of the same person, or one of another person that `b` needs. */
  predicate ComesFirst(people: seq<PersonProposal>, a: Spot, b: Spot) {
    && IsSpot(people, a) && IsSpot(people, b)
    && if a.person == b.person then a.goal < b.goal else NameOf(people, a) in KeptAt(people, b).needs
  }

  ghost predicate DistinctNames(people: seq<PersonProposal>) {
    forall a, b :: IsSpot(people, a) && IsSpot(people, b) && NameOf(people, a) == NameOf(people, b) ==> a == b
  }

  /** The goals of a round each have to come before the next. */
  ghost predicate IsRound(people: seq<PersonProposal>, round: seq<Spot>) {
    && |round| >= 2 && round[0] == round[|round| - 1]
    && forall k :: 0 < k < |round| ==> ComesFirst(people, round[k - 1], round[k])
  }

  ghost predicate NeedsGoRound(people: seq<PersonProposal>) {
    exists round :: IsRound(people, round)
  }

  /** Goal `y` of the plan is the person's goal number `s.goal`. */
  predicate IsPlace(goals: seq<PlanGoal>, ids: seq<string>, s: Spot, y: nat) {
    && s.person < |ids| && y < |goals| && goals[y].person == Some(ids[s.person])
    && |GoalsFor(goals[..y], ids[s.person])| == s.goal
  }

  /** Unless the needs go round, whatever has to come first does. */
  ghost predicate NeedsComeFirst(goals: seq<PlanGoal>, ids: seq<string>, people: seq<PersonProposal>) {
    forall a, b, x: nat, y: nat :: ComesFirst(people, a, b) && IsPlace(goals, ids, a, x) && IsPlace(goals, ids, b, y) ==> x < y
  }

  /** Every goal that was kept has a place, and ids of people and goals are made of their own slugs. */
  ghost predicate KeptHavePlaces(goals: seq<PlanGoal>, ids: seq<string>, people: seq<PersonProposal>) {
    && (forall k :: 0 <= k < |ids| && k < |people| ==> ids[k] == IdAfter(ids[..k], people[k].slug, "persona", k))
    && (forall s :: IsSpot(people, s) ==> exists y: nat :: IsPlace(goals, ids, s, y))
    && forall s, y: nat :: IsSpot(people, s) && IsPlace(goals, ids, s, y) ==>
         goals[y].id == IdAfter(Ids(goals)[..y], KeptAt(people, s).slug, "goal", y)
  }

  // ----- Spots and the goals that are built -----

  /** How many goals are kept of people. */
  ghost function Count(people: seq<PersonProposal>): nat {
    if people == [] then 0 else Count(people[..|people| - 1]) + |GoalsKept(people[|people| - 1])|
  }

  ghost function IndexOf(people: seq<PersonProposal>, s: Spot): nat
    requires s.person < |people|
  {
    Count(people[..s.person]) + s.goal
  }

  lemma CountOneMore(people: seq<PersonProposal>, n: nat)
    requires n < |people|
    ensures Count(people[..n + 1]) == Count(people[..n]) + |GoalsKept(people[n])|
  {
    assert people[..n + 1][..n] == people[..n];
  }

  /** The goal that is built for a spot. */
  ghost predicate IsBuilt(people: seq<PersonProposal>, ids: seq<string>, s: Spot, g: Goal)
    requires |ids| == |people| && IsSpot(people, s)
  {
    var kept := KeptAt(people, s);
    g == Goal(NameOf(people, s), ids[s.person], kept.needs, kept.slug, kept.instruction)
  }

  lemma {:induction false} OwnedLength(people: seq<PersonProposal>, ids: seq<string>)
    requires |ids| == |people|
    ensures |OwnedBy(people, ids)| == Count(people)
    decreases |people|
  {
    hide GoalsKept;
    if people != [] {
      OwnedLength(people[..|people| - 1], ids[..|people| - 1]);
    }
  }

  lemma {:induction false} CountsGrow(people: seq<PersonProposal>, m: nat, n: nat)
    requires m < n <= |people|
    ensures Count(people[..m]) + |GoalsKept(people[m])| <= Count(people[..n])
  {
    hide GoalsKept, Count;
    CountOneMore(people, n - 1);
    if m < n - 1 {
      CountsGrow(people, m, n - 1);
    }
  }

  lemma IndexInFront(people: seq<PersonProposal>, s: Spot)
    requires s.person < |people| - 1
    ensures IndexOf(people[..|people| - 1], s) == IndexOf(people, s)
  {
    assert people[..|people| - 1][..s.person] == people[..s.person];
  }

  lemma {:induction false} Built(people: seq<PersonProposal>, ids: seq<string>, s: Spot)
    requires |ids| == |people| && IsSpot(people, s)
    ensures IndexOf(people, s) < |OwnedBy(people, ids)|
    ensures IsBuilt(people, ids, s, OwnedBy(people, ids)[IndexOf(people, s)])
    decreases |people|
  {
    hide GoalsKept, IndexOf, Count;
    var n := |people| - 1;
    OwnedSplits(people, ids);
    if s.person < n {
      Built(people[..n], ids[..n], s);
      IndexInFront(people, s);
    } else {
      OwnedLength(people[..n], ids[..n]);
      LastIndex(people, s);
    }
  }

  lemma LastIndex(people: seq<PersonProposal>, s: Spot)
    requires s.person == |people| - 1
    ensures IndexOf(people, s) == Count(people[..|people| - 1]) + s.goal
  {
  }

  /** Every goal that is built is built for a spot. */
  lemma {:induction false} BuiltFor(people: seq<PersonProposal>, ids: seq<string>, p: nat) returns (s: Spot)
    requires |ids| == |people| && p < |OwnedBy(people, ids)|
    ensures IsSpot(people, s) && IndexOf(people, s) == p
    decreases |people|
  {
    hide GoalsKept, IndexOf, Count;
    var n := |people| - 1;
    OwnedLength(people[..n], ids[..n]);
    if p < |OwnedBy(people[..n], ids[..n])| {
      s := BuiltFor(people[..n], ids[..n], p);
      IndexInFront(people, s);
    } else {
      s := Spot(n, p - Count(people[..n]));
      LastIndex(people, s);
    }
  }

  lemma SameIndex(people: seq<PersonProposal>, a: Spot, b: Spot)
    requires IsSpot(people, a) && IsSpot(people, b)
    ensures IndexOf(people, a) == IndexOf(people, b) ==> a == b
    ensures a.person == b.person ==> (a.goal < b.goal <==> IndexOf(people, a) < IndexOf(people, b))
  {
    hide GoalsKept, Count;
    if a.person < b.person {
      CountsGrow(people, a.person, b.person);
    } else if b.person < a.person {
      CountsGrow(people, b.person, a.person);
    }
  }

  /** The relation among the goals that are built is the one among the proposals. */
  lemma PrecedesMeansFirst(people: seq<PersonProposal>, ids: seq<string>, a: Spot, b: Spot)
    requires |ids| == |people| && Distinct(ids) && IsSpot(people, a) && IsSpot(people, b)
    requires MustPrecede(OwnedBy(people, ids), IndexOf(people, a), IndexOf(people, b))
    ensures ComesFirst(people, a, b)
  {
    hide OwnedBy, GoalsKept, IndexOf;
    Built(people, ids, a);
    Built(people, ids, b);
    SameIndex(people, a, b);
  }

  lemma FirstMeansPrecedes(people: seq<PersonProposal>, ids: seq<string>, a: Spot, b: Spot)
    requires |ids| == |people| && Distinct(ids) && DistinctRefs(OwnedBy(people, ids)) && ComesFirst(people, a, b)
    ensures MustPrecede(OwnedBy(people, ids), IndexOf(people, a), IndexOf(people, b))
  {
    hide OwnedBy, GoalsKept, IndexOf;
    Built(people, ids, a);
    Built(people, ids, b);
    SameIndex(people, a, b);
    if a.person != b.person {
      RefIsFound(OwnedBy(people, ids), IndexOf(people, a));
    }
  }

  lemma RefIsFound(goals: seq<Goal>, i: nat)
    requires DistinctRefs(goals) && i < |goals|
    ensures ByRef(goals, goals[i].from) == Some(i)
  {
    var r := ByRef(goals, goals[i].from);
    if r.None? {
      assert false;
    }
  }

  lemma NamesAreRefs(people: seq<PersonProposal>, ids: seq<string>)
    requires |ids| == |people| && DistinctNames(people)
    ensures DistinctRefs(OwnedBy(people, ids))
  {
    hide OwnedBy, GoalsKept, IndexOf, NameOf;
    var owned := OwnedBy(people, ids);
    forall i, j | 0 <= i < j < |owned| ensures owned[i].from != owned[j].from {
      var a := BuiltFor(people, ids, i);
      var b := BuiltFor(people, ids, j);
      Built(people, ids, a);
      Built(people, ids, b);
    }
  }

  /** A cycle among the goals that are built is a round of needs. */
  lemma CycleMeansRound(people: seq<PersonProposal>, ids: seq<string>)
    requires |ids| == |people| && Distinct(ids) && Cyclic(OwnedBy(people, ids))
    ensures NeedsGoRound(people)
  {
    hide OwnedBy, GoalsKept, IndexOf, IsSpot;
    var owned := OwnedBy(people, ids);
    var c :| IsCycle(owned, c);
    var round := SpotsOf(people, ids, c, |c|);
    forall k | 0 < k < |round| ensures ComesFirst(people, round[k - 1], round[k]) {
      assert Edge(owned, c, k - 1);
      PrecedesMeansFirst(people, ids, round[k - 1], round[k]);
    }
    SameIndex(people, round[0], round[|c| - 1]);
    assert IsRound(people, round);
  }

  lemma {:induction false} SpotsOf(people: seq<PersonProposal>, ids: seq<string>, c: seq<nat>, n: nat) returns (r: seq<Spot>)
    requires |ids| == |people| && IsCycle(OwnedBy(people, ids), c) && n <= |c|
    ensures |r| == n && forall k :: 0 <= k < n ==> IsSpot(people, r[k]) && IndexOf(people, r[k]) == c[k]
  {
    hide OwnedBy, GoalsKept, IndexOf, IsSpot;
    r := [];
    if n > 0 {
      r := SpotsOf(people, ids, c, n - 1);
      assert n < |c| ==> Edge(OwnedBy(people, ids), c, n - 1);
      assert n == |c| ==> Edge(OwnedBy(people, ids), c, n - 2);
      var s := BuiltFor(people, ids, c[n - 1]);
      r := r + [s];
    }
  }

  // ----- Places in the plan -----

  /** Goal `i` of the plan belongs to whom the goal at `order[i]` belongs. */
  ghost predicate OwnersFollow(goals: seq<PlanGoal>, owned: seq<Goal>, order: seq<nat>) {
    && |goals| == |order| && AllBelow(order, |owned|)
    && forall i :: 0 <= i < |goals| ==> goals[i].person == Some(owned[order[i]].person)
  }

  lemma {:induction false} CountFollows(goals: seq<PlanGoal>, owned: seq<Goal>, order: seq<nat>, person: string)
    requires OwnersFollow(goals, owned, order)
    ensures |GoalsFor(goals, person)| == |Filter(owned, order, person, true)|
    decreases |goals|
  {
    hide Filter, GoalsFor;
    if goals != [] {
      CountFollows(goals[..|goals| - 1], owned, order[..|order| - 1], person);
      FilterOneMore(owned, order, person);
      CountOneGoal(goals, person);
    } else {
      NothingCounts(owned, order, goals, person);
    }
  }

  lemma CountOneGoal(goals: seq<PlanGoal>, person: string)
    requires goals != [] && goals[|goals| - 1].person.Some?
    ensures |GoalsFor(goals, person)| == |GoalsFor(goals[..|goals| - 1], person)| + if goals[|goals| - 1].person == Some(person) then 1 else 0
  {
  }

  lemma NothingCounts(owned: seq<Goal>, order: seq<nat>, goals: seq<PlanGoal>, person: string)
    requires goals == [] && order == []
    ensures GoalsFor(goals, person) == [] && Filter(owned, order, person, true) == []
  {
  }

  ghost predicate Follows(goals: seq<PlanGoal>, people: seq<PersonProposal>, ids: seq<string>, order: seq<nat>) {
    && |ids| == |people| && Distinct(ids)
    && IsPermutation(order, |OwnedBy(people, ids)|) && KeepsPersons(OwnedBy(people, ids), order)
    && OwnersFollow(goals, OwnedBy(people, ids), order)
  }

  /** What a person plays before their goal number `s.goal`: their goals before that one. */
  lemma TheirsBefore(goals: seq<PlanGoal>, people: seq<PersonProposal>, ids: seq<string>, order: seq<nat>, s: Spot, y: nat, x: nat)
    requires Follows(goals, people, ids, order) && IsSpot(people, s) && y < |order| && order[y] == IndexOf(people, s)
    ensures x in Filter(OwnedBy(people, ids), order[..y], ids[s.person], true) ==> Count(people[..s.person]) <= x < IndexOf(people, s)
  {
    hide OwnedBy, GoalsKept, IsPermutation, Count, KeepsPersons;
    var owned := OwnedBy(people, ids);
    if x in Filter(owned, order[..y], ids[s.person], true) {
      var z :| 0 <= z < y && order[z] == x;
      Built(people, ids, s);
      PersonsInOrder(owned, order, z, y);
      var t := BuiltFor(people, ids, x);
      Built(people, ids, t);
    }
  }

  lemma BeforeIsTheirs(goals: seq<PlanGoal>, people: seq<PersonProposal>, ids: seq<string>, order: seq<nat>, s: Spot, y: nat, x: nat)
    requires Follows(goals, people, ids, order) && IsSpot(people, s) && y < |order| && order[y] == IndexOf(people, s)
    requires Count(people[..s.person]) <= x < IndexOf(people, s)
    ensures x in Filter(OwnedBy(people, ids), order[..y], ids[s.person], true)
  {
    hide OwnedBy, GoalsKept, IsPermutation, Count, OwnersFollow, NameOf;
    Built(people, ids, s);
    assert x in order[..y] by {
      Built(people, ids, Spot(s.person, x - Count(people[..s.person])));
    }
    Built(people, ids, Spot(s.person, x - Count(people[..s.person])));
  }

  lemma PlaceOf(goals: seq<PlanGoal>, people: seq<PersonProposal>, ids: seq<string>, order: seq<nat>, s: Spot, y: nat)
    requires Follows(goals, people, ids, order) && IsSpot(people, s) && y < |order| && order[y] == IndexOf(people, s)
    ensures IsPlace(goals, ids, s, y)
  {
    hide OwnedBy, GoalsKept, Filter, Count;
    var owned, id := OwnedBy(people, ids), ids[s.person];
    var mine := Filter(owned, order[..y], id, true);
    var first := Count(people[..s.person]);
    var run := seq(s.goal, t requires 0 <= t < s.goal => first + t);
    KeptOrderIncreases(owned, order, id, y);
    forall x: nat ensures x in mine <==> x in run {
      TheirsBefore(goals, people, ids, order, s, y, x);
      if first <= x < first + s.goal {
        BeforeIsTheirs(goals, people, ids, order, s, y, x);
        assert run[x - first] == x;
      }
    }
    IncreasingIsUnique(mine, run);
    CountFollows(goals[..y], owned, order[..y], id);
    Built(people, ids, s);
  }

  lemma PlaceIs(goals: seq<PlanGoal>, people: seq<PersonProposal>, ids: seq<string>, order: seq<nat>, s: Spot, y: nat)
    requires Follows(goals, people, ids, order) && IsPlace(goals, ids, s, y)
    ensures IsSpot(people, s) && order[y] == IndexOf(people, s)
  {
    hide OwnedBy, GoalsKept, IndexOf, IsSpot;
    var t := BuiltFor(people, ids, order[y]);
    Built(people, ids, t);
    PlaceOf(goals, people, ids, order, t, y);
    assert t == s;
  }

  lemma KeptHavePlacesIn(goals: seq<PlanGoal>, people: seq<PersonProposal>, ids: seq<string>, order: seq<nat>)
    requires Follows(goals, people, ids, order) && NamedAfter(Ids(goals), Slugs(Permuted(OwnedBy(people, ids), order)), "goal")
    requires NamedAfter(ids, PersonSlugs(people), "persona")
    ensures KeptHavePlaces(goals, ids, people)
  {
    hide OwnedBy, GoalsKept, IndexOf, IdAfter;
    forall s | IsSpot(people, s) ensures exists y: nat :: IsPlace(goals, ids, s, y) {
      Built(people, ids, s);
      PermutationHasAll(order, |OwnedBy(people, ids)|, IndexOf(people, s));
      var y :| 0 <= y < |order| && order[y] == IndexOf(people, s);
      PlaceOf(goals, people, ids, order, s, y);
    }
    forall s, y: nat | IsSpot(people, s) && IsPlace(goals, ids, s, y)
      ensures goals[y].id == IdAfter(Ids(goals)[..y], KeptAt(people, s).slug, "goal", y)
    {
      PlaceIs(goals, people, ids, order, s, y);
      Built(people, ids, s);
      assert Ids(goals)[y] == goals[y].id;
    }
  }

  /** Unless the needs go round, an order that respects the goals that are built lets whatever has to
      come first come first. */
  lemma NeedsComeFirstIn(goals: seq<PlanGoal>, people: seq<PersonProposal>, ids: seq<string>, order: seq<nat>)
    requires Follows(goals, people, ids, order) && DistinctNames(people)
    requires Respects(OwnedBy(people, ids), order)
    ensures NeedsComeFirst(goals, ids, people)
  {
    hide OwnedBy, GoalsKept, IndexOf, KeepsPersons, MustPrecede, GoalsFor, NameOf, DistinctNames;
    NamesAreRefs(people, ids);
    forall a, b, x: nat, y: nat | ComesFirst(people, a, b) && IsPlace(goals, ids, a, x) && IsPlace(goals, ids, b, y) ensures x < y {
      PlaceIs(goals, people, ids, order, a, x);
      PlaceIs(goals, people, ids, order, b, y);
      FirstMeansPrecedes(people, ids, a, b);
      var z :| 0 <= z < y && order[z] == order[x];
    }
  }

  // ----- A proposed order that can be played -----

  /** All goals that were kept, once each, with whatever has to come first in front. */
  ghost predicate IsSchedule(people: seq<PersonProposal>, q: seq<Spot>) {
    && Distinct(q) && (forall s :: s in q <==> IsSpot(people, s))
    && forall x, y :: 0 <= x < y < |q| ==> !ComesFirst(people, q[y], q[x])
  }

  ghost predicate Names(people: seq<PersonProposal>, playOrder: seq<Ref>, q: seq<Spot>) {
    |playOrder| == |q| && forall k :: 0 <= k < |q| ==> IsSpot(people, q[k]) && playOrder[k] == NameOf(people, q[k])
  }

  /** When the play order names all goals in an order that can be played, the plan has that order. */
  ghost predicate ScheduleIsPlayed(goals: seq<PlanGoal>, ids: seq<string>, people: seq<PersonProposal>, playOrder: seq<Ref>) {
    forall q :: IsSchedule(people, q) && Names(people, playOrder, q) ==> forall k :: 0 <= k < |q| ==> IsPlace(goals, ids, q[k], k)
  }

  ghost function Indices(people: seq<PersonProposal>, q: seq<Spot>): seq<nat>
    requires forall k :: 0 <= k < |q| ==> IsSpot(people, q[k])
  {
    seq(|q|, k requires 0 <= k < |q| && IsSpot(people, q[k]) => IndexOf(people, q[k]))
  }

  lemma IndicesPermute(people: seq<PersonProposal>, ids: seq<string>, q: seq<Spot>)
    requires |ids| == |people| && IsSchedule(people, q)
    ensures IsPermutation(Indices(people, q), |OwnedBy(people, ids)|)
  {
    hide OwnedBy, GoalsKept, IndexOf, ComesFirst;
    var all, n := Indices(people, q), |OwnedBy(people, ids)|;
    forall i | 0 <= i < |all| ensures all[i] < n {
      assert q[i] in q;
      Built(people, ids, q[i]);
    }
    forall i, j | 0 <= i < j < |all| ensures all[i] != all[j] {
      assert q[i] in q && q[j] in q;
      SameIndex(people, q[i], q[j]);
    }
    forall x: nat | x < n ensures x in Placed(all) {
      var s := BuiltFor(people, ids, x);
      var k :| 0 <= k < |q| && q[k] == s;
      assert all[k] == x;
    }
    assert Placed(all) == Below(n);
    DistinctCount(all);
  }

  lemma ScheduleRespects(people: seq<PersonProposal>, ids: seq<string>, q: seq<Spot>)
    requires |ids| == |people| && Distinct(ids) && IsSchedule(people, q)
    ensures Respects(OwnedBy(people, ids), Indices(people, q))
  {
    hide OwnedBy, GoalsKept, IndexOf;
    var owned, all := OwnedBy(people, ids), Indices(people, q);
    forall y, a: nat | 0 <= y < |all| && MustPrecede(owned, a, all[y]) ensures a in all[..y] {
      assert q[y] in q;
      var s := BuiltFor(people, ids, a);
      PrecedesMeansFirst(people, ids, s, q[y]);
      var z :| 0 <= z < |q| && q[z] == s;
      assert all[z] == a;
    }
  }

  lemma RespectsKeepsPersons(goals: seq<Goal>, order: seq<nat>)
    requires Respects(goals, order)
    ensures KeepsPersons(goals, order)
  {
    forall y, a: nat | 0 <= y < |order| && order[y] < |goals| && a < order[y] && goals[a].person == goals[order[y]].person
      ensures a in order[..y]
    {
      assert MustPrecede(goals, a, order[y]);
    }
  }

  lemma ScheduleIsPlayedIn(goals: seq<PlanGoal>, people: seq<PersonProposal>, ids: seq<string>, playOrder: seq<Ref>, order: seq<nat>)
    requires Follows(goals, people, ids, order) && DistinctNames(people) && IsArrangement(OwnedBy(people, ids), playOrder, order)
    ensures ScheduleIsPlayed(goals, ids, people, playOrder)
  {
    hide OwnedBy, GoalsKept, IndexOf, IsArrangement, IsPlace, Respects, KeepsPersons, DistinctNames, OwnersFollow, NameOf;
    NamesAreRefs(people, ids);
    forall q | IsSchedule(people, q) && Names(people, playOrder, q) ensures forall k :: 0 <= k < |q| ==> IsPlace(goals, ids, q[k], k) {
      var all := Indices(people, q);
      IndicesPermute(people, ids, q);
      ScheduleRespects(people, ids, q);
      RespectsKeepsPersons(OwnedBy(people, ids), all);
      SchedulePlays(people, ids, playOrder, q, order);
      forall k | 0 <= k < |q| ensures IsPlace(goals, ids, q[k], k) {
        assert q[k] in q;
        PlaceOf(goals, people, ids, order, q[k], k);
      }
    }
  }

  lemma SchedulePlays(people: seq<PersonProposal>, ids: seq<string>, playOrder: seq<Ref>, q: seq<Spot>, order: seq<nat>)
    requires |ids| == |people| && IsSchedule(people, q) && Names(people, playOrder, q) && DistinctRefs(OwnedBy(people, ids))
    requires IsPermutation(Indices(people, q), |OwnedBy(people, ids)|) && IsArrangement(OwnedBy(people, ids), playOrder, order)
    requires Respects(OwnedBy(people, ids), Indices(people, q)) && KeepsPersons(OwnedBy(people, ids), Indices(people, q))
    ensures order == Indices(people, q)
  {
    hide OwnedBy, GoalsKept, IndexOf, IsArrangement, Respects, KeepsPersons, NameOf, ComesFirst;
    forall k | 0 <= k < |q| ensures playOrder[k] == OwnedBy(people, ids)[Indices(people, q)[k]].from {
      assert q[k] in q;
      Built(people, ids, q[k]);
    }
    ProposedOrderPlays(OwnedBy(people, ids), playOrder, Indices(people, q), order);
  }
}
