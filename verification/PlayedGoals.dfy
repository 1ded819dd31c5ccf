/** `playedGoals` of `apps/control-plane/src/runs/pr-plan.ts`: the goals of a plan as its people play
    them, each under an id of its own as far as the code takes care of that. */
module PlayedGoals {
  import opened Lists
  import opened Options
  import opened JsText
  import opened Turns
  import opened LeadPlan
  import opened LeadStore

  /** The id for a goal that has been played before. */
  function PersonsId(goal: string, person: string): string {
    Front(goal + "-" + person, MAX_ID)
  }

  function PlayedId(played: seq<(string, string)>, g: (string, string)): string {
    if HasId(played, g.1) then PersonsId(g.1, g.0) else g.1
  }

  /** Persons and ids, from the goals of all turns in order. */
  function Played(flat: seq<(string, string)>): (r: seq<(string, string)>)
    ensures |r| == |flat|
  {
    if flat == [] then []
    else
      var front, g := Played(flat[..|flat| - 1]), flat[|flat| - 1];
      front + [(g.0, PlayedId(front, g))]
  }

  /** The loop over the turns' goals with the ids it has seen. */
  method PlayTurns(turns: seq<Turn<string>>) returns (played: seq<(string, string)>)
    ensures played == Played(Flat(turns)) && |played| == |Flat(turns)|
    ensures forall k :: 0 <= k < |played| ==> IsPlayed(played[..k], Flat(turns)[k], played[k])
  {
    hide Played, HasId, PersonsId, Flat, IsPlayed;
    var flat := Flat(turns);
    var seen: set<string> := {};
    played := [];
    NothingPlayed(flat);
    while |played| < |flat|
      invariant |played| <= |flat| && played == Played(flat[..|played|])
      invariant forall id :: id in seen <==> HasId(played, id)
    {
      var g := flat[|played|];
      var id := g.1;
      if id in seen {
        id := PersonsId(id, g.0);
      }
      PlayedOneMore(flat, |played|);
      OneMorePlayed(played, (g.0, id));
      seen := seen + {id};
      played := played + [(g.0, id)];
    }
    assert flat[..|played|] == flat;
    PlayedAre(flat);
  }

  /** A goal keeps its id unless that has been used; then the id is made of goal and person and cut. */
  ghost predicate IsPlayed(before: seq<(string, string)>, g: (string, string), played: (string, string)) {
    && played.0 == g.0
    && if exists p :: p in before && p.1 == g.1
       then var made := g.1 + "-" + g.0; played.1 == if |made| > 60 then made[..60] else made
       else played.1 == g.1
  }

  lemma {:induction false} PlayedAre(flat: seq<(string, string)>)
    ensures forall k :: 0 <= k < |flat| ==> IsPlayed(Played(flat)[..k], flat[k], Played(flat)[k])
  {
    if flat != [] {
      hide IsPlayed, PlayedId;
      var n := |flat| - 1;
      PlayedAre(flat[..n]);
      assert Played(flat)[..n] == Played(flat[..n]);
      assert forall k :: 0 <= k < n ==> Played(flat)[..k] == Played(flat[..n])[..k] && flat[..n][k] == flat[k];
      LastPlayed(Played(flat[..n]), flat[n]);
    }
  }

  lemma LastPlayed(before: seq<(string, string)>, g: (string, string))
    ensures IsPlayed(before, g, (g.0, PlayedId(before, g)))
  {
  }

  /** Each person's turn when some goal is shared. */
  function SharedTurns(personas: seq<string>, goals: seq<PlanGoal>): seq<Turn<string>> {
    seq(|personas|, i requires 0 <= i < |personas| => Turn(personas[i], Ids(GoalsFor(goals, personas[i]))))
  }

  /** A plan whose goals all have owners and distinct ids is played as it is. */
  method PlayedGoals(personas: seq<string>, goals: seq<PlanGoal>) returns (played: seq<(string, string)>)
    ensures AllOwned(goals) && Distinct(Ids(goals)) ==> played == Owners(goals)
    ensures AllOwned(goals) ==> played == Played(Owners(goals))
    ensures !AllOwned(goals) ==> played == Played(Flat(SharedTurns(personas, goals)))
  {
    hide IsPlayed, Played, Flat;
    var turns := TurnsOf(personas, goals);
    played := PlayTurns(turns);
    if AllOwned(goals) {
      assert Distinct(Ids(goals)) ==> OwnIds(Owners(goals)) by {
        assert forall i :: 0 <= i < |goals| ==> Owners(goals)[i].1 == Ids(goals)[i];
      }
      if OwnIds(Owners(goals)) {
        OwnedPlayTheSame(Owners(goals));
      }
    } else {
      assert turns == SharedTurns(personas, goals);
    }
  }

  lemma NothingPlayed(flat: seq<(string, string)>)
    ensures Played(flat[..0]) == [] && forall id :: !HasId([], id)
  {
  }

  lemma PlayedOneMore(flat: seq<(string, string)>, k: nat)
    requires k < |flat|
    ensures var front := Played(flat[..k]); Played(flat[..k + 1]) == front + [(flat[k].0, PlayedId(front, flat[k]))]
  {
    assert flat[..k + 1][..k] == flat[..k];
  }

  lemma OneMorePlayed(played: seq<(string, string)>, g: (string, string))
    ensures forall id :: HasId(played + [g], id) <==> HasId(played, id) || id == g.1
  {
    assert g in played + [g];
    assert forall p :: p in played ==> p in played + [g];
  }

  /** The goal repeats, and so does the id that is made up for it. */
  predicate Collides(before: seq<(string, string)>, g: (string, string)) {
    HasId(before, g.1) && HasId(before, PersonsId(g.1, g.0))
  }

  ghost predicate NoneCollides(flat: seq<(string, string)>) {
    forall k :: 0 <= k < |flat| ==> !Collides(Played(flat[..k]), flat[k])
  }

  lemma NoneMoreCollides(front: seq<(string, string)>, g: (string, string))
    ensures NoneCollides(front + [g]) <==> NoneCollides(front) && !Collides(Played(front), g)
  {
    hide Collides, Played;
    var flat := front + [g];
    assert forall k :: 0 <= k < |front| ==> front[..k] == flat[..k] && front[k] == flat[k];
    assert flat[..|front|] == front && flat[|front|] == g;
  }

  /** Ids are distinct exactly when no made-up one has been used before. */
  lemma {:induction false} OwnIdsExactly(flat: seq<(string, string)>)
    ensures OwnIds(Played(flat)) <==> NoneCollides(flat)
  {
    if flat != [] {
      hide HasId, PersonsId, OwnIds, NoneCollides;
      var front, g := flat[..|flat| - 1], flat[|flat| - 1];
      assert flat == front + [g];
      OwnIdsExactly(front);
      NoneMoreCollides(front, g);
      OneMoreOwn(Played(front), (g.0, PlayedId(Played(front), g)));
    }
  }

  lemma OneMoreOwn(played: seq<(string, string)>, g: (string, string))
    ensures OwnIds(played + [g]) <==> OwnIds(played) && !HasId(played, g.1)
  {
    var more := played + [g];
    assert forall i :: 0 <= i < |played| ==> more[i] == played[i] && played[i] in played;
    assert more[|played|] == g;
  }

  /** Goals with ids of their own keep them. */
  lemma {:induction false} OwnedPlayTheSame(flat: seq<(string, string)>)
    requires OwnIds(flat)
    ensures Played(flat) == flat
  {
    if flat != [] {
      var front, g := flat[..|flat| - 1], flat[|flat| - 1];
      assert flat == front + [g];
      OneMoreOwn(front, g);
      OwnedPlayTheSame(front);
    }
  }

  lemma {:induction false} SameCount(flat: seq<(string, string)>, p: string)
    ensures CountFor(p, Played(flat)) == CountFor(p, flat)
  {
    if flat != [] {
      SameCount(flat[..|flat| - 1], p);
    }
  }

  lemma SamePeoplePlay(flat: seq<(string, string)>)
    ensures FewEach(Played(flat)) <==> FewEach(flat)
  {
    hide Played, CountFor;
    forall p ensures CountFor(p, Played(flat)) == CountFor(p, flat) {
      SameCount(flat, p);
    }
  }

  /** A plan with the lead's goals beside its own is within the limits exactly when its own goals
      were and none of their ids was made up twice. */
  lemma MergedWithinLimitsExactly(flat: seq<(string, string)>, offered: seq<Pair>)
    ensures WithinLimits(Played(flat) + Entries(Admitted(Played(flat), offered))) <==>
      NoneCollides(flat) && FewEach(flat) && |flat| <= MAX_GOALS
  {
    hide OwnIds, FewEach, NoneCollides, Admitted;
    MergingKeepsLimits(Played(flat), offered);
    OwnIdsExactly(flat);
    SamePeoplePlay(flat);
  }

  lemma PlayedNext(front: seq<(string, string)>, g: (string, string))
    ensures Played(front + [g]) == Played(front) + [(g.0, PlayedId(Played(front), g))]
  {
    assert (front + [g])[..|front|] == front;
  }

  /** Two people who share the goals `a` and `a-bob`: the id made up for the first is that of the
      second. */
  lemma SameIdTwice()
    ensures Played([("alice", "a"), ("alice", "a-bob")] + [("bob", "a")])
      == [("alice", "a"), ("alice", "a-bob"), ("bob", "a-bob")]
  {
    var a, b, c := ("alice", "a"), ("alice", "a-bob"), ("bob", "a");
    assert PersonsId("a", "bob") == "a-bob";
    hide PersonsId;
    OwnedPlayTheSame([a, b]);
    assert a in [a, b];
    PlayedNext([a, b], c);
  }
}
