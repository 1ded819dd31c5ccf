/** What `planFrom` of `packages/core/src/setup.ts` keeps of the people and goals that the model
    proposes. */
module Proposals {
  import opened Lists
  import opened JsText
  import opened PlayOrder

  /** How many people, and goals of each, are kept of a proposal: fewer than a plan may have. */
  const MAX_PEOPLE_KEPT := 4
  const MAX_GOALS_KEPT := 4

  /** `slug` is the proposed id after `slug`; `needs` are references. */
  datatype GoalProposal = GoalProposal(slug: string, instruction: Text, needs: seq<Ref>)
  datatype PersonProposal = PersonProposal(slug: string, name: Text, brief: Text, goals: seq<GoalProposal>)

  // ----- What is kept of a proposal -----

  predicate HasText(t: Text) {
    Trim(t) != []
  }

  predicate GoalHasText(g: GoalProposal) {
    HasText(g.instruction)
  }

  predicate Usable(p: PersonProposal) {
    HasText(p.name) && HasText(p.brief) && exists g :: g in p.goals && HasText(g.instruction)
  }

  function GoalsKept(p: PersonProposal): (r: seq<GoalProposal>)
    ensures |r| <= MAX_GOALS_KEPT && (Usable(p) ==> r != [])
    ensures forall g :: g in r ==> g in p.goals && HasText(g.instruction)
  {
    var withText := Chosen(p.goals, GoalHasText);
    assert Usable(p) ==> withText != [] by {
      if Usable(p) {
        var g :| g in p.goals && HasText(g.instruction);
        assert GoalHasText(g) && g in withText;
      }
    }
    FrontIsIn(withText, MAX_GOALS_KEPT);
    Front(withText, MAX_GOALS_KEPT)
  }

  function PeopleKept(proposed: seq<PersonProposal>): (r: seq<PersonProposal>)
    ensures |r| <= MAX_PEOPLE_KEPT && forall p :: p in r ==> p in proposed && Usable(p)
    ensures r == [] <==> forall p :: p in proposed ==> !Usable(p)
  {
    var usable := Chosen(proposed, Usable);
    assert usable != [] ==> usable[0] in usable;
    FrontIsIn(usable, MAX_PEOPLE_KEPT);
    Front(usable, MAX_PEOPLE_KEPT)
  }

  function PersonSlugs(people: seq<PersonProposal>): seq<string> {
    seq(|people|, i requires 0 <= i < |people| => people[i].slug)
  }

  /** A person's goals, each with a reference made of both slugs. */
  function GoalsOf(p: PersonProposal, id: string): (r: seq<Goal>)
  {
    var kept := GoalsKept(p);
    seq(|kept|, i requires 0 <= i < |kept| => Goal(p.slug + "\0" + kept[i].slug, id, kept[i].needs, kept[i].slug, kept[i].instruction))
  }

  function OwnedBy(people: seq<PersonProposal>, ids: seq<string>): seq<Goal>
    requires |ids| == |people|
  {
    if people == [] then []
    else
      var n := |people| - 1;
      OwnedBy(people[..n], ids[..n]) + GoalsOf(people[n], ids[n])
  }

  /** Goals with text, and usable people, are kept first come first served: what is kept is at increasing
      places, and whatever else could be kept comes after four of them. */
  lemma FirstGoalsKept(p: PersonProposal) returns (at: seq<nat>)
    ensures AreFirst(p.goals, GoalHasText, MAX_GOALS_KEPT, GoalsKept(p), at)
  {
    at := FirstOfChosen(p.goals, GoalHasText, MAX_GOALS_KEPT);
  }

  lemma FirstPeopleKept(proposed: seq<PersonProposal>) returns (at: seq<nat>)
    ensures AreFirst(proposed, Usable, MAX_PEOPLE_KEPT, PeopleKept(proposed), at)
  {
    at := FirstOfChosen(proposed, Usable, MAX_PEOPLE_KEPT);
  }
}
