/** `inPlayOrder` of `packages/core/src/setup.ts`: a proposed playing order moves goals up, each with
    the earlier goals of the same person. */
module Setup {
  import opened Lists
  import opened PlayOrder

  // ----- `inPlayOrder` -----

  /** Each person's goals come in the order in which they were proposed. */
  ghost predicate KeepsPersons(goals: seq<Goal>, order: seq<nat>) {
    forall y, a: nat :: 0 <= y < |order| && order[y] < |goals| && a < order[y] && goals[a].person == goals[order[y]].person
      ==> a in order[..y]
  }

  ghost predicate Increasing(s: seq<nat>) {
    forall i, j :: 0 <= i < j < |s| ==> s[i] < s[j]
  }

  ghost predicate AllBelow(s: seq<nat>, n: nat) {
    forall i :: 0 <= i < |s| ==> s[i] < n
  }

  /** `s.filter((g) => g.personaId === person)`, or the opposite. */
  function Filter(goals: seq<Goal>, s: seq<nat>, person: string, own: bool): (r: seq<nat>)
    requires AllBelow(s, |goals|)
    ensures forall i :: i in r <==> i in s && (goals[i].person == person) == own
    ensures AllBelow(r, |goals|)
    ensures Increasing(s) ==> Increasing(r)
  {
    if s == [] then []
    else
      assert s == s[..|s| - 1] + [s[|s| - 1]];
      var front := Filter(goals, s[..|s| - 1], person, own);
      assert Increasing(s) ==> forall j :: 0 <= j < |front| ==> front[j] < s[|s| - 1] by {
        assert forall j :: 0 <= j < |front| ==> front[j] in front;
      }
      if (goals[s[|s| - 1]].person == person) == own then front + [s[|s| - 1]] else front
  }

  lemma FilterOneMore(goals: seq<Goal>, order: seq<nat>, person: string)
    requires order != [] && AllBelow(order, |goals|)
    ensures var n := |order| - 1;
      Filter(goals, order, person, true) == Filter(goals, order[..n], person, true) + if goals[order[n]].person == person then [order[n]] else []
  {
  }

  lemma FilterSplits(goals: seq<Goal>, s: seq<nat>, person: string)
    requires AllBelow(s, |goals|)
    ensures multiset(Filter(goals, s, person, true)) + multiset(Filter(goals, s, person, false)) == multiset(s)
  {
    if s != [] {
      assert s == s[..|s| - 1] + [s[|s| - 1]];
      FilterSplits(goals, s[..|s| - 1], person);
    }
  }

  /** `left.findIndex((g) => g.from === ref)`, `|left|` when there is none. */
  function FindRef(goals: seq<Goal>, left: seq<nat>, ref: Ref): (i: nat)
    requires AllBelow(left, |goals|)
    ensures i <= |left| && (i < |left| ==> goals[left[i]].from == ref)
    ensures forall j :: 0 <= j < i ==> goals[left[j]].from != ref
  {
    if left == [] || goals[left[0]].from == ref then 0 else 1 + FindRef(goals, left[1..], ref)
  }

  /** What `inPlayOrder` holds while it runs: the goals it has ordered and those left. */
  datatype Split = Split(ordered: seq<nat>, left: seq<nat>)

  /** One step of the play order: the named goal moves up, with the person's earlier ones. */
  function MoveUp(goals: seq<Goal>, st: Split, ref: Ref): (r: Split)
    requires AllBelow(st.left, |goals|)
  {
    var i := FindRef(goals, st.left, ref);
    if i == |st.left| then st
    else
      var person := goals[st.left[i]].person;
      var others := Filter(goals, st.left[..i + 1], person, false);
      Split(st.ordered + Filter(goals, st.left[..i + 1], person, true), others + st.left[i + 1..])
  }

  function Moves(goals: seq<Goal>, playOrder: seq<Ref>): (r: Split)
    ensures AllBelow(r.left, |goals|)
  {
    if playOrder == [] then Split([], Identity(|goals|))
    else MoveUp(goals, Moves(goals, playOrder[..|playOrder| - 1]), playOrder[|playOrder| - 1])
  }

  /** The goals that moved up, then those left. */
  function Played(goals: seq<Goal>, playOrder: seq<Ref>): (r: seq<nat>)
    ensures IsPermutation(r, |goals|)
  {
    MovesSplit(goals, playOrder);
    Reassembled(goals, Moves(goals, playOrder).ordered, Moves(goals, playOrder).left);
    Moves(goals, playOrder).ordered + Moves(goals, playOrder).left
  }

  method InPlayOrder(goals: seq<Goal>, playOrder: seq<Ref>) returns (order: seq<nat>)
    ensures order == Played(goals, playOrder)
    ensures IsPermutation(order, |goals|) && KeepsPersons(goals, order)
  {
    var st := Split([], Identity(|goals|));
    var k := 0;
    while k < |playOrder|
      invariant 0 <= k <= |playOrder|
      invariant st == Moves(goals, playOrder[..k])
    {
      assert playOrder[..k + 1][..k] == playOrder[..k];
      st := MoveUp(goals, st, playOrder[k]);
      k := k + 1;
    }
    assert playOrder[..k] == playOrder;
    MovesSplit(goals, playOrder);
    Reassembled(goals, st.ordered, st.left);
    order := st.ordered + st.left;
  }

  ghost predicate Splits(goals: seq<Goal>, ordered: seq<nat>, left: seq<nat>) {
    && multiset(ordered + left) == multiset(Identity(|goals|))
    && AllBelow(ordered, |goals|) && AllBelow(left, |goals|)
    && Increasing(left) && KeepsPersons(goals, ordered)
  }

  lemma {:induction false} MovesSplit(goals: seq<Goal>, playOrder: seq<Ref>)
    ensures Splits(goals, Moves(goals, playOrder).ordered, Moves(goals, playOrder).left)
  {
    if playOrder == [] {
      assert [] + Identity(|goals|) == Identity(|goals|);
    } else {
      var front := playOrder[..|playOrder| - 1];
      MovesSplit(goals, front);
      MoveUpSplits(goals, Moves(goals, front), playOrder[|playOrder| - 1]);
    }
  }

  lemma SplitIsBelow(goals: seq<Goal>, st: Split)
    requires Splits(goals, st.ordered, st.left)
    ensures AllBelow(st.left, |goals|)
  {
  }

  lemma MoveUpSplits(goals: seq<Goal>, st: Split, ref: Ref)
    requires Splits(goals, st.ordered, st.left)
    ensures var r := MoveUp(goals, st, ref); Splits(goals, r.ordered, r.left)
  {
    hide Filter, Splits;
    SplitIsBelow(goals, st);
    var i := FindRef(goals, st.left, ref);
    if i < |st.left| {
      TakeEarlier(goals, st.ordered, st.left, i);
    }
  }

  /** The play order names every goal once, in an order that keeps each person's goals. */
  ghost predicate Proposes(goals: seq<Goal>, playOrder: seq<Ref>, q: seq<nat>) {
    && IsPermutation(q, |goals|) && KeepsPersons(goals, q)
    && |playOrder| == |goals| && (forall k :: 0 <= k < |q| ==> playOrder[k] == goals[q[k]].from)
    && DistinctRefs(goals)
  }

  ghost predicate DistinctRefs(goals: seq<Goal>) {
    forall i, j :: 0 <= i < j < |goals| ==> goals[i].from != goals[j].from
  }

  /** A play order that names every goal and keeps each person's goals in order is taken as it is. */
  lemma ProposedOrderIsKept(goals: seq<Goal>, playOrder: seq<Ref>, q: seq<nat>)
    requires Proposes(goals, playOrder, q)
    ensures Played(goals, playOrder) == q
  {
    FollowsProposal(goals, playOrder, q, |q|);
    MovesSplit(goals, playOrder);
    var st := Moves(goals, playOrder);
    assert playOrder[..|q|] == playOrder && q[..|q|] == q;
    assert |multiset(st.ordered + st.left)| == |multiset(Identity(|goals|))|;
  }

  lemma {:induction false} FollowsProposal(goals: seq<Goal>, playOrder: seq<Ref>, q: seq<nat>, k: nat)
    requires Proposes(goals, playOrder, q) && k <= |q|
    ensures Moves(goals, playOrder[..k]).ordered == q[..k]
  {
    hide Filter, Splits, KeepsPersons, FindRef;
    if k > 0 {
      var st := Moves(goals, playOrder[..k - 1]);
      assert MoveUp(goals, st, playOrder[k - 1]).ordered == q[..k] by {
        FollowsProposal(goals, playOrder, q, k - 1);
        MovesSplit(goals, playOrder[..k - 1]);
        TakesTheNext(goals, playOrder, q, st, k - 1);
      }
      MovesOneMore(goals, playOrder, k);
    }
  }

  lemma MovesOneMore(goals: seq<Goal>, playOrder: seq<Ref>, k: nat)
    requires 0 < k <= |playOrder|
    ensures Moves(goals, playOrder[..k]) == MoveUp(goals, Moves(goals, playOrder[..k - 1]), playOrder[k - 1])
  {
    assert playOrder[..k][..k - 1] == playOrder[..k - 1];
  }

  lemma TakesTheNext(goals: seq<Goal>, playOrder: seq<Ref>, q: seq<nat>, st: Split, k: nat)
    requires Proposes(goals, playOrder, q) && k < |q|
    requires st.ordered == q[..k] && Splits(goals, st.ordered, st.left)
    ensures MoveUp(goals, st, playOrder[k]).ordered == q[..k + 1]
  {
    hide Filter, Splits, KeepsPersons, FindRef;
    SplitIsBelow(goals, st);
    var left := st.left;
    assert q[..k + 1] == q[..k] + [q[k]];
    var i := FindNext(goals, playOrder, q, left, k);
    var person := goals[q[k]].person;
    assert left[..i + 1] == left[..i] + [q[k]];
    forall x | x in left[..i] ensures goals[x].person != person {
      var j :| 0 <= j < i && left[j] == x;
      if goals[x].person == person {
        EarlierIsPlaced(goals, q, left, k, i, j);
      }
    }
    NothingToFilter(goals, left[..i], person);
    assert left[..i + 1][..i] == left[..i];
    FilterOneMore(goals, left[..i + 1], person);
  }

  lemma FindNext(goals: seq<Goal>, playOrder: seq<Ref>, q: seq<nat>, left: seq<nat>, k: nat) returns (i: nat)
    requires Proposes(goals, playOrder, q) && k < |q|
    requires Splits(goals, q[..k], left)
    ensures i == FindRef(goals, left, playOrder[k]) && i < |left| && left[i] == q[k]
  {
    i := FindRef(goals, left, playOrder[k]);
    HasAll(goals, q[..k], left, q[k]);
    assert q[k] !in q[..k];
    var p :| 0 <= p < |left| && left[p] == q[k];
  }

  lemma EarlierIsPlaced(goals: seq<Goal>, q: seq<nat>, left: seq<nat>, k: nat, i: nat, j: nat)
    requires IsPermutation(q, |goals|) && KeepsPersons(goals, q)
    requires k < |q| && Splits(goals, q[..k], left)
    requires j < i < |left| && left[i] == q[k]
    ensures goals[left[j]].person != goals[q[k]].person
  {
    Reassembled(goals, q[..k], left);
    DistinctParts(q[..k], left, j);
    assert left[j] < left[i];
  }

  lemma TakeEarlier(goals: seq<Goal>, ordered: seq<nat>, left: seq<nat>, i: nat)
    requires Splits(goals, ordered, left) && i < |left|
    ensures var person := goals[left[i]].person;
            Splits(goals, ordered + Filter(goals, left[..i + 1], person, true), Filter(goals, left[..i + 1], person, false) + left[i + 1..])
  {
    var person := goals[left[i]].person;
    TakeKeepsAll(goals, ordered, left, i, person);
    RestIncreases(goals, left, i, person);
    OwnKeepsPersons(goals, ordered, left, i);
    var own := Filter(goals, left[..i + 1], person, true);
    assert forall x :: x in own ==> x in left[..i + 1];
  }

  lemma TakeKeepsAll(goals: seq<Goal>, ordered: seq<nat>, left: seq<nat>, i: nat, person: string)
    requires AllBelow(left, |goals|) && i < |left|
    ensures multiset(ordered + Filter(goals, left[..i + 1], person, true) + (Filter(goals, left[..i + 1], person, false) + left[i + 1..]))
         == multiset(ordered + left)
  {
    FilterSplits(goals, left[..i + 1], person);
    hide Filter;
    assert left == left[..i + 1] + left[i + 1..];
  }

  lemma RestIncreases(goals: seq<Goal>, left: seq<nat>, i: nat, person: string)
    requires AllBelow(left, |goals|) && Increasing(left) && i < |left|
    ensures Increasing(Filter(goals, left[..i + 1], person, false) + left[i + 1..])
    ensures AllBelow(Filter(goals, left[..i + 1], person, false) + left[i + 1..], |goals|)
  {
    var others := Filter(goals, left[..i + 1], person, false);
    forall x | x in others ensures x <= left[i] {
      var j :| 0 <= j < i + 1 && left[..i + 1][j] == x;
    }
    var rest := others + left[i + 1..];
    forall a, b | 0 <= a < b < |rest| ensures rest[a] < rest[b] {
      if a < |others| { assert others[a] in others; }
      if b < |others| { assert Increasing(left[..i + 1]); }
    }
  }

  lemma OwnKeepsPersons(goals: seq<Goal>, ordered: seq<nat>, left: seq<nat>, i: nat)
    requires Splits(goals, ordered, left) && i < |left|
    ensures KeepsPersons(goals, ordered + Filter(goals, left[..i + 1], goals[left[i]].person, true))
  {
    var person := goals[left[i]].person;
    var own := Filter(goals, left[..i + 1], person, true);
    var more := ordered + own;
    hide Filter;
    forall y, a: nat | 0 <= y < |more| && more[y] < |goals| && a < more[y] && goals[a].person == goals[more[y]].person
      ensures a in more[..y]
    {
      if y < |ordered| {
        assert more[..y] == ordered[..y];
      } else {
        var g := own[y - |ordered|];
        assert g in own;
        HasAll(goals, ordered, left, a);
        assert more[..y] == ordered + own[..y - |ordered|];
        if a !in ordered {
          EarlierInOwn(goals, left, i, a, y - |ordered|);
        }
      }
    }
  }

  lemma EarlierInOwn(goals: seq<Goal>, left: seq<nat>, i: nat, a: nat, y: nat)
    requires AllBelow(left, |goals|) && Increasing(left) && i < |left| && a in left
    requires y < |Filter(goals, left[..i + 1], goals[left[i]].person, true)|
    requires a < Filter(goals, left[..i + 1], goals[left[i]].person, true)[y] && goals[a].person == goals[left[i]].person
    ensures a in Filter(goals, left[..i + 1], goals[left[i]].person, true)[..y]
  {
    var front := left[..i + 1];
    var own := Filter(goals, front, goals[left[i]].person, true);
    hide Filter, Below;
    assert own[y] in own;
    var p :| 0 <= p < |left| && left[p] == a;
    var r :| 0 <= r < |front| && front[r] == own[y];
    assert p < r;
    assert front[p] == a;
    var z :| 0 <= z < |own| && own[z] == a;
    assert Increasing(own) && z < y;
  }

  lemma HasAll(goals: seq<Goal>, ordered: seq<nat>, left: seq<nat>, a: nat)
    requires Splits(goals, ordered, left) && a < |goals|
    ensures a in ordered || a in left
  {
    assert Identity(|goals|)[a] in multiset(Identity(|goals|));
    assert a in multiset(ordered + left);
    assert a in ordered + left;
  }

  lemma Reassembled(goals: seq<Goal>, ordered: seq<nat>, left: seq<nat>)
    requires Splits(goals, ordered, left)
    ensures IsPermutation(ordered + left, |goals|) && KeepsPersons(goals, ordered + left)
  {
    var order := ordered + left;
    assert |order| == |multiset(order)| == |multiset(Identity(|goals|))| == |goals|;
    SameAsDistinct(order, Identity(|goals|));
    forall y, a: nat | 0 <= y < |order| && a < order[y] && order[y] < |goals| && goals[a].person == goals[order[y]].person
      ensures a in order[..y]
    {
      if y < |ordered| {
        assert order[..y] == ordered[..y];
      } else {
        HasAll(goals, ordered, left, a);
        assert order[..y] == ordered + left[..y - |ordered|];
        if a !in ordered {
          var p :| 0 <= p < |left| && left[p] == a;
          assert left[..y - |ordered|][p] == a;
        }
      }
    }
  }

  lemma SameAsDistinct<T(!new)>(a: seq<T>, b: seq<T>)
    requires multiset(a) == multiset(b) && Distinct(b)
    ensures Distinct(a)
  {
    forall i, j | 0 <= i < j < |a| ensures a[i] != a[j] {
      if a[i] == a[j] {
        assert a == a[..i] + [a[i]] + a[i + 1..j] + [a[j]] + a[j + 1..];
        assert multiset(a)[a[i]] >= 2;
        OnceInDistinct(b, a[i]);
        assert false;
      }
    }
  }

  lemma {:induction false} OnceInDistinct<T(!new)>(b: seq<T>, x: T)
    requires Distinct(b)
    ensures multiset(b)[x] <= 1
  {
    if b != [] {
      assert b == [b[0]] + b[1..];
      OnceInDistinct(b[1..], x);
      assert b[0] !in b[1..];
    }
  }

  lemma NothingToFilter(goals: seq<Goal>, s: seq<nat>, person: string)
    requires AllBelow(s, |goals|) && forall x :: x in s ==> goals[x].person != person
    ensures Filter(goals, s, person, true) == []
  {
    if s != [] {
      NothingToFilter(goals, s[..|s| - 1], person);
    }
  }
}
