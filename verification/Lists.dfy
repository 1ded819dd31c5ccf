/** Shared facts about sequences and finite sets. */
module Lists {

  ghost predicate Distinct<T(!new)>(s: seq<T>) {
    forall i, j :: 0 <= i < j < |s| ==> s[i] != s[j]
  }

  /** `s.slice(0, max)` */
  function Front<T>(s: seq<T>, max: nat): (r: seq<T>)
    ensures |r| <= max && r <= s && (max > 0 && s != [] ==> r != [])
  {
    if |s| > max then s[..max] else s
  }

  lemma FrontIsIn<T(!new)>(s: seq<T>, max: nat)
    ensures forall x :: x in Front(s, max) ==> x in s
  {
  }

  /** `s.filter(keep)` */
  function Chosen<T(!new)>(s: seq<T>, keep: T -> bool): (r: seq<T>)
    ensures forall x :: x in r <==> x in s && keep(x)
  {
    if s == [] then []
    else
      assert s == s[..|s| - 1] + [s[|s| - 1]];
      Chosen(s[..|s| - 1], keep) + (if keep(s[|s| - 1]) then [s[|s| - 1]] else [])
  }

  /** `kept` stands in `s` at increasing places `at`; all else that could be kept is left out only
      because `max` are kept before it. */
  ghost predicate AreFirst<T(!new)>(s: seq<T>, keep: T -> bool, max: nat, kept: seq<T>, at: seq<nat>) {
    && |at| <= max && Increase(at) && StandAt(kept, s, at) && (forall i :: 0 <= i < |at| ==> keep(s[at[i]]))
    && forall t :: 0 <= t < |s| && keep(s[t]) && t !in at ==> |at| == max && forall i :: 0 <= i < max ==> at[i] < t
  }

  lemma ChosenOneMore<T(!new)>(front: seq<T>, x: T, keep: T -> bool)
    ensures Chosen(front + [x], keep) == if keep(x) then Chosen(front, keep) + [x] else Chosen(front, keep)
  {
    assert (front + [x])[..|front|] == front;
  }

  ghost predicate Increase(at: seq<nat>) {
    forall i, j :: 0 <= i < j < |at| ==> at[i] < at[j]
  }

  ghost predicate StandAt<T>(kept: seq<T>, s: seq<T>, at: seq<nat>) {
    |at| == |kept| && forall i :: 0 <= i < |at| ==> at[i] < |s| && kept[i] == s[at[i]]
  }

  /** `at` are the places of `s` at which `keep` holds, in order. */
  ghost predicate ArePlaces<T>(s: seq<T>, keep: T -> bool, at: seq<nat>) {
    && Increase(at) && (forall i :: 0 <= i < |at| ==> at[i] < |s| && keep(s[at[i]]))
    && forall t :: 0 <= t < |s| && keep(s[t]) ==> t in at
  }

  lemma PlacesOneMore<T>(front: seq<T>, x: T, keep: T -> bool, at: seq<nat>)
    requires ArePlaces(front, keep, at)
    ensures ArePlaces(front + [x], keep, if keep(x) then at + [|front|] else at)
  {
    var s := front + [x];
    var more := if keep(x) then at + [|front|] else at;
    forall t | 0 <= t < |s| && keep(s[t]) ensures t in more {
      if t < |front| {
        assert front[t] == s[t];
        assert t in at;
      } else {
        assert more[|at|] == t;
      }
    }
  }

  lemma StandOneMore<T>(kept: seq<T>, front: seq<T>, x: T, at: seq<nat>)
    requires StandAt(kept, front, at)
    ensures StandAt(kept, front + [x], at) && StandAt(kept + [x], front + [x], at + [|front|])
  {
  }

  lemma NothingChosen<T(!new)>(s: seq<T>, keep: T -> bool)
    requires s == []
    ensures StandAt(Chosen(s, keep), s, []) && ArePlaces(s, keep, [])
  {
  }

  lemma {:induction false} ChosenAt<T(!new)>(s: seq<T>, keep: T -> bool) returns (at: seq<nat>)
    ensures StandAt(Chosen(s, keep), s, at) && ArePlaces(s, keep, at)
  {
    hide Chosen, StandAt, ArePlaces;
    if s == [] {
      at := [];
      NothingChosen(s, keep);
    } else {
      var front, x := s[..|s| - 1], s[|s| - 1];
      assert s == front + [x];
      at := ChosenAt(front, keep);
      ChosenOneMore(front, x, keep);
      PlacesOneMore(front, x, keep, at);
      StandOneMore(Chosen(front, keep), front, x, at);
      at := if keep(x) then at + [|front|] else at;
    }
  }

  lemma FirstOfChosen<T(!new)>(s: seq<T>, keep: T -> bool, max: nat) returns (at: seq<nat>)
    ensures AreFirst(s, keep, max, Front(Chosen(s, keep), max), at)
  {
    hide Chosen;
    var all := ChosenAt(s, keep);
    at := Front(all, max);
    assert forall k :: 0 <= k < |at| ==> at[k] == all[k] && at[k] in at && at[k] in all;
  }

  ghost function Placed(order: seq<nat>): set<nat> {
    set i | i in order
  }

  ghost function Below(n: nat): (b: set<nat>)
    ensures forall i: nat :: i in b <==> i < n
    ensures |b| == n
  {
    if n == 0 then {} else Below(n - 1) + {n - 1}
  }

  lemma {:induction false} DistinctCount(s: seq<nat>)
    requires Distinct(s)
    ensures |Placed(s)| == |s|
  {
    if s != [] {
      DistinctCount(s[1..]);
      assert s == [s[0]] + s[1..];
      assert Placed(s) == {s[0]} + Placed(s[1..]);
    }
  }

  lemma Subset<T>(a: set<T>, b: set<T>)
    requires a <= b
    ensures |a| <= |b|
  {
    assert b == a + (b - a);
  }

  lemma DistinctParts<T(!new)>(a: seq<T>, b: seq<T>, j: nat)
    requires Distinct(a + b) && j < |b|
    ensures b[j] !in a
  {
    forall i | 0 <= i < |a| ensures a[i] != b[j] {
      assert (a + b)[i] == a[i] && (a + b)[|a| + j] == b[j];
    }
  }
}
