/** `settleGroups` of `packages/protocol/src/runner.ts`: any proposed grouping becomes a
    partition of the known keys. */
module Grouping {
  import opened Lists

  function Flatten(groups: seq<seq<string>>): seq<string> {
    if groups == [] then [] else Flatten(groups[..|groups| - 1]) + groups[|groups| - 1]
  }

  ghost function Members(s: seq<string>): set<string> {
    set key | key in s
  }

  /** Non-empty groups in which every key appears exactly once. */
  ghost predicate IsPartition(keys: seq<string>, groups: seq<seq<string>>) {
    && (forall i :: 0 <= i < |groups| ==> groups[i] != [])
    && Distinct(Flatten(groups)) && Members(Flatten(groups)) == Members(keys)
  }

  /** The known keys of a list, each where it comes first. */
  function FirstTimes(s: seq<string>, known: set<string>): (r: seq<string>)
  {
    if s == [] then []
    else
      var front, key := FirstTimes(s[..|s| - 1], known), s[|s| - 1];
      assert s == s[..|s| - 1] + [key];
      if key in known && key !in front then front + [key] else front
  }

  lemma FirstTimesOneMore(s: seq<string>, key: string, known: set<string>)
    ensures FirstTimes(s + [key], known) ==
            if key in known && key !in FirstTimes(s, known) then FirstTimes(s, known) + [key] else FirstTimes(s, known)
  {
    assert (s + [key])[..|s|] == s;
  }

  /** Each known key of the list once, in the order in which they are first named. */
  lemma {:induction false} FirstTimesAre(s: seq<string>, known: set<string>)
    ensures var r := FirstTimes(s, known);
      && Distinct(r) && (forall key :: key in r <==> key in s && key in known)
      && forall x, y :: 0 <= x < y < |r| ==> ComesUpBefore(s, r[x], r[y])
  {
    if s != [] {
      var front, key := s[..|s| - 1], s[|s| - 1];
      assert s == front + [key];
      FirstTimesAre(front, known);
      forall a, b | ComesUpBefore(front, a, b) ensures ComesUpBefore(s, a, b) {
        var i :| 0 <= i < |front| && front[i] == a && b !in front[..i + 1];
        assert s[..i + 1] == front[..i + 1];
      }
      var r := FirstTimes(front, known);
      forall x | 0 <= x < |r| && key !in r && key in known ensures ComesUpBefore(s, r[x], key) {
        assert r[x] in front;
        var i :| 0 <= i < |front| && front[i] == r[x];
        assert s[..i + 1] == front[..i + 1] && forall k :: k in front[..i + 1] ==> k in front;
      }
    }
  }

  /** `a` is named before `b` is for the first time. */
  ghost predicate ComesUpBefore(s: seq<string>, a: string, b: string) {
    exists i :: 0 <= i < |s| && s[i] == a && b !in s[..i + 1]
  }

  /** Group `j` is the first of the proposal that names the key. */
  ghost predicate NamedFirstIn(groups: seq<seq<string>>, j: int, key: string) {
    0 <= j < |groups| && key in groups[j] && forall i :: 0 <= i < j ==> key !in groups[i]
  }

  ghost predicate Together(groups: seq<seq<string>>, a: string, b: string) {
    exists i :: 0 <= i < |groups| && a in groups[i] && b in groups[i]
  }

  ghost predicate ProposedTogether(groups: seq<seq<string>>, a: string, b: string) {
    exists j :: NamedFirstIn(groups, j, a) && NamedFirstIn(groups, j, b)
  }

  ghost predicate Named(groups: seq<seq<string>>, key: string) {
    exists j :: NamedFirstIn(groups, j, key)
  }

  lemma FirstNaming(groups: seq<seq<string>>, i: nat, key: string)
    requires i < |groups| && key in groups[i]
    ensures Named(groups, key)
  {
    var j := 0;
    while key !in groups[j]
      invariant 0 <= j <= i && forall x :: 0 <= x < j ==> key !in groups[x]
      decreases i - j
    {
      j := j + 1;
    }
    assert NamedFirstIn(groups, j, key);
  }

  lemma NamedOneMore(groups: seq<seq<string>>, group: seq<string>, j: int, key: string)
    ensures NamedFirstIn(groups + [group], j, key) <==>
            NamedFirstIn(groups, j, key) || (j == |groups| && key in group && !Named(groups, key))
  {
    var more := groups + [group];
    assert forall i :: 0 <= i < |groups| ==> more[i] == groups[i];
    if j == |groups| && key in group && !Named(groups, key) {
      forall i | 0 <= i < j ensures key !in more[i] {
        if key in groups[i] { FirstNaming(groups, i, key); }
      }
    }
  }

  lemma ProposedOneMore(groups: seq<seq<string>>, group: seq<string>, a: string, b: string)
    ensures ProposedTogether(groups + [group], a, b) <==>
            ProposedTogether(groups, a, b) || (a in group && b in group && !Named(groups, a) && !Named(groups, b))
  {
    if ProposedTogether(groups + [group], a, b) {
      var j :| NamedFirstIn(groups + [group], j, a) && NamedFirstIn(groups + [group], j, b);
      NamedOneMore(groups, group, j, a);
      NamedOneMore(groups, group, j, b);
    }
    if ProposedTogether(groups, a, b) {
      var j :| NamedFirstIn(groups, j, a) && NamedFirstIn(groups, j, b);
      NamedOneMore(groups, group, j, a);
      NamedOneMore(groups, group, j, b);
    }
    NamedOneMore(groups, group, |groups|, a);
    NamedOneMore(groups, group, |groups|, b);
  }

  lemma NamedGrows(groups: seq<seq<string>>, group: seq<string>, key: string)
    ensures Named(groups + [group], key) <==> Named(groups, key) || key in group
  {
    if Named(groups + [group], key) {
      var j :| NamedFirstIn(groups + [group], j, key);
      NamedOneMore(groups, group, j, key);
    }
    if Named(groups, key) {
      var j :| NamedFirstIn(groups, j, key);
      NamedOneMore(groups, group, j, key);
    }
    NamedOneMore(groups, group, |groups|, key);
  }

  lemma TogetherOneMore(groups: seq<seq<string>>, group: seq<string>, a: string, b: string)
    ensures Together(groups + [group], a, b) <==> Together(groups, a, b) || (a in group && b in group)
  {
    var more := groups + [group];
    assert more[|groups|] == group;
    if Together(groups, a, b) {
      var i :| 0 <= i < |groups| && a in groups[i] && b in groups[i];
      assert more[i] == groups[i];
    }
  }

  lemma InFlatten(groups: seq<seq<string>>, i: nat, key: string)
    requires i < |groups| && key in groups[i]
    ensures key in Flatten(groups)
  {
    if i < |groups| - 1 {
      InFlatten(groups[..|groups| - 1], i, key);
    }
  }

  lemma FlattenOneMore(groups: seq<seq<string>>, group: seq<string>)
    ensures Flatten(groups + [group]) == Flatten(groups) + group
    ensures Members(Flatten(groups + [group])) == Members(Flatten(groups)) + Members(group)
  {
    assert (groups + [group])[..|groups|] == groups;
  }

  // ----- The loops -----

  /** The members are the group's known keys that have no place yet, each once. */
  ghost predicate TakenFrom(group: seq<string>, known: set<string>, placed: set<string>, members: seq<string>) {
    && Distinct(members)
    && (forall key :: key in members <==> key in group && key in known && key !in placed)
    && (Distinct(group) && (forall key :: key in group ==> key in known && key !in placed) ==> members == group)
  }

  lemma TakeStep(group: seq<string>, key: string, known: set<string>, placed: set<string>, members: seq<string>)
    requires TakenFrom(group, known, placed, members)
    ensures var more := if key in known && key !in placed + Members(members) then members + [key] else members;
      TakenFrom(group + [key], known, placed, more)
  {
    var longer := group + [key];
    assert forall x :: x in longer <==> x in group || x == key;
    assert Distinct(longer) ==> Distinct(group) && key !in group by {
      assert longer[|group|] == key && forall i :: 0 <= i < |group| ==> longer[i] == group[i];
    }
  }

  lemma TakeFirstTimes(before: seq<string>, group: seq<string>, key: string, known: set<string>, placed: set<string>, members: seq<string>)
    requires placed == Members(FirstTimes(before, known)) && FirstTimes(before + group, known) == FirstTimes(before, known) + members
    ensures var more := if key in known && key !in placed + Members(members) then members + [key] else members;
      FirstTimes(before + (group + [key]), known) == FirstTimes(before, known) + more
  {
    hide FirstTimes;
    assert before + (group + [key]) == before + group + [key];
    FirstTimesOneMore(before + group, key, known);
  }

  /** `group.filter((key) => known.has(key) && !placed.has(key) && placed.add(key))` */
  method Take(group: seq<string>, known: set<string>, placed: set<string>, ghost before: seq<string>) returns (members: seq<string>, nowPlaced: set<string>)
    requires placed == Members(FirstTimes(before, known))
    ensures TakenFrom(group, known, placed, members) && nowPlaced == placed + Members(members)
    ensures FirstTimes(before + group, known) == FirstTimes(before, known) + members
  {
    hide FirstTimes, TakenFrom;
    members, nowPlaced := [], placed;
    var k := 0;
    assert before + group[..0] == before;
    NothingTaken(known, placed);
    assert group[..0] == [];
    while k < |group|
      invariant 0 <= k <= |group|
      invariant TakenFrom(group[..k], known, placed, members) && nowPlaced == placed + Members(members)
      invariant FirstTimes(before + group[..k], known) == FirstTimes(before, known) + members
    {
      TakeStep(group[..k], group[k], known, placed, members);
      TakeFirstTimes(before, group[..k], group[k], known, placed, members);
      assert group[..k + 1] == group[..k] + [group[k]];
      if group[k] in known && group[k] !in nowPlaced {
        nowPlaced := nowPlaced + {group[k]};
        members := members + [group[k]];
      }
      k := k + 1;
    }
    assert group[..k] == group;
  }

  lemma NothingTaken(known: set<string>, placed: set<string>)
    ensures TakenFrom([], known, placed, [])
  {
  }

  /** After some proposed groups: the settled ones hold each known key that was named, once,
      and together with those first named in the same group. */
  ghost predicate Settling(keys: seq<string>, groups: seq<seq<string>>, settled: seq<seq<string>>, placed: set<string>) {
    && (forall i :: 0 <= i < |settled| ==> settled[i] != [])
    && Distinct(Flatten(settled)) && Members(Flatten(settled)) == placed
    && (forall key :: key in placed <==> key in keys && Named(groups, key))
    && forall a, b :: a in keys && b in keys ==> (Together(settled, a, b) <==> ProposedTogether(groups, a, b))
  }

  lemma SettleOneKeys(keys: seq<string>, groups: seq<seq<string>>, group: seq<string>, settled: seq<seq<string>>, placed: set<string>, members: seq<string>)
    requires Settling(keys, groups, settled, placed)
    requires Distinct(members) && forall key :: key in members <==> key in group && key in keys && key !in placed
    ensures Distinct(Flatten(settled) + members)
    ensures Members(Flatten(settled) + members) == placed + Members(members)
    ensures forall key :: key in placed + Members(members) <==> key in keys && Named(groups + [group], key)
  {
    hide Named, ProposedTogether, Together, Flatten;
    DistinctConcat(Flatten(settled), members);
    forall key
      ensures key in placed + Members(members) <==> key in keys && Named(groups + [group], key)
    {
      NamedGrows(groups, group, key);
    }
  }

  lemma SettleOneTogether(keys: seq<string>, groups: seq<seq<string>>, group: seq<string>, settled: seq<seq<string>>, placed: set<string>, members: seq<string>, a: string, b: string)
    requires Settling(keys, groups, settled, placed) && a in keys && b in keys
    requires forall key :: key in members <==> key in group && key in keys && key !in placed
    ensures Together(settled + [members], a, b) <==> ProposedTogether(groups + [group], a, b)
    ensures members == [] ==> (Together(settled, a, b) <==> ProposedTogether(groups + [group], a, b))
  {
    hide Named, ProposedTogether, Together, Flatten, Distinct, Members;
    TogetherOneMore(settled, members, a, b);
    ProposedOneMore(groups, group, a, b);
  }

  lemma SettleOne(keys: seq<string>, groups: seq<seq<string>>, group: seq<string>, settled: seq<seq<string>>, placed: set<string>, members: seq<string>)
    requires Settling(keys, groups, settled, placed)
    requires Distinct(members) && forall key :: key in members <==> key in group && key in keys && key !in placed
    ensures Settling(keys, groups + [group], if |members| > 0 then settled + [members] else settled, placed + Members(members))
  {
    hide Named, ProposedTogether, Together, Flatten, Distinct, Members;
    SettleOneKeys(keys, groups, group, settled, placed, members);
    FlattenOneMore(settled, members);
    assert members == [] ==> Flatten(settled) + members == Flatten(settled);
    forall a, b | a in keys && b in keys
      ensures members == [] ==> (Together(settled, a, b) <==> ProposedTogether(groups + [group], a, b))
      ensures Together(settled + [members], a, b) <==> ProposedTogether(groups + [group], a, b)
    {
      SettleOneTogether(keys, groups, group, settled, placed, members, a, b);
    }
  }

  lemma DistinctConcat(a: seq<string>, b: seq<string>)
    requires Distinct(a) && Distinct(b) && forall key :: key in b ==> key !in Members(a)
    ensures Distinct(a + b)
  {
    forall i, j | 0 <= i < j < |a + b| ensures (a + b)[i] != (a + b)[j] {
      if i < |a| <= j { assert a[i] in Members(a) && b[j - |a|] in b; }
    }
  }

  lemma {:induction false} FlattenIsNamed(groups: seq<seq<string>>, key: string)
    requires key in Flatten(groups)
    ensures Named(groups, key)
  {
    var front, last := groups[..|groups| - 1], groups[|groups| - 1];
    assert groups == front + [last];
    if key !in last {
      FlattenIsNamed(front, key);
    }
    NamedGrows(front, last, key);
  }

  lemma SettlingStarts(keys: seq<string>)
    ensures Settling(keys, [], [], {}) && Flatten([]) == [] && Members([]) == {} && FirstTimes([], Members(keys)) == []
    ensures Members(keys) == set key | key in keys
  {
  }

  /** In a proposal that is a partition, each group is taken whole. */
  lemma TakesWhole(keys: seq<string>, groups: seq<seq<string>>, j: nat, settled: seq<seq<string>>, placed: set<string>)
    requires IsPartition(keys, groups) && j < |groups| && Settling(keys, groups[..j], settled, placed)
    ensures groups[j] != [] && Distinct(groups[j])
    ensures forall key :: key in groups[j] ==> key in keys && key !in placed
  {
    PartitionGroup(keys, groups, j);
  }

  lemma AllPlaced(keys: seq<string>, groups: seq<seq<string>>, settled: seq<seq<string>>, placed: set<string>)
    requires IsPartition(keys, groups) && Settling(keys, groups, settled, placed)
    ensures forall key :: key in keys ==> key in placed
  {
    forall key | key in keys ensures key in placed {
      assert key in Members(keys);
      FlattenIsNamed(groups, key);
    }
  }

  lemma PartitionGroup(keys: seq<string>, groups: seq<seq<string>>, j: nat)
    requires IsPartition(keys, groups) && j < |groups|
    ensures Distinct(groups[j])
    ensures forall key :: key in groups[j] ==> key in keys && !Named(groups[..j], key)
    decreases |groups|
  {
    var front := groups[..|groups| - 1];
    assert groups == front + [groups[|groups| - 1]];
    var flat, last := Flatten(front), groups[|groups| - 1];
    assert forall x :: 0 <= x < |last| ==> Flatten(groups)[|flat| + x] == last[x];
    assert Distinct(flat) by {
      assert forall x :: 0 <= x < |flat| ==> Flatten(groups)[x] == flat[x];
    }
    forall key | key in groups[j] ensures key in keys {
      InFlatten(groups, j, key);
      assert key in Members(Flatten(groups));
    }
    if j < |groups| - 1 {
      PartitionGroup(flat, front, j);
      assert front[..j] == groups[..j];
    } else {
      forall key | key in last ensures !Named(front, key) {
        var y :| 0 <= y < |last| && last[y] == key;
        DistinctParts(flat, last, y);
        if Named(front, key) {
          var i :| NamedFirstIn(front, i, key);
          InFlatten(front, i, key);
        }
      }
    }
  }

  /** The first `k` keys are all there, those that nobody named in a group of their own. */
  ghost predicate Completing(keys: seq<string>, proposed: seq<seq<string>>, settled: seq<seq<string>>, placed: set<string>, k: nat)
    requires k <= |keys|
  {
    && (forall i :: 0 <= i < |settled| ==> settled[i] != [])
    && Distinct(Flatten(settled)) && Members(Flatten(settled)) == placed + Members(keys[..k])
    && forall a, b :: a in keys && b in keys ==>
         (Together(settled, a, b) <==> Together(proposed, a, b) || (a == b && a in keys[..k] && a !in placed))
  }

  lemma CompleteOne(keys: seq<string>, proposed: seq<seq<string>>, settled: seq<seq<string>>, placed: set<string>, k: nat)
    requires Distinct(keys) && k < |keys| && Completing(keys, proposed, settled, placed, k)
    ensures Completing(keys, proposed, if keys[k] in placed then settled else settled + [[keys[k]]], placed, k + 1)
  {
    var key := keys[k];
    assert keys[..k + 1] == keys[..k] + [key];
    assert Members(keys[..k + 1]) == Members(keys[..k]) + {key};
    if key !in placed {
      assert key !in keys[..k];
      FlattenOneMore(settled, [key]);
      DistinctConcat(Flatten(settled), [key]);
      forall a, b | a in keys && b in keys
        ensures Together(settled + [[key]], a, b) <==>
                Together(proposed, a, b) || (a == b && a in keys[..k + 1] && a !in placed)
      {
        TogetherOneMore(settled, [key], a, b);
      }
    }
  }

  lemma NextKey(keys: seq<string>, groups: seq<seq<string>>, settled: seq<seq<string>>, placed: set<string>, k: nat)
    requires Distinct(keys) && k < |keys| && Members(Flatten(settled)) == placed + Members(keys[..k])
    requires Flatten(settled) == FirstTimes(Flatten(groups) + keys[..k], Members(keys))
    ensures Flatten(if keys[k] in placed then settled else settled + [[keys[k]]]) == FirstTimes(Flatten(groups) + keys[..k + 1], Members(keys))
  {
    hide FirstTimes, Flatten;
    var key := keys[k];
    assert Flatten(groups) + keys[..k + 1] == Flatten(groups) + keys[..k] + [key];
    FirstTimesOneMore(Flatten(groups) + keys[..k], key, Members(keys));
    FlattenOneMore(settled, [key]);
    assert key !in keys[..k];
    assert key in Members(keys);
    assert key in Flatten(settled) <==> key in Members(Flatten(settled));
  }

  lemma CompletingStarts(keys: seq<string>, groups: seq<seq<string>>, proposed: seq<seq<string>>, placed: set<string>)
    requires Settling(keys, groups, proposed, placed)
    ensures Completing(keys, proposed, proposed, placed, 0)
  {
    hide Together, Flatten, Distinct;
  }

  lemma CompletingHolds(keys: seq<string>, proposed: seq<seq<string>>, settled: seq<seq<string>>, placed: set<string>, k: nat)
    requires k <= |keys| && Completing(keys, proposed, settled, placed, k)
    ensures Members(Flatten(settled)) == placed + Members(keys[..k])
  {
  }

  /** `for (const key of keys) if (!placed.has(key)) settled.push([key])` */
  method Complete(keys: seq<string>, groups: seq<seq<string>>, proposed: seq<seq<string>>, placed: set<string>) returns (settled: seq<seq<string>>)
    requires Distinct(keys) && Settling(keys, groups, proposed, placed)
    requires Flatten(proposed) == FirstTimes(Flatten(groups), Members(keys))
    ensures IsPartition(keys, settled) && Flatten(settled) == FirstTimes(Flatten(groups) + keys, Members(keys))
    ensures (forall key :: key in keys ==> key in placed) ==> settled == proposed
    ensures forall a, b :: a in keys && b in keys ==> (Together(settled, a, b) <==> a == b || ProposedTogether(groups, a, b))
  {
    hide Together, Settling, Completing, FirstTimes, Flatten, ProposedTogether;
    settled := proposed;
    var k := 0;
    assert Flatten(groups) + keys[..0] == Flatten(groups);
    CompletingStarts(keys, groups, proposed, placed);
    while k < |keys|
      invariant 0 <= k <= |keys|
      invariant Flatten(settled) == FirstTimes(Flatten(groups) + keys[..k], Members(keys))
      invariant Completing(keys, proposed, settled, placed, k)
      invariant (forall key :: key in keys ==> key in placed) ==> settled == proposed
    {
      CompletingHolds(keys, proposed, settled, placed, k);
      CompleteOne(keys, proposed, settled, placed, k);
      NextKey(keys, groups, settled, placed, k);
      if keys[k] !in placed {
        settled := settled + [[keys[k]]];
      }
      k := k + 1;
    }
    assert keys[..k] == keys;
    Completed(keys, groups, proposed, settled, placed);
  }

  /** When all keys have been gone through, every key has a place. */
  lemma Completed(keys: seq<string>, groups: seq<seq<string>>, proposed: seq<seq<string>>, settled: seq<seq<string>>, placed: set<string>)
    requires Settling(keys, groups, proposed, placed) && Completing(keys, proposed, settled, placed, |keys|)
    ensures IsPartition(keys, settled)
    ensures forall a, b :: a in keys && b in keys ==> (Together(settled, a, b) <==> a == b || ProposedTogether(groups, a, b))
  {
    hide Together, Flatten, Distinct;
    assert keys[..|keys|] == keys;
    forall a, b | a in keys && b in keys
      ensures Together(settled, a, b) <==> a == b || ProposedTogether(groups, a, b)
    {
      if a == b && a in placed {
        var j :| NamedFirstIn(groups, j, a);
        assert ProposedTogether(groups, a, a);
      }
    }
  }

  method SettleGroups(keys: seq<string>, groups: seq<seq<string>>) returns (settled: seq<seq<string>>)
    requires Distinct(keys)
    ensures IsPartition(keys, settled) && Flatten(settled) == FirstTimes(Flatten(groups) + keys, Members(keys))
    ensures IsPartition(keys, groups) ==> settled == groups
    ensures forall a, b :: a in keys && b in keys ==> (Together(settled, a, b) <==> a == b || ProposedTogether(groups, a, b))
  {
    hide Settling, IsPartition, Together, ProposedTogether, Distinct, Members, FirstTimes, Flatten;
    var known := set key | key in keys;
    var placed: set<string> := {};
    settled := [];
    var j := 0;
    SettlingStarts(keys);
    assert groups[..0] == [] && known == Members(keys);
    while j < |groups|
      invariant 0 <= j <= |groups|
      invariant Settling(keys, groups[..j], settled, placed)
      invariant Flatten(settled) == FirstTimes(Flatten(groups[..j]), known) && placed == Members(Flatten(settled))
      invariant IsPartition(keys, groups) ==> settled == groups[..j]
    {
      var members, nowPlaced := Take(groups[j], known, placed, Flatten(groups[..j]));
      if IsPartition(keys, groups) {
        TakesWhole(keys, groups, j, settled, placed);
        assert members == groups[j];
      }
      SettleOne(keys, groups[..j], groups[j], settled, placed, members);
      assert groups[..j + 1] == groups[..j] + [groups[j]];
      FlattenOneMore(groups[..j], groups[j]);
      FlattenOneMore(settled, members);
      if |members| > 0 {
        settled := settled + [members];
      }
      placed := nowPlaced;
      j := j + 1;
    }
    assert groups[..j] == groups;
    if IsPartition(keys, groups) {
      AllPlaced(keys, groups, settled, placed);
    }
    settled := Complete(keys, groups, settled, placed);
  }

  method SettleTwice(keys: seq<string>, groups: seq<seq<string>>) returns (once: seq<seq<string>>, twice: seq<seq<string>>)
    requires Distinct(keys)
    ensures twice == once && IsPartition(keys, once)
  {
    once := SettleGroups(keys, groups);
    twice := SettleGroups(keys, once);
  }
}
