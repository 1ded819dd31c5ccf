/** The pairs that `compareRuns` in `apps/control-plane/src/mcp/read-model.ts` reports as still
    there: each finding of the base run takes the first free finding of the head run with the same
    match text. */
module Matching {
  import opened Lists
  import opened Options

  datatype Report = Report(key: string, text: string)

  /** Positions in the base run and in the head run. */
  type Pairs = seq<(nat, nat)>

  ghost predicate DistinctKeys(reports: seq<Report>) {
    forall i, j :: 0 <= i < j < |reports| ==> reports[i].key != reports[j].key
  }

  /** Pairs of equal text in which no finding of either run appears twice. */
  ghost predicate IsMatching(base: seq<Report>, head: seq<Report>, pairs: Pairs) {
    && (forall i :: 0 <= i < |pairs| ==>
          pairs[i].0 < |base| && pairs[i].1 < |head| && base[pairs[i].0].text == head[pairs[i].1].text)
    && forall i, j :: 0 <= i < j < |pairs| ==> pairs[i].0 != pairs[j].0 && pairs[i].1 != pairs[j].1
  }

  ghost predicate HasBase(pairs: Pairs, b: nat) {
    exists i :: 0 <= i < |pairs| && pairs[i].0 == b
  }

  ghost predicate HasHead(pairs: Pairs, h: nat) {
    exists i :: 0 <= i < |pairs| && pairs[i].1 == h
  }

  /** No two findings of equal text are both left over. */
  ghost predicate NothingLeft(base: seq<Report>, head: seq<Report>, pairs: Pairs, upTo: nat)
    requires upTo <= |base|
  {
    forall b: nat, h: nat :: b < upTo && h < |head| && base[b].text == head[h].text ==> HasBase(pairs, b) || HasHead(pairs, h)
  }

  /** `inHead.find((x) => x.match === text && !matched.has(x.key))` */
  function FirstFree(head: seq<Report>, text: string, matched: set<string>, from: nat): (r: Option<nat>)
    requires from <= |head|
    ensures r.Some? ==> from <= r.value < |head| && head[r.value].text == text && head[r.value].key !in matched
    ensures r.Some? ==> forall h :: from <= h < r.value && head[h].text == text ==> head[h].key in matched
    ensures r.None? ==> forall h :: from <= h < |head| && head[h].text == text ==> head[h].key in matched
    decreases |head| - from
  {
    if from == |head| then None
    else if head[from].text == text && head[from].key !in matched then Some(from)
    else FirstFree(head, text, matched, from + 1)
  }

  /** The matched keys are those of the paired head findings. */
  ghost predicate Tracks(head: seq<Report>, pairs: Pairs, matched: set<string>) {
    forall h: nat :: h < |head| ==> (head[h].key in matched <==> HasHead(pairs, h))
  }

  lemma PairUp(base: seq<Report>, head: seq<Report>, pairs: Pairs, matched: set<string>, k: nat, h: nat)
    requires DistinctKeys(head) && k < |base| && h < |head| && base[k].text == head[h].text && head[h].key !in matched
    requires IsMatching(base, head, pairs) && Tracks(head, pairs, matched) && NothingLeft(base, head, pairs, k)
    requires forall i :: 0 <= i < |pairs| ==> pairs[i].0 < k
    ensures IsMatching(base, head, pairs + [(k, h)]) && Tracks(head, pairs + [(k, h)], matched + {head[h].key})
    ensures NothingLeft(base, head, pairs + [(k, h)], k + 1)
  {
    var more := pairs + [(k, h)];
    assert !HasHead(pairs, h);
    forall b: nat ensures HasBase(more, b) <==> HasBase(pairs, b) || b == k {
      assert more[|pairs|].0 == k && forall i :: 0 <= i < |pairs| ==> more[i] == pairs[i];
    }
    forall x: nat ensures HasHead(more, x) <==> HasHead(pairs, x) || x == h {
      assert more[|pairs|].1 == h && forall i :: 0 <= i < |pairs| ==> more[i] == pairs[i];
    }
    hide HasBase, HasHead, IsMatching;
  }

  /** The base findings come in order, and each got the first head finding that was still free. */
  ghost predicate FirstServed(head: seq<Report>, pairs: Pairs) {
    && (forall i, j :: 0 <= i < j < |pairs| ==> pairs[i].0 < pairs[j].0)
    && forall i, h: nat :: 0 <= i < |pairs| && pairs[i].1 < |head| && h < pairs[i].1 && head[h].text == head[pairs[i].1].text
         ==> HasHead(pairs[..i], h)
  }

  lemma ServeNext(head: seq<Report>, pairs: Pairs, matched: set<string>, k: nat, h: nat)
    requires FirstServed(head, pairs) && Tracks(head, pairs, matched) && h < |head|
    requires forall i :: 0 <= i < |pairs| ==> pairs[i].0 < k
    requires forall x :: 0 <= x < h && head[x].text == head[h].text ==> head[x].key in matched
    ensures FirstServed(head, pairs + [(k, h)])
  {
    hide HasHead;
    var more := pairs + [(k, h)];
    assert forall i :: 0 <= i <= |pairs| ==> more[..i] == pairs[..i];
    assert pairs[..|pairs|] == pairs;
  }

  method StillReported(base: seq<Report>, head: seq<Report>) returns (pairs: Pairs)
    requires DistinctKeys(head)
    ensures IsMatching(base, head, pairs) && FirstServed(head, pairs)
    ensures forall other :: IsMatching(base, head, other) ==> |other| <= |pairs|
  {
    var matched: set<string> := {};
    pairs := [];
    var k := 0;
    while k < |base|
      invariant 0 <= k <= |base|
      invariant IsMatching(base, head, pairs) && Tracks(head, pairs, matched) && NothingLeft(base, head, pairs, k)
      invariant FirstServed(head, pairs)
      invariant forall i :: 0 <= i < |pairs| ==> pairs[i].0 < k
    {
      var h := FirstFree(head, base[k].text, matched, 0);
      if h.Some? {
        PairUp(base, head, pairs, matched, k, h.value);
        ServeNext(head, pairs, matched, k, h.value);
        matched := matched + {head[h.value].key};
        pairs := pairs + [(k, h.value)];
      }
      k := k + 1;
    }
    forall other | IsMatching(base, head, other) ensures |other| <= |pairs| {
      NoLargerMatching(base, head, pairs, other);
    }
  }

  // ----- No matching is larger -----

  /** Some base finding with this text is left over, so every head finding with it is paired. */
  ghost predicate BaseLeft(base: seq<Report>, pairs: Pairs, text: string) {
    exists b: nat :: b < |base| && base[b].text == text && !HasBase(pairs, b)
  }

  /** `pairs[x]` shares with the edge the finding that must be paired. */
  ghost predicate StandsFor(base: seq<Report>, pairs: Pairs, e: (nat, nat), x: nat)
    requires e.0 < |base| && x < |pairs|
  {
    if BaseLeft(base, pairs, base[e.0].text) then pairs[x].1 == e.1 else pairs[x].0 == e.0
  }

  lemma StandIn(base: seq<Report>, head: seq<Report>, pairs: Pairs, e: (nat, nat)) returns (x: nat)
    requires NothingLeft(base, head, pairs, |base|)
    requires e.0 < |base| && e.1 < |head| && base[e.0].text == head[e.1].text
    ensures x < |pairs| && StandsFor(base, pairs, e, x)
  {
    if BaseLeft(base, pairs, base[e.0].text) {
      var b: nat :| b < |base| && base[b].text == base[e.0].text && !HasBase(pairs, b);
      assert HasHead(pairs, e.1);
      x :| 0 <= x < |pairs| && pairs[x].1 == e.1;
    } else {
      assert HasBase(pairs, e.0);
      x :| 0 <= x < |pairs| && pairs[x].0 == e.0;
    }
  }

  /** Two edges of a matching have different stand-ins. */
  lemma StandInsDiffer(base: seq<Report>, head: seq<Report>, pairs: Pairs, other: Pairs, i: nat, j: nat, x: nat)
    requires IsMatching(base, head, pairs) && IsMatching(base, head, other) && i < j < |other| && x < |pairs|
    ensures !(StandsFor(base, pairs, other[i], x) && StandsFor(base, pairs, other[j], x))
  {
    hide BaseLeft;
  }

  lemma NoLargerMatching(base: seq<Report>, head: seq<Report>, pairs: Pairs, other: Pairs)
    requires IsMatching(base, head, pairs) && NothingLeft(base, head, pairs, |base|)
    requires IsMatching(base, head, other)
    ensures |other| <= |pairs|
  {
    hide NothingLeft, StandsFor;
    var standIns: seq<nat> := [];
    while |standIns| < |other|
      invariant |standIns| <= |other|
      invariant forall i :: 0 <= i < |standIns| ==> standIns[i] < |pairs| && StandsFor(base, pairs, other[i], standIns[i])
    {
      var x := StandIn(base, head, pairs, other[|standIns|]);
      standIns := standIns + [x];
    }
    forall i, j | 0 <= i < j < |standIns| ensures standIns[i] != standIns[j] {
      StandInsDiffer(base, head, pairs, other, i, j, standIns[i]);
    }
    DistinctCount(standIns);
    Subset(Placed(standIns), Below(|pairs|));
  }
}
