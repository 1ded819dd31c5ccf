/** How long the ids get that `goalsPerPerson` of `apps/control-plane/src/projects/projects.ts` makes
    up. The goals table takes ids of at most 60 characters. */
module CopyIds {
  import opened Lists
  import opened FreeIds
  import opened Options
  import opened Turns
  import opened GoalsPerPerson

  function Pow10(k: nat): (p: nat)
    ensures p >= 1
  {
    if k == 0 then 1 else 10 * Pow10(k - 1)
  }

  lemma {:induction false} DigitsLength(n: nat, k: nat)
    requires k >= 1
    ensures |Digits(n)| <= k <==> n < Pow10(k)
  {
    if n >= 10 && k >= 2 {
      DigitsLength(n / 10, k - 1);
    } else if n >= 10 {
      assert Pow10(1) == 10 * Pow10(0) == 10;
      assert |Digits(n / 10)| >= 1;
    } else {
      assert Pow10(k) == 10 * Pow10(k - 1);
    }
  }

  /** A made-up id fits exactly when one is free before the number gets too many digits. */
  lemma CopyIdFitsExactly(g: PlanGoal, person: string, n: nat, taken: set<string>)
    requires n > 0
    ensures var base := CopyBase(g, person);
      |CopyId(g, person, n, taken)| <= MAX_ID <==>
        (base !in taken || exists k :: 2 <= k < Pow10(MAX_ID - 1 - |base|) && Numbered(base + "-", k) !in taken)
  {
    var base := CopyBase(g, person);
    var r := NextFree(base + "-", 2, taken);
    DigitsLength(r, MAX_ID - 1 - |base|);
  }

  /** An id and the same id with the numbers from 2 on. */
  ghost function FirstIds(base: string, m: nat): (ids: set<string>)
  {
    if m == 0 then {} else if m == 1 then {base} else FirstIds(base, m - 1) + {Numbered(base + "-", m)}
  }

  ghost predicate IsFirstId(base: string, m: nat, id: string) {
    (m >= 1 && id == base) || exists k :: 2 <= k <= m && id == Numbered(base + "-", k)
  }

  lemma {:induction false} FirstIdsAre(base: string, m: nat)
    ensures forall id :: id in FirstIds(base, m) <==> IsFirstId(base, m, id)
  {
    if m >= 2 {
      hide Numbered;
      FirstIdsAre(base, m - 1);
    }
  }

  lemma NumberedDiffer(base: string, m: nat)
    requires m >= 1
    ensures !IsFirstId(base, m, Numbered(base + "-", m + 1))
  {
    var last := Numbered(base + "-", m + 1);
    assert |last| > |base|;
    forall k | 2 <= k <= m ensures last != Numbered(base + "-", k) {
      assert last[|base| + 1..] == Digits(m + 1) && Numbered(base + "-", k)[|base| + 1..] == Digits(k);
      if Digits(m + 1) == Digits(k) {
        DigitsAreInjective(m + 1, k);
      }
    }
  }

  lemma {:induction false} FirstIdsCount(base: string, m: nat)
    ensures |FirstIds(base, m)| == m
  {
    if m >= 2 {
      hide IsFirstId, Numbered;
      FirstIdsCount(base, m - 1);
      FirstIdsAre(base, m - 1);
      NumberedDiffer(base, m - 1);
    }
  }

  /** With so many ids taken a made-up one can be too long exactly when they are 99 or more. */
  lemma LongIdExactly(m: nat)
    ensures (exists g, person, taken: set<string> :: |taken| == m && |CopyId(g, person, 1, taken)| > MAX_ID) <==> m >= 99
  {
    if m >= 99 {
      LongIdHappens(m);
    }
    forall g, person, taken: set<string> | |taken| == m && |CopyId(g, person, 1, taken)| > MAX_ID ensures m >= 99 {
      LongIdTakes(g, person, taken);
    }
  }

  /** The first 99 ids must all be taken. */
  lemma LongIdTakes(g: PlanGoal, person: string, taken: set<string>)
    requires |CopyId(g, person, 1, taken)| > MAX_ID
    ensures |taken| >= 99
  {
    var base := CopyBase(g, person);
    hide CopyId;
    CopyIdFitsExactly(g, person, 1, taken);
    assert Pow10(MAX_ID - 1 - |base|) >= 100 by {
      Hundred(MAX_ID - 1 - |base|);
    }
    FirstIdsAre(base, 99);
    FirstIdsCount(base, 99);
    assert FirstIds(base, 99) <= taken;
    Subset(FirstIds(base, 99), taken);
  }

  lemma Hundred(k: nat)
    requires k >= 2
    ensures Pow10(k) >= 100
    ensures k == 2 ==> Pow10(k) == 100
  {
    assert Pow10(k) == 100 * Pow10(k - 2);
  }

  lemma LongIdHappens(m: nat)
    requires m >= 99
    ensures exists g, person, taken: set<string> :: |taken| == m && |CopyId(g, person, 1, taken)| > MAX_ID
  {
    var g := PlanGoal(seq(30, i => 'a'), [], None);
    var person := seq(26, i => 'b');
    var base := CopyBase(g, person);
    assert |base| == 57;
    var taken := FirstIds(base, m);
    hide CopyId, FirstIds, Pow10;
    Hundred(2);
    FirstIdsAre(base, m);
    FirstIdsCount(base, m);
    CopyIdFitsExactly(g, person, 1, taken);
    assert forall k :: 2 <= k < 100 ==> Numbered(base + "-", k) in taken;
    assert |taken| == m && |CopyId(g, person, 1, taken)| > MAX_ID;
  }
}
