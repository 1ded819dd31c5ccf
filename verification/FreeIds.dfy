/** The renaming loop that `uniqueIds`, `goalsPerPerson` and `settleTurns` share: try a first
    id, then `base` followed by one number after another until an id is free. */
module FreeIds {
  import opened Lists

  function Digit(n: nat): char
    requires n < 10
  {
    "0123456789"[n]
  }

  /** The decimal notation of a number. */
  function Digits(n: nat): (s: string)
  {
    if n < 10 then [Digit(n)] else Digits(n / 10) + [Digit(n % 10)]
  }

  lemma {:induction false} DigitsAreInjective(a: nat, b: nat)
    requires Digits(a) == Digits(b)
    ensures a == b
    decreases a
  {
    var s := Digits(a);
    assert s[|s| - 1] == Digit(a % 10) == Digit(b % 10);
    if a >= 10 && b >= 10 {
      assert s[..|s| - 1] == Digits(a / 10) && s[..|s| - 1] == Digits(b / 10);
      DigitsAreInjective(a / 10, b / 10);
    }
  }

  /** The number that decimal digits stand for. */
  function ValueOf(s: string): nat {
    if s == "" then 0
    else
      var c := s[|s| - 1];
      10 * ValueOf(s[..|s| - 1]) + if '0' <= c <= '9' then (c - '0') as nat else 0
  }

  lemma {:induction false} DigitsAreDecimal(n: nat)
    ensures ValueOf(Digits(n)) == n && Digits(n) != "" && (n > 0 ==> Digits(n)[0] != '0')
    ensures forall i :: 0 <= i < |Digits(n)| ==> '0' <= Digits(n)[i] <= '9'
  {
    var s := Digits(n);
    assert s[|s| - 1] == Digit(n % 10) == ('0' as int + n % 10) as char;
    if n >= 10 {
      DigitsAreDecimal(n / 10);
      assert s[..|s| - 1] == Digits(n / 10);
    } else {
      assert s[..|s| - 1] == "";
    }
  }

  function Numbered(base: string, n: nat): string {
    base + Digits(n)
  }

  /** The taken ids that the loop can still meet from `n` on: there are finitely many. */
  ghost function Ahead(base: string, n: nat, taken: set<string>): set<string> {
    set t | t in taken && exists k: nat :: n <= k && t == Numbered(base, k)
  }

  lemma AheadShrinks(base: string, n: nat, taken: set<string>)
    requires Numbered(base, n) in taken
    ensures |Ahead(base, n + 1, taken)| < |Ahead(base, n, taken)|
  {
    var now, next := Ahead(base, n, taken), Ahead(base, n + 1, taken);
    assert Numbered(base, n) in now;
    if Numbered(base, n) in next {
      var k: nat :| n + 1 <= k && Numbered(base, n) == Numbered(base, k);
      assert Numbered(base, n)[|base|..] == Digits(n) && Numbered(base, k)[|base|..] == Digits(k);
      DigitsAreInjective(n, k);
      assert false;
    }
    assert next <= now - {Numbered(base, n)};
    Subset(next, now - {Numbered(base, n)});
  }

  /** The first number from `n` on whose id is free. */
  function NextFree(base: string, n: nat, taken: set<string>): (r: nat)
    ensures n <= r && Numbered(base, r) !in taken
    ensures forall k :: n <= k < r ==> Numbered(base, k) in taken
    decreases |Ahead(base, n, taken)|
  {
    if Numbered(base, n) in taken then
      AheadShrinks(base, n, taken);
      NextFree(base, n + 1, taken)
    else n
  }

  function FreeId(first: string, base: string, from: nat, taken: set<string>): (id: string)
  {
    if first in taken then Numbered(base, NextFree(base, from, taken)) else first
  }

  /** The id with the first number from `from` on that is free. */
  ghost predicate IsFirstFree(base: string, from: nat, taken: set<string>, id: string, n: nat) {
    n >= from && id == base + Digits(n) && id !in taken && forall m :: from <= m < n ==> base + Digits(m) in taken
  }

  lemma FreeIdIs(first: string, base: string, from: nat, taken: set<string>)
    ensures var id := FreeId(first, base, from, taken);
      if first !in taken then id == first else exists n :: IsFirstFree(base, from, taken, id, n)
  {
    if first in taken {
      var r := NextFree(base, from, taken);
      forall m | from <= m < r ensures base + Digits(m) in taken {
        assert Numbered(base, m) in taken;
      }
      assert IsFirstFree(base, from, taken, FreeId(first, base, from, taken), r);
    }
  }

  /** `let id = first; for (let n = from; taken.has(id); n++) id = base + n` always ends. */
  method FindFreeId(first: string, base: string, from: nat, taken: set<string>) returns (id: string)
    ensures id == FreeId(first, base, from, taken) && id !in taken
    ensures if first !in taken then id == first else exists n :: IsFirstFree(base, from, taken, id, n)
  {
    id := first;
    var n := from;
    while id in taken
      invariant from <= n
      invariant if n == from then id == first else first in taken && id == Numbered(base, n - 1)
      invariant forall k :: from <= k < n - 1 ==> Numbered(base, k) in taken
      decreases n == from, |Ahead(base, n - (if n == from then 0 else 1), taken)|
    {
      if n > from {
        AheadShrinks(base, n - 1, taken);
      }
      id := Numbered(base, n);
      n := n + 1;
    }
    FreeIdIs(first, base, from, taken);
  }
}
