/** Lists of disjoint, non-touching ranges in order: the canonical form of a set of positions. */
module Runs {

  datatype Range = Range(lo: nat, hi: nat)

  /** Some range holds position `i`. */
  ghost predicate Holds(rs: seq<Range>, i: int) {
    exists k :: 0 <= k < |rs| && rs[k].lo <= i < rs[k].hi
  }

  /** Non-empty ranges in order, with at least one position between neighbours. */
  ghost predicate Separated(rs: seq<Range>) {
    && (forall k :: 0 <= k < |rs| ==> rs[k].lo < rs[k].hi)
    && (forall j, k :: 0 <= j < k < |rs| ==> rs[j].hi < rs[k].lo)
  }

  function Last(rs: seq<Range>): Range
    requires rs != []
  {
    rs[|rs| - 1]
  }

  /** What a matcher does with the next occurrence: lengthen the last range when it
      touches it, otherwise start a new one. */
  function Joined(rs: seq<Range>, at: nat, end: nat): seq<Range> {
    if rs != [] && at <= Last(rs).hi then rs[..|rs| - 1] + [Range(Last(rs).lo, end)]
    else rs + [Range(at, end)]
  }

  lemma JoinedHolds(rs: seq<Range>, at: nat, end: nat, i: int)
    requires Separated(rs) && at < end
    requires rs != [] ==> Last(rs).lo <= at && Last(rs).hi <= end
    ensures Holds(Joined(rs, at, end), i) <==> Holds(rs, i) || at <= i < end
  {
    var js := Joined(rs, at, end);
    if Holds(rs, i) {
      var k :| 0 <= k < |rs| && rs[k].lo <= i < rs[k].hi;
      assert js[k].lo <= i < js[k].hi;
    }
    if at <= i < end {
      assert js[|js| - 1].lo <= i < js[|js| - 1].hi;
    }
    if Holds(js, i) && !(at <= i < end) {
      var k :| 0 <= k < |js| && js[k].lo <= i < js[k].hi;
      assert k < |rs| && rs[k].lo <= i < rs[k].hi;
    }
  }

  lemma JoinedSeparated(rs: seq<Range>, at: nat, end: nat)
    requires Separated(rs) && at < end
    requires rs != [] ==> Last(rs).lo <= at && Last(rs).hi <= end
    ensures Separated(Joined(rs, at, end))
  {
  }

  /** The positions that are held determine the list. */
  lemma {:induction false} RunsAreUnique(a: seq<Range>, b: seq<Range>)
    requires Separated(a) && Separated(b)
    requires forall i :: Holds(a, i) <==> Holds(b, i)
    ensures a == b
  {
    if a == [] || b == [] {
      if a != [] { assert Holds(a, a[0].lo); }
      if b != [] { assert Holds(b, b[0].lo); }
    } else {
      FirstLo(a, b);
      FirstLo(b, a);
      FirstHi(a, b);
      FirstHi(b, a);
      forall i
        ensures Holds(a[1..], i) <==> Holds(b[1..], i)
      {
        TailHolds(a, i);
        TailHolds(b, i);
        assert Holds(a, i) <==> Holds(b, i);
      }
      RunsAreUnique(a[1..], b[1..]);
      assert a == [a[0]] + a[1..] && b == [b[0]] + b[1..];
    }
  }

  lemma FirstLo(a: seq<Range>, b: seq<Range>)
    requires Separated(a) && Separated(b) && a != [] && b != []
    requires forall i :: Holds(a, i) <==> Holds(b, i)
    ensures b[0].lo <= a[0].lo
  {
    assert Holds(a, a[0].lo);
    assert Holds(b, a[0].lo);
    var k :| 0 <= k < |b| && b[k].lo <= a[0].lo < b[k].hi;
    assert k == 0 || b[0].hi < b[k].lo;
  }

  lemma FirstHi(a: seq<Range>, b: seq<Range>)
    requires Separated(a) && Separated(b) && a != [] && b != []
    requires forall i :: Holds(a, i) <==> Holds(b, i)
    requires a[0].lo == b[0].lo
    ensures b[0].hi >= a[0].hi
  {
    assert !Holds(a, b[0].hi);
    assert b[0].hi < a[0].lo || a[0].hi <= b[0].hi;
  }

  lemma TailHolds(a: seq<Range>, i: int)
    requires Separated(a) && a != []
    ensures Holds(a[1..], i) <==> Holds(a, i) && !(a[0].lo <= i < a[0].hi)
  {
    if Holds(a[1..], i) {
      var k :| 0 <= k < |a[1..]| && a[1..][k].lo <= i < a[1..][k].hi;
      assert a[k + 1].lo <= i < a[k + 1].hi;
    }
    if Holds(a, i) && !(a[0].lo <= i < a[0].hi) {
      var k :| 0 <= k < |a| && a[k].lo <= i < a[k].hi;
      assert a[1..][k - 1].lo <= i < a[1..][k - 1].hi;
    }
  }

  ghost predicate SortedByLo(rs: seq<Range>) {
    forall j, k :: 0 <= j < k < |rs| ==> rs[j].lo <= rs[k].lo
  }

  /** A stable sort by first position, as `Array.prototype.sort` with that comparison. */
  function Sorted(rs: seq<Range>): (s: seq<Range>)
    ensures SortedByLo(s)
    ensures multiset(s) == multiset(rs)
  {
    if rs == [] then [] else
      assert rs == rs[..|rs| - 1] + [Last(rs)];
      Inserted(Sorted(rs[..|rs| - 1]), Last(rs))
  }

  function Inserted(s: seq<Range>, r: Range): (t: seq<Range>)
    requires SortedByLo(s)
    ensures SortedByLo(t)
    ensures multiset(t) == multiset(s) + multiset{r}
    ensures t != [] && (Last(t) == r || (s != [] && Last(t) == Last(s)))
  {
    if s == [] || Last(s).lo <= r.lo then s + [r] else
      assert s == s[..|s| - 1] + [Last(s)];
      Inserted(s[..|s| - 1], r) + [Last(s)]
  }

  lemma SortedHolds(rs: seq<Range>, i: int)
    ensures Holds(Sorted(rs), i) <==> Holds(rs, i)
  {
    var s := Sorted(rs);
    if Holds(rs, i) {
      var k :| 0 <= k < |rs| && rs[k].lo <= i < rs[k].hi;
      assert rs[k] in multiset(s);
      var j :| 0 <= j < |s| && s[j] == rs[k];
    }
    if Holds(s, i) {
      var k :| 0 <= k < |s| && s[k].lo <= i < s[k].hi;
      assert s[k] in multiset(rs);
      var j :| 0 <= j < |rs| && rs[j] == s[k];
    }
  }
}
