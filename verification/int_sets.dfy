/** Finite sets of integer ids and their ascending order, as
    `sorted(d.keys())` gives for the page and entry dictionaries. */
module IntSets {

  /** A set with no members is the empty set. */
  lemma NoMemberEmpty(s: set<int>)
    ensures (forall e :: e !in s) ==> s == {}
  {
    if forall e :: e !in s {
      assert s == {};
    }
  }

  /** `m` is the least member of `s`. */
  predicate IsMin(m: int, s: set<int>)
  {
    m in s && forall x :: x in s ==> m <= x
  }

  /** A non-empty finite set of integers has a least element. */
  lemma {:induction false} MinExists(s: set<int>)
    requires s != {}
    ensures exists m :: IsMin(m, s)
    decreases |s|
  {
    NoMemberEmpty(s);
    var y :| y in s;
    if !IsMin(y, s) {
      var z :| z in s && z < y;
      var rest := s - {y};
      assert z in rest;
      MinExists(rest);
      var m :| IsMin(m, rest);
      forall x | x in s
        ensures m <= x
      {
        if x != y {
          assert x in rest;
        }
      }
      assert IsMin(m, s);
    }
  }

  /** The least member of a non-empty set. */
  function MinOf(s: set<int>): (m: int)
    requires s != {}
    ensures IsMin(m, s)
  {
    MinExists(s);
    var m :| IsMin(m, s);
    m
  }

  /** `r` holds exactly the members of `s`, in ascending order. */
  predicate IsSortedOf(r: seq<int>, s: set<int>)
  {
    && |r| == |s|
    && (forall x :: x in s ==> x in r)
    && (forall x :: x in r ==> x in s)
    && (forall i, j :: 0 <= i < j < |r| ==> r[i] < r[j])
  }

  /** The members of `s` in ascending order: the one sequence that holds
      them all, strictly increasing. */
  function SortedIds(s: set<int>): (r: seq<int>)
    ensures |r| == |s|
    ensures forall x :: x in s <==> x in r
    ensures forall i, j :: 0 <= i < j < |r| ==> r[i] < r[j]
  {
    SortedExists(s);
    SortedUnique(s);
    var r :| IsSortedOf(r, s);
    r
  }

  /** Every finite set of integers can be listed in ascending order: its
      least member, then the rest listed the same way. */
  lemma {:induction false} SortedExists(s: set<int>)
    ensures exists r :: IsSortedOf(r, s)
    decreases |s|
  {
    if s == {} {
      assert IsSortedOf([], s);
    } else {
      var m := MinOf(s);
      var rest := s - {m};
      SortedExists(rest);
      var r' :| IsSortedOf(r', rest);
      var r := [m] + r';
      forall x | x in s
        ensures x in r
      {
        if x != m {
          assert x in rest;
        }
      }
      forall i, j | 0 <= i < j < |r|
        ensures r[i] < r[j]
      {
        if i == 0 {
          assert r[j] == r'[j - 1] && r[j] in rest;
        } else {
          assert r[i] == r'[i - 1] && r[j] == r'[j - 1];
        }
      }
      assert IsSortedOf(r, s);
    }
  }

  /** There is only one such listing. */
  lemma SortedUnique(s: set<int>)
    ensures forall r1, r2 :: IsSortedOf(r1, s) && IsSortedOf(r2, s) ==> r1 == r2
  {
    forall r1, r2 | IsSortedOf(r1, s) && IsSortedOf(r2, s)
      ensures r1 == r2
    {
      SortedPairEqual(s, r1, r2);
    }
  }

  /** The first member of an ascending listing is the least member. */
  lemma HeadIsMin(r: seq<int>, s: set<int>)
    requires IsSortedOf(r, s) && s != {}
    ensures IsMin(r[0], s)
  {
    forall x | x in s
      ensures r[0] <= x
    {
      var k :| 0 <= k < |r| && r[k] == x;
    }
  }

  lemma {:induction false} SortedPairEqual(s: set<int>, r1: seq<int>, r2: seq<int>)
    requires IsSortedOf(r1, s) && IsSortedOf(r2, s)
    ensures r1 == r2
    decreases |s|
  {
    if s != {} {
      HeadIsMin(r1, s);
      HeadIsMin(r2, s);
      var m := r1[0];
      assert r2[0] == m;
      var rest := s - {m};
      assert IsSortedOf(r1[1..], rest) by {
        forall x | x in rest
          ensures x in r1[1..]
        {
          var k :| 0 <= k < |r1| && r1[k] == x;
        }
      }
      assert IsSortedOf(r2[1..], rest) by {
        forall x | x in rest
          ensures x in r2[1..]
        {
          var k :| 0 <= k < |r2| && r2[k] == x;
        }
      }
      SortedPairEqual(rest, r1[1..], r2[1..]);
      assert r1 == [m] + r1[1..] && r2 == [m] + r2[1..];
    }
  }

  /** The position of `x` in a sequence that holds it. */
  function IndexOf(r: seq<int>, x: int): (i: int)
    requires x in r
    ensures 0 <= i < |r| && r[i] == x
    ensures forall j :: 0 <= j < i ==> r[j] != x
  {
    if r[0] == x then 0 else 1 + IndexOf(r[1..], x)
  }
}
