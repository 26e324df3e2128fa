/**
 * The `order by com_id` and `order by com_id desc` of the store's queries:
 * the ids of a finite set of rows listed in increasing or decreasing order.
 */
module Ordering {

  /** A non-empty set has an element (stated so that `:|` can pick one). */
  lemma NonEmpty(s: set<int>)
    requires s != {}
    ensures exists y :: y in s
  {
    if forall y :: y !in s {
      assert false;
    }
  }

  ghost predicate IsLeast(m: int, s: set<int>) {
    m in s && forall x :: x in s ==> m <= x
  }

  ghost predicate IsGreatest(m: int, s: set<int>) {
    m in s && forall x :: x in s ==> x <= m
  }

  lemma {:induction false} LeastExists(s: set<int>)
    requires s != {}
    ensures exists m :: IsLeast(m, s)
    decreases |s|
  {
    NonEmpty(s);
    var y :| y in s;
    var rest := s - {y};
    if rest == {} {
      assert s == {y};
      assert IsLeast(y, s);
    } else {
      LeastExists(rest);
      var m :| IsLeast(m, rest);
      assert s == rest + {y};
      if y < m {
        assert IsLeast(y, s);
      } else {
        assert IsLeast(m, s);
      }
    }
  }

  lemma {:induction false} GreatestExists(s: set<int>)
    requires s != {}
    ensures exists m :: IsGreatest(m, s)
    decreases |s|
  {
    NonEmpty(s);
    var y :| y in s;
    var rest := s - {y};
    if rest == {} {
      assert s == {y};
      assert IsGreatest(y, s);
    } else {
      GreatestExists(rest);
      var m :| IsGreatest(m, rest);
      assert s == rest + {y};
      if m < y {
        assert IsGreatest(y, s);
      } else {
        assert IsGreatest(m, s);
      }
    }
  }

  /** The smallest element of a non-empty set. */
  function Least(s: set<int>): (m: int)
    requires s != {}
    ensures m in s && forall x :: x in s ==> m <= x
  {
    LeastExists(s);
    var m :| m in s && forall x :: x in s ==> m <= x; m
  }

  /** The largest element of a non-empty set. */
  function Greatest(s: set<int>): (m: int)
    requires s != {}
    ensures m in s && forall x :: x in s ==> x <= m
  {
    GreatestExists(s);
    var m :| m in s && forall x :: x in s ==> x <= m; m
  }

  ghost predicate Increasing(r: seq<int>) {
    forall i, j :: 0 <= i < j < |r| ==> r[i] < r[j]
  }

  ghost predicate Decreasing(r: seq<int>) {
    forall i, j :: 0 <= i < j < |r| ==> r[i] > r[j]
  }

  /** The elements of `s`, each once, smallest first. */
  function Ascending(s: set<int>): (r: seq<int>)
    ensures |r| == |s|
    ensures forall x :: x in r <==> x in s
    ensures Increasing(r)
    decreases |s|
  {
    if s == {} then []
    else
      var m := Least(s);
      [m] + Ascending(s - {m})
  }

  /** The elements of `s`, each once, largest first. */
  function Descending(s: set<int>): (r: seq<int>)
    ensures |r| == |s|
    ensures forall x :: x in r <==> x in s
    ensures Decreasing(r)
    decreases |s|
  {
    if s == {} then []
    else
      var m := Greatest(s);
      [m] + Descending(s - {m})
  }

  /** The elements of `r` are exactly those of `s`. */
  ghost predicate Lists(r: seq<int>, s: set<int>) {
    forall x :: x in r <==> x in s
  }

  lemma HeadIsGreatest(s: set<int>, r: seq<int>)
    requires Decreasing(r) && Lists(r, s) && r != []
    ensures IsGreatest(r[0], s)
  {
    forall x | x in s ensures x <= r[0] {
      var i :| 0 <= i < |r| && r[i] == x;
      assert i == 0 || r[0] > r[i];
    }
  }

  lemma TailLists(s: set<int>, r: seq<int>)
    requires Decreasing(r) && Lists(r, s) && r != []
    ensures Decreasing(r[1..]) && Lists(r[1..], s - {r[0]})
  {
    forall x ensures x in r[1..] <==> x in s - {r[0]} {
      if x in r[1..] {
        var i :| 1 <= i < |r| && r[i] == x;
        assert r[0] > r[i];
      }
      if x in s - {r[0]} {
        var i :| 0 <= i < |r| && r[i] == x;
        assert r[1..][i - 1] == x;
      }
    }
  }

  /** A decreasing listing of a set is unique: it is the one `Descending` gives. */
  lemma {:induction false} DescendingUnique(s: set<int>, r: seq<int>)
    requires Decreasing(r) && Lists(r, s)
    ensures r == Descending(s)
    decreases |r|
  {
    if r == [] {
      assert s == {};
    } else {
      HeadIsGreatest(s, r);
      TailLists(s, r);
      DescendingUnique(s - {r[0]}, r[1..]);
      var g := Greatest(s);
      assert g == r[0];
      assert Descending(s) == [g] + Descending(s - {g});
      assert r == [r[0]] + r[1..];
    }
  }
}
