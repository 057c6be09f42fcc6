/** Cardinalities of finite sets of integers. */
module Counting {

  predicate Below(x: int, n: nat) {
    0 <= x < n
  }

  function Range(n: nat): (r: set<int>) {
    set x: int | 0 <= x < n && Below(x, n)
  }

  lemma {:induction false} RangeSize(n: nat)
    ensures |Range(n)| == n
  {
    if n > 0 {
      RangeSize(n - 1);
      assert Range(n) == Range(n - 1) + {n - 1};
    } else {
      assert Range(0) == {};
    }
  }

  ghost predicate Injective(s: set<int>, f: int -> int) {
    forall x, y :: x in s && y in s && f(x) == f(y) ==> x == y
  }

  function Image(s: set<int>, f: int -> int): set<int> {
    set x | x in s :: f(x)
  }

  lemma Element(s: set<int>) returns (x: int)
    requires s != {}
    ensures x in s
  {
    if forall y :: y !in s { assert false; }
    x :| x in s;
  }

  lemma {:induction false} ImageSize(s: set<int>, f: int -> int)
    requires Injective(s, f)
    ensures |Image(s, f)| == |s|
    decreases |s|
  {
    if s == {} {
      assert Image(s, f) == {};
    } else {
      var x := Element(s);
      ImageSize(s - {x}, f);
      assert Image(s, f) == Image(s - {x}, f) + {f(x)};
    }
  }

  lemma SubsetSize(s: set<int>, t: set<int>)
    requires s <= t
    ensures |s| <= |t|
    ensures |s| == |t| ==> s == t
  {
    assert t == s + (t - s);
  }

  /** f pairs the elements of s with those of t one to one. */
  ghost predicate Bijection(s: set<int>, t: set<int>, f: int -> int) {
    && Injective(s, f)
    && (forall x :: x in s ==> f(x) in t)
    && (forall y :: y in t ==> exists x :: x in s && f(x) == y)
  }

  lemma BijectionSize(s: set<int>, t: set<int>, f: int -> int)
    requires Bijection(s, t, f)
    ensures |s| == |t|
  {
    ImageSize(s, f);
    forall y | y in t ensures y in Image(s, f) {}
    assert Image(s, f) == t;
  }

  /** An injection of [0, n) into itself reaches every element. */
  lemma Pigeonhole(n: nat, f: int -> int)
    requires Injective(Range(n), f)
    requires forall x :: x in Range(n) ==> f(x) in Range(n)
    ensures Bijection(Range(n), Range(n), f)
  {
    ImageSize(Range(n), f);
    forall y | y in Image(Range(n), f) ensures y in Range(n) {}
    SubsetSize(Image(Range(n), f), Range(n));
  }

  lemma Preimage(s: set<int>, t: set<int>, f: int -> int, y: int) returns (x: int)
    requires Bijection(s, t, f) && y in t
    ensures x in s && f(x) == y
  {
    x :| x in s && f(x) == y;
  }

  /** A bijection pairs every part of its range with as many elements. */
  lemma PreimagesSize(s: set<int>, t: set<int>, f: int -> int, part: set<int>)
    requires Bijection(s, t, f) && part <= t
    ensures |set x | x in s && f(x) in part| == |part|
  {
    var pre := set x | x in s && f(x) in part;
    forall y | y in part ensures exists x :: x in pre && f(x) == y {
      var x := Preimage(s, t, f, y);
      assert x in pre;
    }
    BijectionSize(pre, part, f);
  }
}
