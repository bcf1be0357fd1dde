/** The iteration order of the source's ordered containers: a `std::map` or
    `std::set` with an integer key is walked in strictly ascending key order. */
module OrderedKeys {

  ghost predicate Ascending(s: seq<int>) {
    forall i, j :: 0 <= i < j < |s| ==> s[i] < s[j]
  }

  lemma Pick<T>(s: set<T>) returns (x: T)
    requires s != {}
    ensures x in s
  {
    x :| x in s;
  }

  predicate Least(x: int, s: set<int>) {
    x in s && forall y :: y in s ==> x <= y
  }

  lemma {:induction false} HasMinimum(s: set<int>, bound: int) returns (m: int)
    requires bound in s
    ensures Least(m, s)
    decreases |s|
  {
    m := bound;
    if y :| y in s && y < bound {
      m := HasMinimum(s - {bound}, y);
      forall z | z in s ensures m <= z {
        assert y in s - {bound} && (z == bound || z in s - {bound});
      }
    }
  }

  function Minimum(s: set<int>): (x: int)
    requires s != {}
    ensures x in s && forall y :: y in s ==> x <= y
  {
    assert exists x :: Least(x, s) by {
      var x := Pick(s);
      var m := HasMinimum(s, x);
    }
    var x :| Least(x, s);
    x
  }

  /** The keys of a container in the order in which it is walked. */
  function Sorted(s: set<int>): (r: seq<int>)
    ensures Ascending(r)
    ensures forall x :: x in r <==> x in s
    ensures |r| == |s|
    decreases |s|
  {
    if s == {} then []
    else
      var m := Minimum(s);
      assert |s - {m}| < |s|;
      [m] + Sorted(s - {m})
  }
}
