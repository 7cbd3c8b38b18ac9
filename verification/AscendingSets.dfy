/** Python's `sorted` of a set of integers or dates: strictly ascending sequences. */
module AscendingSets {

  /** Some element of a set. */
  ghost function Pick<T>(s: set<T>): (r: T)
    requires s != {}
    ensures r in s
  {
    var x :| x in s; x
  }

  /** The next element of a set that is being iterated over, in no particular order. */
  method Choose<T>(s: set<T>) returns (r: T)
    requires s != {}
    ensures r in s
  {
    r :| r in s;
  }

  lemma SmallerSet<T>(a: set<T>, b: set<T>)
    requires a <= b
    ensures |a| <= |b|
    ensures |a| == |b| ==> a == b
  {
    assert b == a + (b - a);
    assert |b| == |a| + |b - a|;
  }

  ghost predicate Ascending(s: seq<int>) {
    forall i, j :: 0 <= i < j < |s| ==> s[i] < s[j]
  }

  lemma {:induction false} HasMinimum(s: set<int>)
    requires s != {}
    ensures exists m :: m in s && forall x :: x in s ==> m <= x
  {
    var y := Pick(s);
    var rest := s - {y};
    var least := y;
    if rest != {} {
      HasMinimum(rest);
      var m: int :| m in rest && forall x :: x in rest ==> m <= x;
      least := if m < y then m else y;
    }
    forall x | x in s ensures least <= x { assert x == y || x in rest; }
    assert least in s;
  }

  lemma AscendingCons(m: int, rest: seq<int>, s: set<int>)
    requires m in s && (forall x :: x in s ==> m <= x)
    requires Ascending(rest) && (forall x :: x in rest <==> x in s - {m})
    ensures Ascending([m] + rest) && (forall x :: x in [m] + rest <==> x in s)
  {
    var r := [m] + rest;
    forall i | 0 <= i < |rest| ensures m < rest[i] {
      assert rest[i] in rest;
    }
    forall x ensures x in r <==> x in s {
      assert x in r <==> x == m || x in rest;
    }
  }

  /** Python's `sorted` of a set of integers (or dates). */
  function SortedSet(s: set<int>): (r: seq<int>)
    ensures Ascending(r)
    ensures forall x :: x in r <==> x in s
    ensures |r| == |s|
  {
    if s == {} then []
    else
      HasMinimum(s);
      var m :| m in s && forall x :: x in s ==> m <= x;
      var rest := SortedSet(s - {m});
      AscendingCons(m, rest, s);
      [m] + rest
  }

  lemma FirstIsMember(s: seq<int>)
    ensures s != [] ==> s[0] in s
  {}

  /** A set has one ascending enumeration. */
  lemma {:induction false} AscendingUnique(a: seq<int>, b: seq<int>)
    requires Ascending(a) && Ascending(b)
    requires forall x :: x in a <==> x in b
    ensures a == b
  {
    if a == [] || b == [] {
      FirstIsMember(a);
      FirstIsMember(b);
    } else {
      assert a[0] in b && b[0] in a;
      assert a[0] == b[0];
      forall x ensures x in a[1..] <==> x in b[1..] {
        assert x in a[1..] <==> x in a && x != a[0];
        assert x in b[1..] <==> x in b && x != b[0];
      }
      AscendingUnique(a[1..], b[1..]);
      assert a == [a[0]] + a[1..] && b == [b[0]] + b[1..];
    }
  }
}
