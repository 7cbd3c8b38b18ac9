/**
 Python's ordering and sorting, as the backtest relies on them: lexicographic
 comparison (of strings and of tuples) and the stable `list.sort`.
*/
module Ordering {

  // ----- Orders -----

  ghost predicate TotalPreorder<T(!new)>(le: (T, T) -> bool) {
    && (forall a, b :: le(a, b) || le(b, a))
    && (forall a, b, c :: le(a, b) && le(b, c) ==> le(a, c))
  }

  ghost predicate TotalOrder<T(!new)>(le: (T, T) -> bool) {
    && TotalPreorder(le)
    && (forall a, b :: le(a, b) && le(b, a) ==> a == b)
  }

  ghost predicate StrictTotalOrder<T(!new)>(lt: (T, T) -> bool) {
    && (forall a :: !lt(a, a))
    && (forall a, b :: a == b || lt(a, b) || lt(b, a))
    && (forall a, b, c :: lt(a, b) && lt(b, c) ==> lt(a, c))
  }

  /** Python's comparison of two strings, or of two tuples, element by element. */
  predicate Lex<T(==)>(lt: (T, T) -> bool, a: seq<T>, b: seq<T>) {
    || a == []
    || (b != [] && (lt(a[0], b[0]) || (a[0] == b[0] && Lex(lt, a[1..], b[1..]))))
  }

  lemma {:induction false} LexTotal<T(!new)>(lt: (T, T) -> bool, a: seq<T>, b: seq<T>)
    requires StrictTotalOrder(lt)
    ensures Lex(lt, a, b) || Lex(lt, b, a)
    ensures Lex(lt, a, b) && Lex(lt, b, a) ==> a == b
  {
    if a != [] && b != [] {
      LexTotal(lt, a[1..], b[1..]);
      assert a == [a[0]] + a[1..] && b == [b[0]] + b[1..];
    }
  }

  lemma {:induction false} LexTransitive<T(!new)>(lt: (T, T) -> bool, a: seq<T>, b: seq<T>, c: seq<T>)
    requires StrictTotalOrder(lt)
    requires Lex(lt, a, b) && Lex(lt, b, c)
    ensures Lex(lt, a, c)
  {
    if a != [] {
      if a[0] == b[0] == c[0] && !lt(a[0], a[0]) {
        LexTransitive(lt, a[1..], b[1..], c[1..]);
      }
    }
  }

  predicate CharLt(a: char, b: char) { a < b }

  /** `a <= b` on Python strings: by code point, a prefix first. */
  predicate StringLe(a: string, b: string) { Lex(CharLt, a, b) }

  lemma StringLeIsTotalOrder()
    ensures TotalOrder(StringLe)
  {
    forall a, b ensures StringLe(a, b) || StringLe(b, a)
                ensures StringLe(a, b) && StringLe(b, a) ==> a == b {
      LexTotal(CharLt, a, b);
    }
    forall a, b, c | StringLe(a, b) && StringLe(b, c) ensures StringLe(a, c) {
      LexTransitive(CharLt, a, b, c);
    }
  }

  /** Where two strings first differ decides, and a string comes after its own beginnings. */
  lemma {:induction false} StringLeMeans(a: string, b: string)
    ensures StringLe(a, b) <==> a <= b || exists i :: FirstLess(a, b, i)
  {
    if a != [] && b != [] && a[0] == b[0] {
      StringLeMeans(a[1..], b[1..]);
      forall i: nat ensures FirstLess(a[1..], b[1..], i) <==> FirstLess(a, b, i + 1) {
        if i < |a| - 1 && i < |b| - 1 { assert a[..i + 1] == [a[0]] + a[1..][..i] && b[..i + 1] == [b[0]] + b[1..][..i]; }
      }
      assert a == [a[0]] + a[1..] && b == [b[0]] + b[1..];
      if j :| FirstLess(a, b, j) { assert FirstLess(a[1..], b[1..], j - 1); }
      if j :| FirstLess(a[1..], b[1..], j) { assert FirstLess(a, b, j + 1); }
    } else if a != [] && b != [] {
      assert FirstLess(a, b, 0) <==> a[0] < b[0];
    }
  }

  /** They agree before `i`, and there `a` has the smaller character. */
  ghost predicate FirstLess(a: string, b: string, i: int) {
    0 <= i < |a| && i < |b| && a[..i] == b[..i] && a[i] < b[i]
  }

  predicate RealLe(a: real, b: real) { a <= b }

  predicate IntLe(a: int, b: int) { a <= b }

  /** Python's `max`, under any order. */
  function Greatest<T(!new)>(le: (T, T) -> bool, s: seq<T>): (m: T)
    requires s != []
    ensures exists i :: 0 <= i < |s| && s[i] == m
    ensures TotalPreorder(le) ==> forall i :: 0 <= i < |s| ==> le(s[i], m)
  {
    if |s| == 1 then s[0]
    else
      var rest := Greatest(le, s[1..]);
      assert forall i :: 0 < i < |s| ==> s[i] == s[1..][i - 1];
      if le(rest, s[0]) then s[0] else rest
  }

  // ----- Stable sorting -----

  ghost predicate Sorted<T>(le: (T, T) -> bool, s: seq<T>) {
    forall i, j :: 0 <= i < j < |s| ==> le(s[i], s[j])
  }

  /** The elements of `s` that compare equal to `x`, in their order in `s`. */
  function Ties<T>(le: (T, T) -> bool, x: T, s: seq<T>): seq<T> {
    if s == [] then []
    else (if le(x, s[0]) && le(s[0], x) then [s[0]] else []) + Ties(le, x, s[1..])
  }

  /** `out` is what a stable sort of `s` may return. */
  ghost predicate IsStableSortOf<T(!new)>(le: (T, T) -> bool, s: seq<T>, out: seq<T>) {
    && Sorted(le, out)
    && multiset(out) == multiset(s)
    && (forall x :: Ties(le, x, out) == Ties(le, x, s))
  }

  function Insert<T>(le: (T, T) -> bool, x: T, s: seq<T>): seq<T> {
    if s == [] || le(x, s[0]) then [x] + s else [s[0]] + Insert(le, x, s[1..])
  }

  function StableSort<T>(le: (T, T) -> bool, s: seq<T>): seq<T> {
    if s == [] then [] else Insert(le, s[0], StableSort(le, s[1..]))
  }

  lemma {:induction false} InsertMultiset<T>(le: (T, T) -> bool, x: T, s: seq<T>)
    ensures multiset(Insert(le, x, s)) == multiset{x} + multiset(s)
  {
    if s != [] && !le(x, s[0]) {
      InsertMultiset(le, x, s[1..]);
      assert s == [s[0]] + s[1..];
    }
  }

  lemma {:induction false} InsertSorted<T(!new)>(le: (T, T) -> bool, x: T, s: seq<T>)
    requires TotalPreorder(le) && Sorted(le, s)
    ensures Sorted(le, Insert(le, x, s))
  {
    if s == [] || le(x, s[0]) {
      assert forall j :: 0 < j < |s| ==> le(s[0], s[j]);
    } else {
      var tail := Insert(le, x, s[1..]);
      InsertSorted(le, x, s[1..]);
      InsertMultiset(le, x, s[1..]);
      forall j | 0 <= j < |tail| ensures le(s[0], tail[j]) {
        assert tail[j] in multiset(tail);
        assert tail[j] == x || tail[j] in s[1..];
      }
    }
  }

  lemma {:induction false} InsertTies<T(!new)>(le: (T, T) -> bool, x: T, s: seq<T>, y: T)
    requires TotalPreorder(le)
    ensures Ties(le, y, Insert(le, x, s)) == Ties(le, y, [x] + s)
  {
    assert ([x] + s)[1..] == s;
    if s != [] && !le(x, s[0]) {
      InsertTies(le, x, s[1..], y);
      assert ([x] + s[1..])[1..] == s[1..];
      assert ([s[0]] + Insert(le, x, s[1..]))[1..] == Insert(le, x, s[1..]);
      var head := s[0];
      assert !(le(y, head) && le(x, y));  // x and the head do not tie, so at most one ties with y
    }
  }

  lemma {:induction false} StableSortIsStableSort<T(!new)>(le: (T, T) -> bool, s: seq<T>)
    requires TotalPreorder(le)
    ensures IsStableSortOf(le, s, StableSort(le, s))
  {
    if s != [] {
      var tail := StableSort(le, s[1..]);
      StableSortIsStableSort(le, s[1..]);
      InsertSorted(le, s[0], tail);
      InsertMultiset(le, s[0], tail);
      assert s == [s[0]] + s[1..];
      forall y ensures Ties(le, y, StableSort(le, s)) == Ties(le, y, s) {
        InsertTies(le, s[0], tail, y);
        assert ([s[0]] + tail)[1..] == tail;
      }
    }
  }

  lemma {:induction false} TiesMember<T>(le: (T, T) -> bool, x: T, s: seq<T>, y: T)
    ensures y in Ties(le, x, s) <==> y in s && le(x, y) && le(y, x)
  {
    if s != [] {
      TiesMember(le, x, s[1..], y);
      assert s == [s[0]] + s[1..];
    }
  }

  /** There is only one stable sort, so which algorithm computes it does not matter. */
  lemma {:induction false} StableSortUnique<T(!new)>(le: (T, T) -> bool, a: seq<T>, b: seq<T>)
    requires TotalPreorder(le) && Sorted(le, a) && Sorted(le, b)
    requires forall x :: Ties(le, x, a) == Ties(le, x, b)
    ensures a == b
  {
    if a == [] || b == [] {
      assert a != [] ==> Ties(le, a[0], a) != [];
      assert b != [] ==> Ties(le, b[0], b) != [];
    } else {
      FirstTiesAgree(le, a, b);
      forall x ensures Ties(le, x, a[1..]) == Ties(le, x, b[1..]) { DropTie(le, x, a, b); }
      StableSortUnique(le, a[1..], b[1..]);
      assert a == [a[0]] + a[1..] && b == [b[0]] + b[1..];
    }
  }

  lemma FirstTiesAgree<T(!new)>(le: (T, T) -> bool, a: seq<T>, b: seq<T>)
    requires TotalPreorder(le) && Sorted(le, a) && Sorted(le, b) && a != [] && b != []
    requires forall x :: Ties(le, x, a) == Ties(le, x, b)
    ensures a[0] == b[0]
  {
    assert Ties(le, a[0], a)[0] == a[0] && Ties(le, b[0], b)[0] == b[0];
    TiesMember(le, a[0], b, a[0]);
    TiesMember(le, b[0], a, b[0]);
    HeadIsLeast(le, b, a[0]);
    HeadIsLeast(le, a, b[0]);
  }

  lemma DropTie<T>(le: (T, T) -> bool, x: T, a: seq<T>, b: seq<T>)
    requires a != [] && b != [] && a[0] == b[0] && Ties(le, x, a) == Ties(le, x, b)
    ensures Ties(le, x, a[1..]) == Ties(le, x, b[1..])
  {
    var head := if le(x, a[0]) && le(a[0], x) then [a[0]] else [];
    assert Ties(le, x, a[1..]) == (head + Ties(le, x, a[1..]))[|head|..];
    assert Ties(le, x, b[1..]) == (head + Ties(le, x, b[1..]))[|head|..];
  }

  /** Under a total order a sorted sequence is determined by its elements alone. */
  lemma {:induction false} SortedUnique<T(!new)>(le: (T, T) -> bool, a: seq<T>, b: seq<T>)
    requires TotalOrder(le) && Sorted(le, a) && Sorted(le, b)
    requires multiset(a) == multiset(b)
    ensures a == b
  {
    assert |a| == |multiset(a)| == |multiset(b)| == |b|;
    if a != [] {
      HeadsAgree(le, a, b);
      DropHead(a);
      DropHead(b);
      SortedUnique(le, a[1..], b[1..]);
      assert a == [a[0]] + a[1..] && b == [b[0]] + b[1..];
    }
  }

  lemma HeadIsLeast<T(!new)>(le: (T, T) -> bool, s: seq<T>, x: T)
    requires TotalPreorder(le) && Sorted(le, s) && s != [] && x in multiset(s)
    ensures le(s[0], x)
  {
    var i :| 0 <= i < |s| && s[i] == x;
    assert le(s[0], s[0]);
  }

  lemma HeadsAgree<T(!new)>(le: (T, T) -> bool, a: seq<T>, b: seq<T>)
    requires TotalOrder(le) && Sorted(le, a) && Sorted(le, b)
    requires a != [] && b != [] && multiset(a) == multiset(b)
    ensures a[0] == b[0]
  {
    assert a[0] in multiset(a) && b[0] in multiset(b);
    HeadIsLeast(le, a, b[0]);
    HeadIsLeast(le, b, a[0]);
  }

  lemma DropHead<T>(s: seq<T>)
    requires s != []
    ensures multiset(s[1..]) == multiset(s) - multiset{s[0]}
  {
    assert s == [s[0]] + s[1..];
  }

  // ----- `list.sort(key=..., reverse=...)` -----

  function Reverse<T>(s: seq<T>): (r: seq<T>)
    ensures |r| == |s| && forall i :: 0 <= i < |s| ==> r[i] == s[|s| - 1 - i]
  {
    if s == [] then [] else Reverse(s[1..]) + [s[0]]
  }

  /** The order in a chosen direction. */
  function Directed<T>(le: (T, T) -> bool, reverse: bool): (T, T) -> bool {
    if reverse then (a, b) => le(b, a) else le
  }

  /** Sorting backwards turns the list round, sorts it stably, and turns it back, so that
      equal elements keep their order in both directions. */
  function ListSort<T>(le: (T, T) -> bool, reverse: bool, s: seq<T>): seq<T> {
    if reverse then Reverse(StableSort(le, Reverse(s))) else StableSort(le, s)
  }

  lemma {:induction false} ReverseMultiset<T>(s: seq<T>)
    ensures multiset(Reverse(s)) == multiset(s)
  {
    if s != [] {
      ReverseMultiset(s[1..]);
      assert s == [s[0]] + s[1..];
    }
  }

  lemma {:induction false} TiesAppend<T>(le: (T, T) -> bool, x: T, a: seq<T>, b: seq<T>)
    ensures Ties(le, x, a + b) == Ties(le, x, a) + Ties(le, x, b)
  {
    if a == [] {
      assert a + b == b;
    } else {
      TiesAppend(le, x, a[1..], b);
      var head := if le(x, a[0]) && le(a[0], x) then [a[0]] else [];
      assert (a + b)[0] == a[0] && (a + b)[1..] == a[1..] + b;
      assert head + (Ties(le, x, a[1..]) + Ties(le, x, b)) == (head + Ties(le, x, a[1..])) + Ties(le, x, b);
    }
  }

  lemma TiesOne<T>(le: (T, T) -> bool, x: T, y: T)
    ensures Ties(le, x, [y]) == if le(x, y) && le(y, x) then [y] else []
  {
    assert [y][1..] == [];
  }

  lemma {:induction false} TiesReverse<T>(le: (T, T) -> bool, x: T, s: seq<T>)
    ensures Ties(le, x, Reverse(s)) == Reverse(Ties(le, x, s))
  {
    if s != [] {
      TiesReverse(le, x, s[1..]);
      TiesAppend(le, x, Reverse(s[1..]), [s[0]]);
      TiesOne(le, x, s[0]);
      var rest := Ties(le, x, s[1..]);
      if le(x, s[0]) && le(s[0], x) {
        assert ([s[0]] + rest)[1..] == rest;
      } else {
        assert [] + rest == rest && Reverse(rest) + [] == Reverse(rest);
      }
    }
  }

  lemma {:induction false} TiesFlip<T>(le: (T, T) -> bool, x: T, s: seq<T>)
    ensures Ties(Directed(le, true), x, s) == Ties(le, x, s)
  {
    if s != [] { TiesFlip(le, x, s[1..]); }
  }

  lemma ReverseSorted<T(!new)>(le: (T, T) -> bool, s: seq<T>)
    requires Sorted(le, s)
    ensures Sorted(Directed(le, true), Reverse(s))
  {
    var r := Reverse(s);
    forall i, j | 0 <= i < j < |r| ensures le(r[j], r[i]) {
      assert r[i] == s[|s| - 1 - i] && r[j] == s[|s| - 1 - j];
    }
  }

  /** In both directions the outcome is a stable sort under the directed order. */
  lemma ListSortIsStable<T(!new)>(le: (T, T) -> bool, reverse: bool, s: seq<T>)
    requires TotalPreorder(le)
    ensures IsStableSortOf(Directed(le, reverse), s, ListSort(le, reverse, s))
  {
    if reverse {
      var turned := Reverse(s);
      StableSortIsStableSort(le, turned);
      ReverseMultiset(s);
      ReverseMultiset(StableSort(le, turned));
      ReverseSorted(le, StableSort(le, turned));
      forall x ensures Ties(Directed(le, true), x, ListSort(le, true, s)) == Ties(Directed(le, true), x, s) {
        TiesFlip(le, x, s);
        TiesFlip(le, x, ListSort(le, true, s));
        TiesReverse(le, x, StableSort(le, turned));
        TiesReverse(le, x, s);
        var ties := Ties(le, x, s);
        assert Reverse(Reverse(ties)) == ties;
      }
    } else {
      StableSortIsStableSort(le, s);
    }
  }

  /** A prefix of a sorted list keeps the least elements: none of the rest precedes them. */
  lemma PrefixIsLeast<T>(le: (T, T) -> bool, s: seq<T>, k: nat)
    requires Sorted(le, s) && k <= |s|
    ensures Sorted(le, s[..k]) && multiset(s[..k]) <= multiset(s)
    ensures forall kept, cut :: kept in s[..k] && cut in multiset(s) - multiset(s[..k]) ==> le(kept, cut)
  {
    assert s == s[..k] + s[k..];
    assert multiset(s) - multiset(s[..k]) == multiset(s[k..]);
    forall kept, cut | kept in s[..k] && cut in multiset(s[k..]) ensures le(kept, cut) {
      var i :| 0 <= i < k && s[..k][i] == kept;
      var j :| 0 <= j < |s| - k && s[k..][j] == cut;
      assert s[i] == kept && s[k + j] == cut;
    }
  }
}
