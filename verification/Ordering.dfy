/** Strict orders, sorted sequences and the order of string tuples. */
module Ordering {

  function Elements<T>(xs: seq<T>): set<T> {
    set x | x in xs
  }

  ghost predicate OrdersAll<T(!new)>(less: (T, T) -> bool, s: set<T>) {
    && (forall x :: x in s ==> !less(x, x))
    && (forall x, y, z :: x in s && y in s && z in s && less(x, y) && less(y, z) ==> less(x, z))
    && (forall x, y :: x in s && y in s ==> x == y || less(x, y) || less(y, x))
  }

  ghost predicate IsOrder<T(!new)>(less: (T, T) -> bool) {
    && (forall x :: !less(x, x))
    && (forall x, y, z :: less(x, y) && less(y, z) ==> less(x, z))
    && (forall x, y :: x == y || less(x, y) || less(y, x))
  }

  ghost predicate Ascending<T(!new)>(less: (T, T) -> bool, xs: seq<T>) {
    forall i, j :: 0 <= i < j < |xs| ==> less(xs[i], xs[j])
  }

  // ----- sorting, repetitions removed

  function Place<T(==)>(less: (T, T) -> bool, x: T, xs: seq<T>): seq<T> {
    if xs == [] then [x]
    else if x == xs[0] then xs
    else if less(x, xs[0]) then [x] + xs
    else [xs[0]] + Place(less, x, xs[1..])
  }

  function Sorted<T(==)>(less: (T, T) -> bool, xs: seq<T>): seq<T> {
    if xs == [] then []
    else Place(less, xs[|xs| - 1], Sorted(less, xs[..|xs| - 1]))
  }

  lemma {:induction false} PlaceHolds<T(!new)>(less: (T, T) -> bool, x: T, xs: seq<T>)
    ensures Elements(Place(less, x, xs)) == Elements(xs) + {x}
  {
    if xs != [] {
      PlaceHolds(less, x, xs[1..]);
      assert xs == [xs[0]] + xs[1..];
      forall y ensures y in Place(less, x, xs) <==> y in xs || y == x {
        assert y in Place(less, x, xs[1..]) <==> y in Elements(Place(less, x, xs[1..]));
      }
    }
  }

  lemma {:induction false} PlaceKeepsOrder<T(!new)>(less: (T, T) -> bool, x: T, xs: seq<T>)
    requires OrdersAll(less, Elements(xs) + {x}) && Ascending(less, xs)
    ensures Ascending(less, Place(less, x, xs))
  {
    if xs != [] {
      var rest := xs[1..];
      assert Elements(rest) <= Elements(xs);
      PlaceKeepsOrder(less, x, rest);
      PlaceHolds(less, x, rest);
      var placed := Place(less, x, rest);
      if x != xs[0] && !less(x, xs[0]) {
        assert xs[0] in Elements(xs);
        forall j | 0 <= j < |placed| ensures less(xs[0], placed[j]) {
          assert placed[j] in Elements(placed);
        }
      } else if x != xs[0] {
        forall j | 0 <= j < |xs| ensures less(x, xs[j]) {
          assert xs[j] in Elements(xs) && xs[0] in Elements(xs);
        }
      }
    }
  }

  lemma {:induction false} SortedIsSorted<T(!new)>(less: (T, T) -> bool, xs: seq<T>)
    requires OrdersAll(less, Elements(xs))
    ensures Ascending(less, Sorted(less, xs))
    ensures Elements(Sorted(less, xs)) == Elements(xs)
  {
    if xs != [] {
      var n := |xs| - 1;
      assert Elements(xs) == Elements(xs[..n]) + {xs[n]} by {
        assert xs == xs[..n] + [xs[n]];
      }
      SortedIsSorted(less, xs[..n]);
      PlaceHolds(less, xs[n], Sorted(less, xs[..n]));
      PlaceKeepsOrder(less, xs[n], Sorted(less, xs[..n]));
    }
  }

  lemma HeadIsLeast<T(!new)>(less: (T, T) -> bool, xs: seq<T>, y: T)
    requires Ascending(less, xs) && y in Elements(xs)
    ensures y == xs[0] || less(xs[0], y)
  {
  }

  lemma AscendingHead<T(!new)>(less: (T, T) -> bool, xs: seq<T>, ys: seq<T>)
    requires OrdersAll(less, Elements(xs)) && Elements(xs) == Elements(ys)
    requires Ascending(less, xs) && Ascending(less, ys) && xs != [] && ys != []
    ensures xs[0] == ys[0]
  {
    assert xs[0] in Elements(xs) && ys[0] in Elements(ys);
    HeadIsLeast(less, xs, ys[0]);
    HeadIsLeast(less, ys, xs[0]);
  }

  lemma AscendingTail<T(!new)>(less: (T, T) -> bool, xs: seq<T>)
    requires xs != [] && OrdersAll(less, Elements(xs)) && Ascending(less, xs)
    ensures Elements(xs[1..]) == Elements(xs) - {xs[0]}
    ensures OrdersAll(less, Elements(xs[1..])) && Ascending(less, xs[1..])
  {
    assert xs[0] in Elements(xs);
    assert xs == [xs[0]] + xs[1..];
    assert Elements(xs[1..]) <= Elements(xs);
  }

  lemma OnlyEmptyHasNone<T>(xs: seq<T>)
    ensures Elements(xs) == {} <==> xs == []
  {
    assert xs == [] || xs[0] in Elements(xs);
  }

  /** A set has only one ascending enumeration. */
  lemma {:induction false} AscendingIsUnique<T(!new)>(less: (T, T) -> bool, xs: seq<T>, ys: seq<T>)
    requires OrdersAll(less, Elements(xs)) && Elements(xs) == Elements(ys)
    requires Ascending(less, xs) && Ascending(less, ys)
    ensures xs == ys
  {
    hide OrdersAll, Ascending;
    if xs != [] && ys != [] {
      AscendingHead(less, xs, ys);
      AscendingTail(less, xs);
      AscendingTail(less, ys);
      AscendingIsUnique(less, xs[1..], ys[1..]);
      assert xs == [xs[0]] + xs[1..] && ys == [ys[0]] + ys[1..];
    } else {
      OnlyEmptyHasNone(xs);
      OnlyEmptyHasNone(ys);
    }
  }

  // ----- lexicographic order

  predicate Lex<T(==)>(less: (T, T) -> bool, a: seq<T>, b: seq<T>) {
    b != [] && (a == [] || less(a[0], b[0]) || (a[0] == b[0] && Lex(less, a[1..], b[1..])))
  }

  lemma {:induction false} LexIrreflexive<T(!new)>(less: (T, T) -> bool, a: seq<T>)
    requires IsOrder(less)
    ensures !Lex(less, a, a)
  {
    if a != [] { LexIrreflexive(less, a[1..]); }
  }

  lemma {:induction false} LexTransitive<T(!new)>(less: (T, T) -> bool, a: seq<T>, b: seq<T>, c: seq<T>)
    requires IsOrder(less) && Lex(less, a, b) && Lex(less, b, c)
    ensures Lex(less, a, c)
  {
    if a != [] && a[0] == b[0] && b[0] == c[0] {
      LexTransitive(less, a[1..], b[1..], c[1..]);
    }
  }

  lemma {:induction false} LexTotal<T(!new)>(less: (T, T) -> bool, a: seq<T>, b: seq<T>)
    requires IsOrder(less)
    ensures a == b || Lex(less, a, b) || Lex(less, b, a)
  {
    if a != [] && b != [] && a[0] == b[0] {
      LexTotal(less, a[1..], b[1..]);
      assert a == [a[0]] + a[1..] && b == [b[0]] + b[1..];
    }
  }

  /** The first position at which two sequences differ decides, if both reach it. */
  lemma {:induction false} FirstDifferenceDecides<T(!new)>(less: (T, T) -> bool, a: seq<T>, b: seq<T>, k: nat)
    requires IsOrder(less) && k < |a| && k < |b| && a[..k] == b[..k] && a[k] != b[k]
    ensures Lex(less, a, b) <==> less(a[k], b[k])
  {
    if k > 0 {
      assert a[0] == a[..k][0] == b[..k][0] == b[0];
      assert a[1..][..k - 1] == a[..k][1..] && b[1..][..k - 1] == b[..k][1..];
      FirstDifferenceDecides(less, a[1..], b[1..], k - 1);
    }
  }

  lemma {:induction false} PrefixComesFirst<T(!new)>(less: (T, T) -> bool, a: seq<T>, b: seq<T>)
    requires IsOrder(less) && a <= b
    ensures Lex(less, a, b) <==> a != b
    ensures !Lex(less, b, a)
  {
    if a != [] {
      assert b[0] == a[0];
      PrefixComesFirst(less, a[1..], b[1..]);
      assert a == [a[0]] + a[1..] && b == [b[0]] + b[1..];
    }
  }

  predicate IntLess(a: int, b: int) { a < b }

  predicate PartLess(a: seq<int>, b: seq<int>) { Lex(IntLess, a, b) }

  predicate TupleLess(a: seq<seq<int>>, b: seq<seq<int>>) { Lex(PartLess, a, b) }

  lemma PartLessIsOrder()
    ensures IsOrder(PartLess)
  {
    assert IsOrder(IntLess);
    forall a ensures !PartLess(a, a) { LexIrreflexive(IntLess, a); }
    forall a, b, c | PartLess(a, b) && PartLess(b, c) ensures PartLess(a, c) { LexTransitive(IntLess, a, b, c); }
    forall a, b ensures a == b || PartLess(a, b) || PartLess(b, a) { LexTotal(IntLess, a, b); }
  }

  /** Tuples of numbers and strings are totally ordered. */
  lemma TupleLessIsOrder()
    ensures IsOrder(TupleLess)
  {
    PartLessIsOrder();
    forall a ensures !TupleLess(a, a) { LexIrreflexive(PartLess, a); }
    forall a, b, c | TupleLess(a, b) && TupleLess(b, c) ensures TupleLess(a, c) { LexTransitive(PartLess, a, b, c); }
    forall a, b ensures a == b || TupleLess(a, b) || TupleLess(b, a) { LexTotal(PartLess, a, b); }
  }

  // ----- strings as parts of a tuple

  function Chars(s: string): seq<int> {
    seq(|s|, i requires 0 <= i < |s| => s[i] as int)
  }

  lemma CharsInjective(s: string, t: string)
    requires Chars(s) == Chars(t)
    ensures s == t
  {
    assert |s| == |Chars(s)| == |Chars(t)| == |t|;
    forall i | 0 <= i < |s| ensures s[i] == t[i] {
      assert Chars(s)[i] == Chars(t)[i];
    }
  }

  /** `s` is a proper prefix of `t`, or has the smaller character at the first difference. */
  ghost predicate TextBefore(s: string, t: string) {
    exists k :: 0 <= k <= |s| && k < |t| && s[..k] == t[..k] && (k == |s| || s[k] < t[k])
  }

  lemma CharsPrefix(s: string, k: nat)
    requires k <= |s|
    ensures Chars(s)[..k] == Chars(s[..k])
  {
  }

  lemma {:induction false} SharedPrefix(s: string, t: string) returns (k: nat)
    ensures k <= |s| && k <= |t| && s[..k] == t[..k]
    ensures k < |s| && k < |t| ==> s[k] != t[k]
    decreases |s|
  {
    k := 0;
    if s != [] && t != [] && s[0] == t[0] {
      k := SharedPrefix(s[1..], t[1..]);
      k := k + 1;
      assert s == [s[0]] + s[1..] && t == [t[0]] + t[1..];
      assert s[..k] == [s[0]] + s[1..][..k - 1] && t[..k] == [t[0]] + t[1..][..k - 1];
    }
  }

  /** The order of strings is by their first difference. */
  lemma PartLessOfChars(s: string, t: string)
    ensures PartLess(Chars(s), Chars(t)) <==> TextBefore(s, t)
  {
    var k := SharedPrefix(s, t);
    var a, b := Chars(s), Chars(t);
    CharsPrefix(s, k);
    CharsPrefix(t, k);
    assert IsOrder(IntLess);
    if k < |s| && k < |t| {
      FirstDifferenceDecides(IntLess, a, b, k);
    } else if k == |s| {
      assert s[..k] == s && a[..k] == a;
      PrefixComesFirst(IntLess, a, b);
      if a == b {
        CharsInjective(s, t);
      }
      assert k < |t| ==> TextBefore(s, t);
    } else {
      assert t[..k] == t && b[..k] == b;
      PrefixComesFirst(IntLess, b, a);
    }
  }
}
