/** Strings as JavaScript orders, sorts and searches them. */
module Text {

  /** The code-unit order that `Array.prototype.sort` uses on strings. */
  predicate Less(a: string, b: string) {
    if b == [] then false
    else if a == [] then true
    else a[0] < b[0] || (a[0] == b[0] && Less(a[1..], b[1..]))
  }

  lemma LessIrreflexive(a: string)
    ensures !Less(a, a)
  {
  }

  lemma LessTransitive(a: string, b: string, c: string)
    requires Less(a, b) && Less(b, c)
    ensures Less(a, c)
  {
  }

  lemma {:induction false} LessTotal(a: string, b: string)
    ensures a == b || Less(a, b) || Less(b, a)
  {
    if a != [] && b != [] && a[0] == b[0] {
      LessTotal(a[1..], b[1..]);
      assert a == [a[0]] + a[1..] && b == [b[0]] + b[1..];
    }
  }

  predicate IsLeast(x: string, xs: set<string>) {
    x in xs && forall y | y in xs :: x == y || Less(x, y)
  }

  lemma {:induction false} LeastExists(xs: set<string>)
    requires xs != {}
    ensures exists x :: IsLeast(x, xs)
  {
    var x :| x in xs;
    if xs == {x} {
      assert IsLeast(x, xs);
    } else {
      LeastExists(xs - {x});
      var y :| IsLeast(y, xs - {x});
      LessTotal(x, y);
      if Less(x, y) {
        forall z | z in xs ensures x == z || Less(x, z) {
          if z != x && z != y { LessTransitive(x, y, z); }
        }
        assert IsLeast(x, xs);
      } else {
        assert IsLeast(y, xs);
      }
    }
  }

  lemma LeastUnique(x: string, y: string, xs: set<string>)
    requires IsLeast(x, xs) && IsLeast(y, xs)
    ensures x == y
  {
    if x != y {
      LessTransitive(x, y, x);
      LessIrreflexive(x);
    }
  }

  function Least(xs: set<string>): (x: string)
    requires xs != {}
    ensures IsLeast(x, xs)
  {
    LeastExists(xs);
    assert forall x, y | IsLeast(x, xs) && IsLeast(y, xs) :: x == y by {
      forall x, y | IsLeast(x, xs) && IsLeast(y, xs) ensures x == y { LeastUnique(x, y, xs); }
    }
    var x :| x in xs && IsLeast(x, xs);
    x
  }

  predicate Ascending(s: seq<string>) {
    forall i, j | 0 <= i < j < |s| :: Less(s[i], s[j])
  }

  /** `[...new Set(values)].sort()`: the distinct values in ascending order. */
  function Sorted(xs: set<string>): (s: seq<string>)
    ensures Ascending(s)
    ensures forall x :: x in s <==> x in xs
  {
    if xs == {} then []
    else
      var x := Least(xs);
      [x] + Sorted(xs - {x})
  }

  /** An ascending list is determined by the set of its elements. */
  lemma {:induction false} AscendingUnique(a: seq<string>, b: seq<string>)
    requires Ascending(a) && Ascending(b)
    requires forall x :: x in a <==> x in b
    ensures a == b
  {
    assert forall i | 0 <= i < |a| :: a[i] in b;
    assert forall i | 0 <= i < |b| :: b[i] in a;
    if a != [] && b != [] {
      assert a[0] in b && b[0] in a;
      if a[0] != b[0] {
        LessTransitive(a[0], b[0], a[0]);
        LessIrreflexive(a[0]);
      }
      assert a == [a[0]] + a[1..] && b == [b[0]] + b[1..];
      forall x ensures x in a[1..] <==> x in b[1..] {
        LessIrreflexive(a[0]);
        assert x in a <==> x == a[0] || x in a[1..];
        assert x in b <==> x == b[0] || x in b[1..];
        assert a[0] !in a[1..] && b[0] !in b[1..];
      }
      AscendingUnique(a[1..], b[1..]);
    }
  }

  lemma SortedIsSame(a: set<string>, b: set<string>)
    ensures Sorted(a) == Sorted(b) <==> a == b
  {
    if Sorted(a) == Sorted(b) {
      assert forall x :: x in a <==> x in Sorted(a);
    }
  }

  /** `String.prototype.lastIndexOf` for one character; -1 when it is absent. */
  function LastIndexOf(s: string, c: char): (i: int)
    ensures -1 <= i < |s|
    ensures i >= 0 ==> s[i] == c
    ensures forall j | i < j < |s| :: s[j] != c
  {
    if s == [] then -1
    else if s[|s| - 1] == c then |s| - 1
    else LastIndexOf(s[..|s| - 1], c)
  }
}
