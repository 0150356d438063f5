/** The lexicographic order on strings, and lists of names sorted by it. */
module Lexicographic {
  import opened Blocks

  /** Negative, zero or positive as a comes before, equals or comes after b. */
  function Compare(a: string, b: string): (r: int)
    ensures r == 0 <==> a == b
    ensures -1 <= r <= 1
  {
    if a == [] && b == [] then 0
    else if a == [] then -1
    else if b == [] then 1
    else if a[0] != b[0] then (if a[0] < b[0] then -1 else 1)
    else
      assert a == [a[0]] + a[1..] && b == [b[0]] + b[1..];
      Compare(a[1..], b[1..])
  }

  predicate Less(a: string, b: string) {
    Compare(a, b) < 0
  }

  /** A string is less than another one if it ends, or has the lesser character, where they first differ. */
  lemma {:induction false} LessAtFirstDifference(a: string, b: string)
    ensures Less(a, b) <==> exists k :: 0 <= k <= |a| && k < |b| && a[..k] == b[..k] && (k == |a| || a[k] < b[k])
  {
    if a != [] && b != [] && a[0] == b[0] {
      LessAtFirstDifference(a[1..], b[1..]);
      if k :| 0 <= k <= |a| && k < |b| && a[..k] == b[..k] && (k == |a| || a[k] < b[k]) {
        assert k > 0 && a[1..][..k - 1] == a[..k][1..] && b[1..][..k - 1] == b[..k][1..];
      }
      if Less(a, b) {
        var k :| 0 <= k <= |a| - 1 && k < |b| - 1 && a[1..][..k] == b[1..][..k]
                 && (k == |a| - 1 || a[1..][k] < b[1..][k]);
        assert a[..k + 1] == [a[0]] + a[1..][..k] && b[..k + 1] == [b[0]] + b[1..][..k];
      }
    } else {
      assert a[..0] == b[..0];
    }
  }

  lemma {:induction false} CompareAntisymmetric(a: string, b: string)
    ensures Compare(a, b) == -Compare(b, a)
  {
    if a != [] && b != [] && a[0] == b[0] {
      CompareAntisymmetric(a[1..], b[1..]);
    }
  }

  lemma {:induction false} CompareTransitive(a: string, b: string, c: string)
    requires Compare(a, b) <= 0 && Compare(b, c) <= 0
    ensures Compare(a, c) <= 0
    ensures Compare(a, b) < 0 || Compare(b, c) < 0 ==> Compare(a, c) < 0
  {
    if a != [] && b != [] && c != [] && a[0] == b[0] && b[0] == c[0] {
      CompareTransitive(a[1..], b[1..], c[1..]);
    }
  }

  ghost predicate Sorted(names: seq<string>) {
    forall i, j :: 0 <= i < j < |names| ==> Less(names[i], names[j])
  }

  /** The place of a name in a sorted list: everything before it is smaller. */
  function Insert(names: seq<string>, n: string): (r: seq<string>)
    ensures forall x :: x in r <==> x in names || x == n
  {
    if names == [] then [n]
    else if Less(n, names[|names| - 1]) then
      assert names == names[..|names| - 1] + [names[|names| - 1]];
      Insert(names[..|names| - 1], n) + [names[|names| - 1]]
    else names + [n]
  }

  lemma {:induction false} InsertSorted(names: seq<string>, n: string)
    requires Sorted(names) && n !in names
    ensures Sorted(Insert(names, n))
  {
    if names != [] {
      var last := names[|names| - 1];
      CompareAntisymmetric(n, last);
      if Less(n, last) {
        var front := names[..|names| - 1];
        InsertSorted(front, n);
        var r := Insert(front, n);
        forall i | 0 <= i < |r| ensures Less(r[i], last) {
          assert r[i] in Elements(r);
          if r[i] != n {
            var k :| 0 <= k < |front| && front[k] == r[i];
            assert names[k] == r[i];
          }
        }
      } else {
        forall i | 0 <= i < |names| ensures Less(names[i], n) {
          if i < |names| - 1 {
            assert Less(names[i], last);
            CompareTransitive(names[i], last, n);
          }
        }
      }
    }
  }

  lemma NoElements(names: seq<string>)
    ensures names == [] <==> Elements(names) == {}
  {
    if names != [] {
      assert names[0] in Elements(names);
    }
  }

  lemma FrontElements(names: seq<string>)
    requires Sorted(names) && names != []
    ensures var last := names[|names| - 1];
            Elements(names[..|names| - 1]) == Elements(names) - {last}
  {
    var last := names[|names| - 1];
    var front := names[..|names| - 1];
    assert names == front + [last];
    forall k | 0 <= k < |front| ensures front[k] != last {
      assert Less(names[k], last);
    }
  }

  lemma LastIsGreatest(names: seq<string>, n: string)
    requires Sorted(names) && names != [] && n in Elements(names)
    ensures Compare(n, names[|names| - 1]) <= 0
  {
    var k :| 0 <= k < |names| && names[k] == n;
    assert k < |names| - 1 ==> Less(names[k], names[|names| - 1]);
  }

  /** A sorted list is determined by its elements. */
  lemma {:induction false} SortedUnique(a: seq<string>, b: seq<string>)
    requires Sorted(a) && Sorted(b) && Elements(a) == Elements(b)
    ensures a == b
  {
    NoElements(a);
    NoElements(b);
    if a != [] {
      var x, y := a[|a| - 1], b[|b| - 1];
      LastIsGreatest(b, x);
      LastIsGreatest(a, y);
      CompareAntisymmetric(x, y);
      FrontElements(a);
      FrontElements(b);
      SortedUnique(a[..|a| - 1], b[..|b| - 1]);
      assert a == a[..|a| - 1] + [x] && b == b[..|b| - 1] + [y];
    }
  }

  ghost function SortedNames(names: set<string>): (r: seq<string>)
    ensures Sorted(r) && Elements(r) == names
  {
    if names == {} then [] else
      var n :| n in names;
      var rest := SortedNames(names - {n});
      assert n !in Elements(rest);
      InsertSorted(rest, n);
      assert Elements(Insert(rest, n)) == Elements(rest) + {n};
      Insert(rest, n)
  }

  /** Lists a set of names in order, whatever order they are taken in. */
  method SortNames(names: set<string>) returns (r: seq<string>)
    ensures r == SortedNames(names)
  {
    r := [];
    var left := names;
    while left != {}
      invariant left <= names
      invariant Sorted(r) && Elements(r) == names - left
      decreases left
    {
      var n :| n in left;
      assert n !in Elements(r);
      InsertSorted(r, n);
      assert Elements(Insert(r, n)) == Elements(r) + {n};
      r := Insert(r, n);
      left := left - {n};
    }
    SortedUnique(r, SortedNames(names));
  }
}
