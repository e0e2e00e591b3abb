/**
 * The order in which `Array.prototype.sort` arranges strings when it is given
 * no comparator: lexicographic by character code. `SortStrings` stands for
 * that built-in sort.
 */
module StringOrder {

  /** `a` sorts strictly before `b`. */
  predicate Less(a: string, b: string)
  {
    if a == [] then b != []
    else if b == [] then false
    else if a[0] != b[0] then a[0] < b[0]
    else Less(a[1..], b[1..])
  }

  predicate LessEq(a: string, b: string) { a == b || Less(a, b) }

  lemma {:induction false} Irreflexive(a: string)
    ensures !Less(a, a)
  {
    if a != [] { Irreflexive(a[1..]); }
  }

  lemma {:induction false} Transitive(a: string, b: string, c: string)
    requires Less(a, b) && Less(b, c)
    ensures Less(a, c)
  {
    if a != [] && b != [] && c != [] && a[0] == b[0] && b[0] == c[0] {
      Transitive(a[1..], b[1..], c[1..]);
    }
  }

  lemma {:induction false} Connected(a: string, b: string)
    requires a != b
    ensures Less(a, b) || Less(b, a)
  {
    if a != [] && b != [] && a[0] == b[0] {
      assert a == [a[0]] + a[1..] && b == [b[0]] + b[1..];
      Connected(a[1..], b[1..]);
    }
  }

  lemma Asymmetric(a: string, b: string)
    requires Less(a, b)
    ensures !Less(b, a)
  {
  }

  lemma LessEqTransitive(a: string, b: string, c: string)
    requires LessEq(a, b) && LessEq(b, c)
    ensures LessEq(a, c)
  {
    if a != b && b != c { Transitive(a, b, c); }
  }

  /** Each string sorts strictly before every later one: ascending, no repeats. */
  predicate StrictlySorted(s: seq<string>)
  {
    forall i, j :: 0 <= i < j < |s| ==> Less(s[i], s[j])
  }

  /** In a strictly sorted sequence the order of the strings is the order of their positions. */
  lemma SortedPositions(s: seq<string>, i: nat, j: nat)
    requires StrictlySorted(s) && i < |s| && j < |s|
    ensures Less(s[i], s[j]) <==> i < j
  {
    if i == j {
      Irreflexive(s[i]);
    } else if j < i {
      Asymmetric(s[j], s[i]);
    }
  }

  /** Inserts `x` before the first element it sorts before. */
  function Insert(x: string, s: seq<string>): (r: seq<string>)
    ensures multiset(r) == multiset(s) + multiset{x}
    ensures |r| == |s| + 1
  {
    if s == [] then [x]
    else if Less(x, s[0]) then [x] + s
    else
      assert s == [s[0]] + s[1..];
      [s[0]] + Insert(x, s[1..])
  }

  lemma {:induction false} InsertSorted(x: string, s: seq<string>)
    requires StrictlySorted(s) && x !in s
    ensures StrictlySorted(Insert(x, s))
  {
    if s != [] {
      if Less(x, s[0]) {
        forall j | 0 < j < |s| ensures Less(x, s[j]) {
          Transitive(x, s[0], s[j]);
        }
      } else {
        Connected(x, s[0]);
        var rest := Insert(x, s[1..]);
        InsertSorted(x, s[1..]);
        forall j | 0 <= j < |rest| ensures Less(s[0], rest[j]) {
          assert rest[j] in multiset(rest);
          assert rest[j] == x || rest[j] in multiset(s[1..]);
          if rest[j] != x {
            var k :| 0 <= k < |s[1..]| && s[1..][k] == rest[j];
          }
        }
      }
    }
  }

  /** `Array.prototype.sort()` on distinct strings: the same strings, ascending. */
  function SortStrings(xs: seq<string>): (r: seq<string>)
    ensures multiset(r) == multiset(xs)
  {
    if xs == [] then []
    else
      assert xs == [xs[0]] + xs[1..];
      Insert(xs[0], SortStrings(xs[1..]))
  }

  predicate Distinct(xs: seq<string>)
  {
    forall i, j :: 0 <= i < j < |xs| ==> xs[i] != xs[j]
  }

  /** Sorting distinct strings yields them strictly ascending, as a permutation of the input. */
  lemma {:induction false} SortStringsSorted(xs: seq<string>)
    requires Distinct(xs)
    ensures StrictlySorted(SortStrings(xs))
    ensures |SortStrings(xs)| == |xs|
    ensures forall x :: x in SortStrings(xs) <==> x in xs
  {
    if xs != [] {
      var rest := SortStrings(xs[1..]);
      SortStringsSorted(xs[1..]);
      InsertSorted(xs[0], rest);
      forall x ensures x in SortStrings(xs) <==> x in xs {
        assert x in SortStrings(xs) <==> x in multiset(SortStrings(xs));
        assert x in xs <==> x in multiset(xs);
      }
    }
  }
}
