/**
 * Lexicographic order on words (sequences of code units or bytes), and sorting of distinct words.
 * Every sort in the modelled programs orders distinct keys this way: archive paths by their UTF-8
 * bytes, object keys by UTF-16 code units, task ids by ASCII.
 */
module Lex {
  type Word = seq<int>

  /** Strict order: the first difference decides, and a proper prefix comes first. */
  predicate Less(a: Word, b: Word) {
    if a == [] then b != []
    else if b == [] then false
    else if a[0] != b[0] then a[0] < b[0]
    else Less(a[1..], b[1..])
  }

  lemma {:induction false} LessIrreflexive(a: Word)
    ensures !Less(a, a)
  {
    if a != [] { LessIrreflexive(a[1..]); }
  }

  lemma {:induction false} LessTransitive(a: Word, b: Word, c: Word)
    requires Less(a, b) && Less(b, c)
    ensures Less(a, c)
  {
    if a != [] && a[0] == b[0] && b[0] == c[0] { LessTransitive(a[1..], b[1..], c[1..]); }
  }

  lemma {:induction false} LessTotal(a: Word, b: Word)
    ensures a == b || Less(a, b) || Less(b, a)
  {
    if a != [] && b != [] && a[0] == b[0] {
      LessTotal(a[1..], b[1..]);
      assert a == [a[0]] + a[1..] && b == [b[0]] + b[1..];
    }
  }

  lemma {:induction false} LessAsymmetric(a: Word, b: Word)
    requires Less(a, b)
    ensures !Less(b, a) && a != b
  {
    if Less(b, a) { LessTransitive(a, b, a); }
    LessIrreflexive(a);
  }

  /** Adding the same prefix on both sides does not change the order. */
  lemma {:induction false} LessSamePrefix(p: Word, a: Word, b: Word)
    ensures Less(p + a, p + b) == Less(a, b)
  {
    if p == [] {
      assert p + a == a && p + b == b;
    } else {
      assert (p + a)[1..] == p[1..] + a && (p + b)[1..] == p[1..] + b;
      LessSamePrefix(p[1..], a, b);
    }
  }

  /** Where two words differ: `i` letters in, one ends or has the smaller letter. */
  predicate FirstDifference(a: Word, b: Word, i: nat) {
    i <= |a| && i < |b| && a[..i] == b[..i] && (i == |a| || a[i] < b[i])
  }

  /** The order said without recursion. */
  lemma {:induction false} LessExactly(a: Word, b: Word)
    ensures Less(a, b) <==> exists i: nat :: FirstDifference(a, b, i)
  {
    if a == [] {
      if b != [] { assert FirstDifference(a, b, 0); }
    } else if b != [] {
      LessExactly(a[1..], b[1..]);
      if i: nat :| FirstDifference(a, b, i) && i > 0 {
        assert a[0] == a[..i][0] == b[..i][0] == b[0];
        assert a[1..][..i - 1] == a[..i][1..] && b[1..][..i - 1] == b[..i][1..];
        assert FirstDifference(a[1..], b[1..], i - 1);
      }
      if Less(a, b) {
        if a[0] != b[0] {
          assert FirstDifference(a, b, 0);
        } else {
          var k: nat :| FirstDifference(a[1..], b[1..], k);
          assert a[..k + 1] == [a[0]] + a[1..][..k] && b[..k + 1] == [b[0]] + b[1..][..k];
          assert FirstDifference(a, b, k + 1);
        }
      }
    }
  }

  predicate Sorted(xs: seq<Word>) {
    forall i, j :: 0 <= i < j < |xs| ==> Less(xs[i], xs[j])
  }

  function Elems<T>(xs: seq<T>): set<T> {
    set x | x in xs
  }

  ghost predicate Distinct<T>(xs: seq<T>) {
    forall i, j :: 0 <= i < j < |xs| ==> xs[i] != xs[j]
  }

  lemma HasElement<T>(xs: seq<T>)
    ensures xs == [] || exists x :: x in xs
  {
    if xs != [] { assert xs[0] in xs; }
  }

  lemma InTail<T(!new)>(xs: seq<T>, x: T)
    requires xs != [] && Distinct(xs)
    ensures x in xs[1..] <==> x in xs && x != xs[0]
  {
    if x in xs && x != xs[0] {
      var i :| 0 <= i < |xs| && xs[i] == x;
      assert xs[1..][i - 1] == x;
    }
  }

  /** A strictly sorted sequence is determined by its set of elements. */
  lemma {:induction false} SortedUnique(xs: seq<Word>, ys: seq<Word>)
    requires Sorted(xs) && Sorted(ys)
    requires forall x :: x in xs <==> x in ys
    ensures xs == ys
  {
    if xs == [] {
      HasElement(ys);
    } else {
      assert xs[0] in xs && xs[0] in ys;
      assert ys[0] in ys && ys[0] in xs;
      var i :| 0 <= i < |ys| && ys[i] == xs[0];
      var j :| 0 <= j < |xs| && xs[j] == ys[0];
      if i > 0 && j > 0 { LessAsymmetric(ys[0], xs[0]); }
      assert xs[0] == ys[0];
      SortedDistinct(xs);
      SortedDistinct(ys);
      forall x ensures x in xs[1..] <==> x in ys[1..] {
        InTail(xs, x);
        InTail(ys, x);
      }
      SortedUnique(xs[1..], ys[1..]);
      assert xs == [xs[0]] + xs[1..] && ys == [ys[0]] + ys[1..];
    }
  }

  lemma SortedDistinct(xs: seq<Word>)
    requires Sorted(xs)
    ensures Distinct(xs)
  {
    forall i, j | 0 <= i < j < |xs| ensures xs[i] != xs[j] { LessIrreflexive(xs[i]); }
  }

  function Insert(x: Word, xs: seq<Word>): (r: seq<Word>)
    ensures multiset(r) == multiset(xs) + multiset{x}
  {
    if xs == [] then [x]
    else if Less(xs[0], x) then
      assert xs == [xs[0]] + xs[1..];
      [xs[0]] + Insert(x, xs[1..])
    else
      [x] + xs
  }

  lemma {:induction false} InsertSorted(x: Word, xs: seq<Word>)
    requires Sorted(xs) && x !in xs
    ensures Sorted(Insert(x, xs))
  {
    if xs != [] {
      var r := Insert(x, xs);
      if Less(xs[0], x) {
        InsertSorted(x, xs[1..]);
        var t := Insert(x, xs[1..]);
        forall j | 0 <= j < |t| ensures Less(xs[0], t[j]) {
          assert t[j] in multiset(t);
          assert t[j] == x || t[j] in xs[1..];
        }
        assert forall i, j :: 0 <= i < j < |r| ==> Less(r[i], r[j]);
      } else {
        LessTotal(x, xs[0]);
        forall j | 0 <= j < |xs| ensures Less(x, xs[j]) {
          if j > 0 { LessTransitive(x, xs[0], xs[j]); }
        }
      }
    }
  }

  /** The library sort: the algorithm is immaterial, since a sorted permutation is unique. */
  function Sort(xs: seq<Word>): (r: seq<Word>)
    ensures multiset(r) == multiset(xs)
  {
    if xs == [] then []
    else
      assert xs == [xs[0]] + xs[1..];
      Insert(xs[0], Sort(xs[1..]))
  }

  lemma {:induction false} SortSorts(xs: seq<Word>)
    requires Distinct(xs)
    ensures Sorted(Sort(xs)) && |Sort(xs)| == |xs|
    ensures forall x :: x in Sort(xs) <==> x in xs
  {
    assert forall x :: x in Sort(xs) <==> x in multiset(Sort(xs));
    assert |multiset(Sort(xs))| == |multiset(xs)|;
    if xs != [] {
      SortSorts(xs[1..]);
      assert xs[0] !in xs[1..];
      assert xs[0] !in Sort(xs[1..]);
      InsertSorted(xs[0], Sort(xs[1..]));
    }
  }

  /** The elements of a finite set in order. */
  ghost function SortedOf(s: set<Word>): (r: seq<Word>)
    ensures Sorted(r) && |r| == |s|
    ensures forall x :: x in r <==> x in s
    decreases |s|
  {
    if s == {} then []
    else
      var x :| x in s;
      var t := SortedOf(s - {x});
      InsertSorted(x, t);
      var r := Insert(x, t);
      assert forall y :: y in r <==> y in multiset(r);
      assert |multiset(r)| == |t| + 1;
      assert forall y :: y in t <==> y in multiset(t);
      assert forall y :: y in s <==> y == x || y in s - {x};
      r
  }

  lemma SortIsSortedOf(xs: seq<Word>, s: set<Word>)
    requires Distinct(xs)
    requires forall x :: x in xs <==> x in s
    ensures Sort(xs) == SortedOf(s)
  {
    SortSorts(xs);
    SortedUnique(Sort(xs), SortedOf(s));
  }

  /** Byte comparison as a loop: the sign of the result is the order. */
  method CompareBytes(a: Word, b: Word) returns (r: int)
    ensures r < 0 <==> Less(a, b)
    ensures r > 0 <==> Less(b, a)
    ensures r == 0 <==> a == b
  {
    var n := if |a| < |b| then |a| else |b|;
    LessTotal(a, b);
    LessIrreflexive(a);
    if Less(a, b) { LessAsymmetric(a, b); }
    if Less(b, a) { LessAsymmetric(b, a); }
    for i := 0 to n
      invariant a[..i] == b[..i]
    {
      assert a == a[..i] + a[i..] && b == b[..i] + b[i..];
      if a[i] != b[i] {
        LessSamePrefix(a[..i], a[i..], b[i..]);
        LessSamePrefix(a[..i], b[i..], a[i..]);
        return a[i] - b[i];
      }
    }
    assert a == a[..n] + a[n..] && b == b[..n] + b[n..];
    LessSamePrefix(a[..n], a[n..], b[n..]);
    LessSamePrefix(a[..n], b[n..], a[n..]);
    if |a| == |b| { assert a == b; }
    return |a| - |b|;
  }
}
