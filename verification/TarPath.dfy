/**
 * Archive paths: splitting at '/', validation and normalisation, and the ancestor relation.
 * A path is modelled by its UTF-8 bytes; every character the checks look for is ASCII, so the
 * checks read the same on bytes as on characters.
 */
module TarPath {
  import opened Base
  import opened Lex

  type Path = Word

  const SLASH := 47
  const BACKSLASH := 92
  const DOT := 46
  const COLON := 58

  // ---------------------------------------------------------------- segments

  function Split(p: Path): (segs: seq<Path>)
    ensures segs != []
    ensures forall s :: s in segs ==> SLASH !in s
  {
    if p == [] then [[]]
    else
      var rest := Split(p[1..]);
      if p[0] == SLASH then [[]] + rest
      else
        assert forall s :: s in rest[1..] ==> s in rest;
        assert rest[0] in rest;
        [[p[0]] + rest[0]] + rest[1..]
  }

  function Join(segs: seq<Path>): Path
    requires segs != []
  {
    if |segs| == 1 then segs[0] else segs[0] + [SLASH] + Join(segs[1..])
  }

  lemma JoinCons(s: Path, segs: seq<Path>)
    requires segs != []
    ensures Join([s] + segs) == s + [SLASH] + Join(segs)
  {
    assert ([s] + segs)[1..] == segs;
  }

  /** Putting a byte in front of the first segment puts it in front of the path. */
  lemma JoinPush(c: int, segs: seq<Path>)
    requires segs != []
    ensures Join([[c] + segs[0]] + segs[1..]) == [c] + Join(segs)
  {
    var s := segs[0];
    var rest := segs[1..];
    assert segs == [s] + rest;
    if rest == [] {
      assert [[c] + s] + rest == [[c] + s];
    } else {
      JoinCons(s, rest);
      JoinCons([c] + s, rest);
      assert [c] + s + [SLASH] + Join(rest) == [c] + (s + [SLASH] + Join(rest));
    }
  }

  lemma {:induction false} JoinSplit(p: Path)
    ensures Join(Split(p)) == p
  {
    if p != [] {
      JoinSplit(p[1..]);
      assert p == [p[0]] + p[1..];
      if p[0] == SLASH {
        JoinCons([], Split(p[1..]));
        assert [] + [SLASH] + p[1..] == p;
      } else {
        JoinPush(p[0], Split(p[1..]));
      }
    }
  }

  lemma {:induction false} SplitNoSlash(s: Path)
    requires SLASH !in s
    ensures Split(s) == [s]
  {
    if s != [] {
      assert s == [s[0]] + s[1..];
      SplitNoSlash(s[1..]);
    }
  }

  lemma {:induction false} SplitConcat(s: Path, p: Path)
    requires SLASH !in s
    ensures Split(s + [SLASH] + p) == [s] + Split(p)
  {
    var q := s + [SLASH] + p;
    if s == [] {
      assert q == [SLASH] + p && q[1..] == p;
    } else {
      assert q[1..] == s[1..] + [SLASH] + p;
      assert s == [s[0]] + s[1..];
      SplitConcat(s[1..], p);
      assert ([s[1..]] + Split(p))[1..] == Split(p);
    }
  }

  lemma {:induction false} SplitJoin(segs: seq<Path>)
    requires segs != [] && forall s :: s in segs ==> SLASH !in s
    ensures Split(Join(segs)) == segs
  {
    if |segs| == 1 {
      SplitNoSlash(segs[0]);
    } else {
      SplitJoin(segs[1..]);
      SplitConcat(segs[0], Join(segs[1..]));
      assert segs == [segs[0]] + segs[1..];
    }
  }

  lemma {:induction false} JoinAppend(a: seq<Path>, b: seq<Path>)
    requires a != [] && b != []
    ensures Join(a + b) == Join(a) + [SLASH] + Join(b)
  {
    assert (a + b)[1..] == a[1..] + b;
    if |a| > 1 {
      JoinAppend(a[1..], b);
      assert a[0] + [SLASH] + (Join(a[1..]) + [SLASH] + Join(b)) == a[0] + [SLASH] + Join(a[1..]) + [SLASH] + Join(b);
    }
  }

  // ---------------------------------------------------------------- validation

  datatype PathError = EmptyPath | NulInPath | BackslashInPath | AbsolutePath | DriveLetter | UnsafeSegment

  predicate IsLetter(c: int) {
    65 <= c <= 90 || 97 <= c <= 122
  }

  predicate HasDriveLetter(p: Path) {
    |p| >= 2 && IsLetter(p[0]) && p[1] == COLON
  }

  predicate BadSegment(s: Path) {
    s == [] || s == [DOT] || s == [DOT, DOT]
  }

  function Trimmed(p: Path): Path {
    if p != [] && p[|p| - 1] == SLASH then p[..|p| - 1] else p
  }

  function NormalizeTarPath(p: Path): Result<Path, PathError> {
    if p == [] then Err(EmptyPath)
    else if 0 in p then Err(NulInPath)
    else if BACKSLASH in p then Err(BackslashInPath)
    else if p[0] == SLASH then Err(AbsolutePath)
    else if HasDriveLetter(p) then Err(DriveLetter)
    else if exists s :: s in Split(Trimmed(p)) && BadSegment(s) then Err(UnsafeSegment)
    else Ok(Trimmed(p))
  }

  /** A normal path: what the archive stores and the reader returns. */
  ghost predicate Safe(p: Path) {
    && 0 !in p
    && BACKSLASH !in p
    && !HasDriveLetter(p)
    && forall s :: s in Split(p) ==> !BadSegment(s)
  }

  /** A trailing '/' is an empty last segment. */
  lemma SplitTrailing(q: Path)
    ensures Split(q + [SLASH]) == Split(q) + [[]]
  {
    JoinSplit(q);
    JoinAppend(Split(q), [[]]);
    assert q + [SLASH] + [] == q + [SLASH];
    SplitJoin(Split(q) + [[]]);
  }

  /** A leading '/' is an empty first segment, and nothing else is. */
  lemma SplitHead(p: Path)
    ensures Split(p)[0] == [] <==> p == [] || p[0] == SLASH
  {
  }

  lemma SafeEnds(q: Path)
    requires Safe(q)
    ensures q != [] && q[0] != SLASH && q[|q| - 1] != SLASH
  {
    SplitHead(q);
    assert Split(q)[0] in Split(q);
    if q[|q| - 1] == SLASH {
      var init := q[..|q| - 1];
      SplitTrailing(init);
      assert q == init + [SLASH];
      assert Split(q)[|Split(init)|] in Split(q);
    }
  }

  /** What normalisation accepts: a safe path, with or without one trailing '/'. */
  lemma NormalizeExactly(p: Path, q: Path)
    ensures NormalizeTarPath(p) == Ok(q) <==> Safe(q) && (p == q || p == q + [SLASH])
  {
    if NormalizeTarPath(p) == Ok(q) {
      assert q == p || p == q + [SLASH];
    }
    if Safe(q) && (p == q || p == q + [SLASH]) {
      SafeEnds(q);
      assert Trimmed(p) == q;
    }
  }

  // ---------------------------------------------------------------- ancestors

  /** `a` is a proper ancestor directory of `p`. */
  predicate IsAncestor(a: Path, p: Path) {
    0 < |a| < |p| && p[|a|] == SLASH && p[..|a|] == a
  }

  /** The segment-wise prefixes the programs enumerate are exactly the ancestors. */
  lemma AncestorsAreSegmentPrefixes(p: Path, a: Path)
    requires Safe(p)
    ensures IsAncestor(a, p) <==> exists i :: 0 < i < |Split(p)| && a == Join(Split(p)[..i])
  {
    var segs := Split(p);
    JoinSplit(p);
    if i :| 0 < i < |segs| && a == Join(segs[..i]) {
      assert segs == segs[..i] + segs[i..];
      JoinAppend(segs[..i], segs[i..]);
      assert p == a + [SLASH] + Join(segs[i..]);
      SplitHead(a);
      SplitJoin(segs[..i]);
      assert segs[0] in segs;
      assert a != [];
    }
    if IsAncestor(a, p) {
      var rest := p[|a| + 1..];
      assert p == a + [SLASH] + rest;
      JoinSplit(a);
      JoinSplit(rest);
      JoinAppend(Split(a), Split(rest));
      SplitJoin(Split(a) + Split(rest));
      assert segs == Split(a) + Split(rest);
      assert segs[..|Split(a)|] == Split(a);
    }
  }

  lemma SplitAround(a: Path, rest: Path)
    ensures Split(a + [SLASH] + rest) == Split(a) + Split(rest)
  {
    JoinSplit(a);
    JoinSplit(rest);
    JoinAppend(Split(a), Split(rest));
    SplitJoin(Split(a) + Split(rest));
  }

  lemma AncestorSafe(a: Path, p: Path)
    requires Safe(p) && IsAncestor(a, p)
    ensures Safe(a)
  {
    SplitAround(a, p[|a| + 1..]);
    assert p == a + [SLASH] + p[|a| + 1..];
    forall s | s in Split(a) ensures !BadSegment(s) {
      assert s in Split(a) + Split(p[|a| + 1..]);
    }
  }

  lemma AncestorTransitive(a: Path, b: Path, p: Path)
    requires IsAncestor(a, b) && IsAncestor(b, p)
    ensures IsAncestor(a, p)
  {
    assert p[..|b|][..|a|] == p[..|a|];
    assert p[..|b|][|a|] == p[|a|];
  }
}
