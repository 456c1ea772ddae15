/**
 * Archiving a directory on disk: the recursive walk of tar.ts, and the second archive writer,
 * digest.py's canonical_tar, which walks on its own and does no path validation.
 */
module TarDir {
  import opened Base
  import opened Lex
  import opened TarPath
  import opened TarHeader
  import opened TarWriter
  import opened TarReader
  import opened TarLaws

  datatype FsNode = FsFile(data: Bytes, executable: bool) | FsDir | FsLink | FsSpecial

  /** A directory on disk: everything below it, by relative path. */
  type Fs = map<Path, FsNode>

  ghost predicate FileName(n: Path) {
    !BadSegment(n) && SLASH !in n && 0 !in n
  }

  /** What a POSIX file system guarantees: real names, and every parent is a directory. */
  ghost predicate ProperFs(fs: Fs) {
    && (forall p :: p in fs ==> p != [] && forall s :: s in Split(p) ==> FileName(s))
    && (forall p, a :: p in fs && IsAncestor(a, p) ==> a in fs && fs[a].FsDir?)
  }

  // ---------------------------------------------------------------- places in a tree

  /** The path of the child `n` of directory `dir`; the root is the empty path. */
  function Child(dir: Path, n: Path): Path {
    if dir == [] then n else dir + [SLASH] + n
  }

  predicate Below(dir: Path, p: Path) {
    if dir == [] then p != [] else IsAncestor(dir, p)
  }

  predicate Within(top: Path, p: Path) {
    p == top || IsAncestor(top, p)
  }

  function BaseName(p: Path): Path {
    Split(p)[|Split(p)| - 1]
  }

  ghost function Names(fs: Fs, dir: Path): set<Path> {
    set p | p in fs && Below(dir, p) && SLASH !in p[ChildStart(dir)..] :: p[ChildStart(dir)..]
  }

  function ChildStart(dir: Path): nat {
    if dir == [] then 0 else |dir| + 1
  }

  lemma BelowStart(dir: Path, p: Path)
    requires Below(dir, p)
    ensures ChildStart(dir) <= |p| && p == Child(dir, p[ChildStart(dir)..])
  {
    if dir != [] { assert p == p[..|dir|] + [p[|dir|]] + p[|dir| + 1..]; }
  }

  lemma ChildFacts(dir: Path, n: Path)
    requires SLASH !in n && n != []
    ensures Below(dir, Child(dir, n)) && Child(dir, n)[ChildStart(dir)..] == n && BaseName(Child(dir, n)) == n
  {
    SplitNoSlash(n);
    if dir != [] {
      SplitAround(dir, n);
      assert Child(dir, n)[..|dir|] == dir;
    }
  }

  lemma NamesMember(fs: Fs, dir: Path, n: Path)
    ensures n in Names(fs, dir) && n != [] ==> SLASH !in n && Child(dir, n) in fs
    ensures SLASH !in n && n != [] && Child(dir, n) in fs ==> n in Names(fs, dir)
  {
    if n in Names(fs, dir) {
      var p :| p in fs && Below(dir, p) && SLASH !in p[ChildStart(dir)..] && p[ChildStart(dir)..] == n;
      BelowStart(dir, p);
    }
    if SLASH !in n && n != [] && Child(dir, n) in fs { ChildFacts(dir, n); }
  }

  /** The child of `dir` on the way to `p`. */
  function Toward(dir: Path, p: Path): Path
    requires Below(dir, p)
  {
    p[..ChildStart(dir) + FindSlash(p[ChildStart(dir)..])]
  }

  lemma TowardFacts(fs: Fs, dir: Path, p: Path)
    requires ProperFs(fs) && p in fs && Below(dir, p)
    ensures var n := Toward(dir, p)[ChildStart(dir)..];
            && n != [] && n in Names(fs, dir) && Toward(dir, p) == Child(dir, n) && Within(Toward(dir, p), p)
  {
    BelowStart(dir, p);
    var start := ChildStart(dir);
    var q := p[start..];
    var i := FindSlash(q);
    var t := Toward(dir, p);
    var n := t[start..];
    assert n == q[..i];
    if dir == [] { SplitHead(p); assert Split(p)[0] in Split(p); }
    else { SplitAround(dir, q); SplitHead(q); assert Split(q)[0] in Split(p); }
    if i < |q| {
      assert t == p[..start + i] && p[start + i] == SLASH;
      assert IsAncestor(t, p);
    } else {
      assert t == p;
    }
    assert dir != [] ==> t[..|dir|] == p[..|dir|] && t[|dir|] == p[|dir|];
    assert Below(dir, t);
    BelowStart(dir, t);
    NamesMember(fs, dir, n);
  }

  /** Subtrees of different children do not meet. */
  lemma SiblingsDisjoint(dir: Path, m: Path, n: Path, p: Path)
    requires SLASH !in m && SLASH !in n && m != [] && n != []
    requires Within(Child(dir, m), p) && Within(Child(dir, n), p)
    ensures m == n
  {
    var a, b := Child(dir, m), Child(dir, n);
    ChildFacts(dir, m);
    ChildFacts(dir, n);
    assert m == a[ChildStart(dir)..] && n == b[ChildStart(dir)..];
  }

  // ---------------------------------------------------------------- exclusion

  /** Basenames excluded anywhere, and a test on relative path and kind. */
  datatype Options = Options(names: set<Path>, exclude: (Path, bool) -> bool)

  predicate Excluded(o: Options, rel: Path, name: Path, isDir: bool) {
    name in o.names || o.exclude(rel, isDir)
  }

  predicate ExcludedAt(fs: Fs, o: Options, p: Path)
    requires p in fs
  {
    Excluded(o, p, BaseName(p), fs[p].FsDir?)
  }

  /** Entries within `rel` that no exclusion at `rel` or below removes. */
  ghost predicate KeptIn(fs: Fs, o: Options, rel: Path, p: Path) {
    p in fs && Within(rel, p) && forall a :: Within(rel, a) && Within(a, p) ==> a in fs && !ExcludedAt(fs, o, a)
  }

  ghost function KeptWithin(fs: Fs, o: Options, rel: Path): set<Path> {
    set p | p in fs && KeptIn(fs, o, rel, p)
  }

  ghost function KeptBelow(fs: Fs, o: Options, dir: Path): set<Path> {
    set p | p in fs && Below(dir, p) && KeptIn(fs, o, Toward(dir, p), p)
  }

  // ---------------------------------------------------------------- the walk

  datatype DirError = LinkFound | SpecialFound

  type Listing = Result<seq<TarInput>, DirError>

  function Cat(a: Listing, b: Listing): Listing {
    if a.Err? then a else if b.Err? then b else Ok(a.value + b.value)
  }

  ghost function BelowSet(fs: Fs, dir: Path): set<Path> {
    set p | p in fs && Below(dir, p)
  }

  ghost function WithinSet(fs: Fs, rel: Path): set<Path> {
    set p | p in fs && Within(rel, p)
  }

  lemma BelowShrinks(fs: Fs, rel: Path)
    requires rel in fs && rel != []
    ensures |BelowSet(fs, rel)| < |WithinSet(fs, rel)|
  {
    assert BelowSet(fs, rel) + {rel} == WithinSet(fs, rel);
    assert rel !in BelowSet(fs, rel);
  }

  lemma WithinChildSmaller(fs: Fs, dir: Path, n: Path)
    requires SLASH !in n && n != []
    ensures |WithinSet(fs, Child(dir, n))| <= |BelowSet(fs, dir)|
  {
    var rel := Child(dir, n);
    ChildFacts(dir, n);
    forall p | p in WithinSet(fs, rel) ensures p in BelowSet(fs, dir) {
      if dir != [] && p != rel { AncestorTransitive(dir, rel, p); }
    }
    Subset(WithinSet(fs, rel), BelowSet(fs, dir));
  }

  lemma Subset<T>(a: set<T>, b: set<T>)
    requires a <= b
    ensures |a| <= |b|
  {
    assert b == a + (b - a);
  }

  /** One name met by the walk. */
  ghost function Visit(fs: Fs, o: Options, rel: Path, name: Path): Listing
    requires rel in fs && rel != []
    decreases |WithinSet(fs, rel)|, 0, 0
  {
    match fs[rel]
    case FsLink => if Excluded(o, rel, name, false) then Ok([]) else Err(LinkFound)
    case FsDir =>
      if Excluded(o, rel, name, true) then Ok([])
      else
        BelowShrinks(fs, rel);
        Cat(Ok([DirInput(rel)]), Walk(fs, o, rel))
    case FsFile(data, x) =>
      if Excluded(o, rel, name, false) then Ok([]) else Ok([FileInput(rel, Some(data), x)])
    case FsSpecial => if Excluded(o, rel, name, false) then Ok([]) else Err(SpecialFound)
  }

  ghost function WalkNames(fs: Fs, o: Options, dir: Path, names: seq<Path>): Listing
    requires forall n :: n in names ==> n != [] && SLASH !in n && Child(dir, n) in fs
    decreases |BelowSet(fs, dir)|, 1, |names|
  {
    if names == [] then Ok([])
    else
      var n := names[0];
      WithinChildSmaller(fs, dir, n);
      ChildFacts(dir, n);
      assert forall k :: k in names[1..] ==> k in names;
      Cat(Visit(fs, o, Child(dir, n), n), WalkNames(fs, o, dir, names[1..]))
  }

  /** The names of a directory in order; none is empty in a proper file system. */
  ghost function DirNames(fs: Fs, dir: Path): (names: seq<Path>)
    ensures forall n :: n in names ==> n != [] && SLASH !in n && Child(dir, n) in fs
  {
    forall n ensures n in Names(fs, dir) && n != [] ==> SLASH !in n && Child(dir, n) in fs { NamesMember(fs, dir, n); }
    SortedOf(Names(fs, dir) - {[]})
  }

  ghost function Walk(fs: Fs, o: Options, dir: Path): Listing
    decreases |BelowSet(fs, dir)|, 2, 0
  {
    WalkNames(fs, o, dir, DirNames(fs, dir))
  }

  // ---------------------------------------------------------------- what the walk lists

  function FsInput(p: Path, n: FsNode): TarInput {
    match n
    case FsFile(data, x) => FileInput(p, Some(data), x)
    case _ => DirInput(p)
  }

  /** `inputs` lists each path of `s` exactly once, as it is on disk. */
  ghost predicate Covers(fs: Fs, inputs: seq<TarInput>, s: set<Path>) {
    && (forall i :: 0 <= i < |inputs| ==>
          inputs[i].path in s && inputs[i].path in fs && inputs[i] == FsInput(inputs[i].path, fs[inputs[i].path]))
    && (forall i, j :: 0 <= i < j < |inputs| ==> inputs[i].path != inputs[j].path)
    && (forall p :: p in s ==> exists i :: 0 <= i < |inputs| && inputs[i].path == p)
  }

  ghost predicate Archivable(fs: Fs, s: set<Path>) {
    forall p :: p in s ==> p in fs && !fs[p].FsLink? && !fs[p].FsSpecial?
  }

  /** The walk succeeds exactly on archivable places, and then lists them. */
  ghost predicate Lists(fs: Fs, r: Listing, s: set<Path>) {
    && (r.Ok? <==> Archivable(fs, s))
    && (r.Ok? ==> Covers(fs, r.value, s))
  }

  lemma CoversConcat(fs: Fs, a: seq<TarInput>, s: set<Path>, b: seq<TarInput>, t: set<Path>)
    requires Covers(fs, a, s) && Covers(fs, b, t) && s !! t
    ensures Covers(fs, a + b, s + t)
  {
    var c := a + b;
    forall p | p in s + t ensures exists i :: 0 <= i < |c| && c[i].path == p {
      if p in s {
        var i :| 0 <= i < |a| && a[i].path == p;
        assert c[i].path == p;
      } else {
        var i :| 0 <= i < |b| && b[i].path == p;
        assert c[|a| + i].path == p;
      }
    }
  }

  lemma ListsCat(fs: Fs, a: Listing, s: set<Path>, b: Listing, t: set<Path>)
    requires Lists(fs, a, s) && Lists(fs, b, t) && s !! t
    ensures Lists(fs, Cat(a, b), s + t)
  {
    if a.Ok? && b.Ok? { CoversConcat(fs, a.value, s, b.value, t); }
  }

  /** Inside an excluded place nothing is kept; otherwise the place itself and what is kept below it. */
  lemma KeptWithinUnfold(fs: Fs, o: Options, rel: Path)
    requires ProperFs(fs) && rel in fs
    ensures KeptWithin(fs, o, rel) == if ExcludedAt(fs, o, rel) then {} else {rel} + KeptBelow(fs, o, rel)
  {
    forall p ensures p in KeptWithin(fs, o, rel)
        <==> !ExcludedAt(fs, o, rel) && (p == rel || p in KeptBelow(fs, o, rel)) {
      KeptUnfoldAt(fs, o, rel, p);
    }
  }

  lemma KeptUnfoldAt(fs: Fs, o: Options, rel: Path, p: Path)
    requires ProperFs(fs) && rel in fs
    ensures p in KeptWithin(fs, o, rel) <==> !ExcludedAt(fs, o, rel) && (p == rel || p in KeptBelow(fs, o, rel))
  {
    assert Within(rel, rel);
    if p in fs && IsAncestor(rel, p) && !ExcludedAt(fs, o, rel) {
      KeptThrough(fs, o, rel, p);
    }
    if p == rel && !ExcludedAt(fs, o, rel) {
      forall a | Within(rel, a) && Within(a, p) ensures a == rel { WithinAntisymmetric(rel, a); }
    }
  }

  lemma WithinAntisymmetric(a: Path, b: Path)
    requires Within(a, b) && Within(b, a)
    ensures a == b
  {
  }

  lemma KeptThrough(fs: Fs, o: Options, rel: Path, p: Path)
    requires ProperFs(fs) && rel in fs && p in fs && IsAncestor(rel, p) && !ExcludedAt(fs, o, rel)
    ensures KeptIn(fs, o, rel, p) <==> KeptIn(fs, o, Toward(rel, p), p)
  {
    var t := Toward(rel, p);
    TowardFacts(fs, rel, p);
    ChildFacts(rel, t[ChildStart(rel)..]);
    forall a ensures Within(rel, a) && Within(a, p) <==> a == rel || (Within(t, a) && Within(a, p)) {
      OnTheWay(rel, t, a, p);
    }
  }

  lemma OnTheWay(rel: Path, t: Path, a: Path, p: Path)
    requires rel != [] && IsAncestor(rel, p) && Within(t, p) && IsAncestor(rel, t) && SLASH !in t[|rel| + 1..]
    ensures Within(rel, a) && Within(a, p) <==> a == rel || (Within(t, a) && Within(a, p))
  {
    if Within(rel, a) && Within(a, p) && a != rel {
      assert a == p[..|a|] && t == p[..|t|];
      assert |a| > |rel|;
      if |a| > |t| {
        assert a[|t|] == p[|t|] == SLASH;
        assert a[..|t|] == t;
      }
    }
    if Within(t, a) && Within(a, p) {
      if a != t { AncestorTransitive(rel, t, a); }
    }
  }

  ghost function KeptOver(fs: Fs, o: Options, dir: Path, names: seq<Path>): set<Path> {
    set n, p | n in names && p in fs && p in KeptWithin(fs, o, Child(dir, n)) :: p
  }

  ghost predicate WalkableNames(fs: Fs, dir: Path, names: seq<Path>) {
    Distinct(names) && forall n :: n in names ==> n != [] && SLASH !in n && Child(dir, n) in fs
  }

  lemma KeptOverCons(fs: Fs, o: Options, dir: Path, names: seq<Path>)
    requires WalkableNames(fs, dir, names) && names != []
    ensures KeptOver(fs, o, dir, names) == KeptWithin(fs, o, Child(dir, names[0])) + KeptOver(fs, o, dir, names[1..])
    ensures KeptWithin(fs, o, Child(dir, names[0])) !! KeptOver(fs, o, dir, names[1..])
  {
    assert names == [names[0]] + names[1..];
    forall p | p in KeptWithin(fs, o, Child(dir, names[0])) && p in KeptOver(fs, o, dir, names[1..]) ensures false {
      var n :| n in names[1..] && p in KeptWithin(fs, o, Child(dir, n));
      SiblingsDisjoint(dir, names[0], n, p);
    }
  }

  lemma CoversOne(fs: Fs, p: Path)
    requires p in fs
    ensures Covers(fs, [FsInput(p, fs[p])], {p})
  {
    assert [FsInput(p, fs[p])][0].path == p;
  }

  lemma NotBelowItself(fs: Fs, o: Options, rel: Path)
    requires rel != []
    ensures {rel} !! KeptBelow(fs, o, rel)
  {
  }

  lemma VisitLeaf(fs: Fs, o: Options, rel: Path, name: Path)
    requires ProperFs(fs) && rel in fs && rel != [] && !fs[rel].FsDir? && name == BaseName(rel)
    ensures Lists(fs, Visit(fs, o, rel, name), KeptWithin(fs, o, rel))
  {
    KeptWithinUnfold(fs, o, rel);
    NothingBelowFiles(fs, o, rel);
    assert Covers(fs, [], {});
    if fs[rel].FsFile? {
      CoversOne(fs, rel);
    } else {
      assert rel in {rel};
    }
  }

  lemma VisitDir(fs: Fs, o: Options, rel: Path, name: Path)
    requires ProperFs(fs) && rel in fs && rel != [] && fs[rel].FsDir? && name == BaseName(rel)
    requires Lists(fs, Walk(fs, o, rel), KeptBelow(fs, o, rel))
    ensures Lists(fs, Visit(fs, o, rel, name), KeptWithin(fs, o, rel))
  {
    KeptWithinUnfold(fs, o, rel);
    assert Covers(fs, [], {});
    if !ExcludedAt(fs, o, rel) {
      NotBelowItself(fs, o, rel);
      DirThenBelow(fs, rel, Walk(fs, o, rel), KeptBelow(fs, o, rel));
    }
  }

  lemma DirThenBelow(fs: Fs, rel: Path, below: Listing, s: set<Path>)
    requires rel in fs && fs[rel].FsDir? && rel !in s && Lists(fs, below, s)
    ensures Lists(fs, Cat(Ok([DirInput(rel)]), below), {rel} + s)
  {
    CoversOne(fs, rel);
    ListsCat(fs, Ok([DirInput(rel)]), {rel}, below, s);
  }

  lemma {:induction false} VisitLists(fs: Fs, o: Options, rel: Path, name: Path)
    requires ProperFs(fs) && rel in fs && rel != [] && name == BaseName(rel)
    ensures Lists(fs, Visit(fs, o, rel, name), KeptWithin(fs, o, rel))
    decreases |WithinSet(fs, rel)|, 0, 0
  {
    if fs[rel].FsDir? {
      BelowShrinks(fs, rel);
      WalkLists(fs, o, rel);
      VisitDir(fs, o, rel, name);
    } else {
      VisitLeaf(fs, o, rel, name);
    }
  }

  lemma NothingBelowFiles(fs: Fs, o: Options, rel: Path)
    requires ProperFs(fs) && rel in fs && rel != [] && !fs[rel].FsDir?
    ensures KeptBelow(fs, o, rel) == {}
  {
    forall p | p in fs ensures !Below(rel, p) {}
  }

  lemma {:induction false} WalkNamesLists(fs: Fs, o: Options, dir: Path, names: seq<Path>)
    requires ProperFs(fs) && WalkableNames(fs, dir, names)
    ensures Lists(fs, WalkNames(fs, o, dir, names), KeptOver(fs, o, dir, names))
    decreases |BelowSet(fs, dir)|, 1, |names|
  {
    if names != [] {
      var n := names[0];
      WithinChildSmaller(fs, dir, n);
      ChildFacts(dir, n);
      assert forall k :: k in names[1..] ==> k in names;
      VisitLists(fs, o, Child(dir, n), n);
      WalkNamesLists(fs, o, dir, names[1..]);
      KeptOverCons(fs, o, dir, names);
      ListsCat(fs, Visit(fs, o, Child(dir, n), n), KeptWithin(fs, o, Child(dir, n)),
               WalkNames(fs, o, dir, names[1..]), KeptOver(fs, o, dir, names[1..]));
    }
  }

  lemma KeptOverAll(fs: Fs, o: Options, dir: Path, p: Path)
    requires ProperFs(fs)
    ensures p in KeptOver(fs, o, dir, DirNames(fs, dir)) <==> p in KeptBelow(fs, o, dir)
  {
    var names := DirNames(fs, dir);
    if p in KeptOver(fs, o, dir, names) {
      var n :| n in names && p in KeptWithin(fs, o, Child(dir, n));
      TowardChild(dir, n, p);
    }
    if p in KeptBelow(fs, o, dir) {
      TowardFacts(fs, dir, p);
      assert Toward(dir, p)[ChildStart(dir)..] in names;
    }
  }

  lemma NamesWalkable(fs: Fs, dir: Path)
    ensures WalkableNames(fs, dir, DirNames(fs, dir))
  {
    SortedDistinct(DirNames(fs, dir));
  }

  lemma KeptOverAllSet(fs: Fs, o: Options, dir: Path)
    requires ProperFs(fs)
    ensures KeptOver(fs, o, dir, DirNames(fs, dir)) == KeptBelow(fs, o, dir)
  {
    var a, b := KeptOver(fs, o, dir, DirNames(fs, dir)), KeptBelow(fs, o, dir);
    forall p ensures p in a <==> p in b {
      KeptOverAll(fs, o, dir, p);
    }
  }

  /** The walk of a directory lists, once each, exactly the entries no exclusion removes. */
  lemma {:induction false} WalkLists(fs: Fs, o: Options, dir: Path)
    requires ProperFs(fs)
    ensures Lists(fs, Walk(fs, o, dir), KeptBelow(fs, o, dir))
    decreases |BelowSet(fs, dir)|, 2, 0
  {
    var names := DirNames(fs, dir);
    NamesWalkable(fs, dir);
    WalkNamesLists(fs, o, dir, names);
    KeptOverAllSet(fs, o, dir);
  }

  lemma TowardChild(dir: Path, n: Path, p: Path)
    requires SLASH !in n && n != [] && Within(Child(dir, n), p)
    ensures Below(dir, p) && Toward(dir, p) == Child(dir, n)
  {
    var c := Child(dir, n);
    ChildFacts(dir, n);
    assert c == p[..|c|];
    assert Below(dir, p) by { if dir != [] && p != c { AncestorTransitive(dir, c, p); } }
    var q := p[ChildStart(dir)..];
    assert q[..|n|] == n;
    FindSlashAt(q, |n|);
  }

  lemma {:induction false} FindSlashAt(q: Path, i: nat)
    requires i <= |q| && SLASH !in q[..i] && (i < |q| ==> q[i] == SLASH)
    ensures FindSlash(q) == i
  {
    if i > 0 {
      assert q[0] == q[..i][0];
      assert q[..i] == [q[0]] + q[1..][..i - 1];
      FindSlashAt(q[1..], i - 1);
    }
  }

  // ---------------------------------------------------------------- the walk as a program

  /** One of the places is the entry `n` of directory `dir`. */
  ghost predicate Shows(places: set<Path>, dir: Path, n: Path) {
    exists p :: p in places && Below(dir, p) && SLASH !in p[ChildStart(dir)..] && p[ChildStart(dir)..] == n
  }

  /** readdir: the names in a directory, in whatever order the file system gives them. */
  method ReadDir(fs: Fs, dir: Path) returns (names: seq<Path>)
    ensures Distinct(names) && forall n :: n in names <==> n in Names(fs, dir) - {[]}
  {
    names := [];
    var left := fs.Keys;
    while left != {}
      invariant left <= fs.Keys
      invariant Distinct(names)
      invariant forall n :: n in names <==> n != [] && Shows(fs.Keys - left, dir, n)
      decreases |left|
    {
      var p :| p in left;
      left := left - {p};
      if Below(dir, p) && SLASH !in p[ChildStart(dir)..] && p[ChildStart(dir)..] != [] {
        var n := p[ChildStart(dir)..];
        BelowStart(dir, p);
        forall q | q in fs.Keys - left && q != p && Below(dir, q) ensures q[ChildStart(dir)..] != n {
          BelowStart(dir, q);
        }
        assert n !in names;
        names := names + [n];
      }
    }
  }

  /** One name further: what is pushed before it fails, or goes on with what the name contributes. */
  lemma WalkNamesNext(fs: Fs, o: Options, dir: Path, names: seq<Path>, k: nat, pushed: seq<TarInput>)
    requires WalkableNames(fs, dir, names) && k < |names|
    ensures names[k] != [] && SLASH !in names[k] && Child(dir, names[k]) in fs && Child(dir, names[k]) != []
    ensures |WithinSet(fs, Child(dir, names[k]))| <= |BelowSet(fs, dir)|
    ensures forall n :: n in names[k..] ==> n in names
    ensures forall n :: n in names[k + 1..] ==> n in names
    ensures Pushed(pushed, WalkNames(fs, o, dir, names[k..]))
            == match Visit(fs, o, Child(dir, names[k]), names[k])
               case Err(e) => Err(e)
               case Ok(xs) => Pushed(pushed + xs, WalkNames(fs, o, dir, names[k + 1..]))
  {
    var n := names[k];
    assert forall m :: m in names[k..] ==> m in names;
    assert forall m :: m in names[k + 1..] ==> m in names;
    assert n in names && names[k..][1..] == names[k + 1..];
    WithinChildSmaller(fs, dir, n);
    ChildFacts(dir, n);
    PushCat(pushed, Visit(fs, o, Child(dir, n), n), WalkNames(fs, o, dir, names[k + 1..]));
  }

  /** The recursive walk, pushing onto `out`. */
  method WalkProgram(fs: Fs, o: Options, dir: Path, out: seq<TarInput>) returns (r: Listing)
    ensures r == Pushed(out, Walk(fs, o, dir))
    decreases |BelowSet(fs, dir)|, 2
  {
    var listed := ReadDir(fs, dir);
    SortIsSortedOf(listed, Names(fs, dir) - {[]});
    var names := Sort(listed);
    assert names == DirNames(fs, dir);
    NamesWalkable(fs, dir);
    r := WalkList(fs, o, dir, names, out);
  }

  method WalkList(fs: Fs, o: Options, dir: Path, names: seq<Path>, out: seq<TarInput>) returns (r: Listing)
    requires WalkableNames(fs, dir, names)
    ensures r == Pushed(out, WalkNames(fs, o, dir, names))
    decreases |BelowSet(fs, dir)|, 1
  {
    ghost var whole := Pushed(out, WalkNames(fs, o, dir, names));
    var pushed := out;
    assert names[0..] == names;
    for k := 0 to |names|
      invariant forall n :: n in names[k..] ==> n in names
      invariant whole == Pushed(pushed, WalkNames(fs, o, dir, names[k..]))
    {
      WalkNamesNext(fs, o, dir, names, k, pushed);
      var step := VisitProgram(fs, o, Child(dir, names[k]), names[k], pushed);
      if step.Err? { return step; }
      pushed := step.value;
    }
    assert names[|names|..] == [] && pushed + [] == pushed;
    return Ok(pushed);
  }

  function Pushed(out: seq<TarInput>, l: Listing): Listing {
    match l
    case Err(e) => Err(e)
    case Ok(xs) => Ok(out + xs)
  }

  lemma PushCat(out: seq<TarInput>, a: Listing, b: Listing)
    ensures Pushed(out, Cat(a, b)) == if a.Err? then a else Pushed(out + a.value, b)
  {
    if a.Ok? && b.Ok? { assert out + (a.value + b.value) == out + a.value + b.value; }
  }

  method VisitProgram(fs: Fs, o: Options, rel: Path, name: Path, out: seq<TarInput>) returns (r: Listing)
    requires rel in fs && rel != []
    ensures r == Pushed(out, Visit(fs, o, rel, name))
    decreases |WithinSet(fs, rel)|, 0
  {
    assert out + [] == out;
    var lst := fs[rel];
    if lst.FsLink? {
      if Excluded(o, rel, name, false) { return Ok(out); }
      return Err(LinkFound);
    }
    var isDir := lst.FsDir?;
    if Excluded(o, rel, name, isDir) { return Ok(out); }
    if isDir {
      BelowShrinks(fs, rel);
      PushCat(out, Ok([DirInput(rel)]), Walk(fs, o, rel));
      r := WalkProgram(fs, o, rel, out + [DirInput(rel)]);
    } else if lst.FsFile? {
      return Ok(out + [FileInput(rel, Some(lst.data), lst.executable)]);
    } else {
      return Err(SpecialFound);
    }
  }
}
