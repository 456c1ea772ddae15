/**
 * Extraction into a directory, and extraction followed by archiving. The guard meant to keep entries
 * inside the destination tests the text of a relative path, and so also refuses harmless names.
 */
module TarExtract {
  import opened Base
  import opened Lex
  import opened TarPath
  import opened TarHeader
  import opened TarWriter
  import opened TarReader
  import opened TarLaws
  import opened TarDir
  import opened TarDirLaws

  datatype ExtractError = Unreadable(why: ReadError) | NotEmpty | Escapes | ThroughLink | Exists

  // ---------------------------------------------------------------- path.resolve

  /** Segment-wise resolution below a root: '.' and '' stay, '..' goes up. */
  function Resolve(root: seq<Path>, segs: seq<Path>): seq<Path>
    decreases |segs|
  {
    if segs == [] then root
    else if segs[0] == [] || segs[0] == [DOT] then Resolve(root, segs[1..])
    else if segs[0] == [DOT, DOT] then Resolve(if root == [] then [] else root[..|root| - 1], segs[1..])
    else Resolve(root + [segs[0]], segs[1..])
  }

  /** Every path the reader lets through resolves strictly under the destination. */
  lemma {:induction false} ResolvesInside(root: seq<Path>, segs: seq<Path>)
    requires forall s :: s in segs ==> !BadSegment(s)
    ensures Resolve(root, segs) == root + segs
    decreases |segs|
  {
    if segs == [] {
      assert root + segs == root;
    } else {
      assert segs[0] in segs;
      ResolvesInside(root + [segs[0]], segs[1..]);
      assert root + [segs[0]] + segs[1..] == root + segs;
    }
  }

  lemma ExtractedPathsInside(root: seq<Path>, bytes: Bytes, i: nat)
    requires ReadTar(bytes).Ok? && i < |ReadTar(bytes).value|
    ensures var target := Resolve(root, Split(ReadTar(bytes).value[i].path));
            |target| > |root| && target[..|root|] == root
  {
    ReadPaths(bytes, {});
    var p := ReadTar(bytes).value[i].path;
    assert GoodEntry(ReadTar(bytes).value[i], {});
    ResolvesInside(root, Split(p));
  }

  // ---------------------------------------------------------------- the guard

  function CommonPrefix(a: seq<Path>, b: seq<Path>): (n: nat)
    ensures n <= |a| && n <= |b| && a[..n] == b[..n]
  {
    if a == [] || b == [] || a[0] != b[0] then 0 else 1 + CommonPrefix(a[1..], b[1..])
  }

  /** path.relative between absolute paths: one '..' for each segment to leave, then the way down. */
  function Relative(from: seq<Path>, to: seq<Path>): Path {
    var n := CommonPrefix(from, to);
    var segs := seq(|from| - n, _ => [DOT, DOT]) + to[n..];
    if segs == [] then [] else Join(segs)
  }

  predicate StartsWithTwoDots(p: Path) {
    |p| >= 2 && p[..2] == [DOT, DOT]
  }

  /** The test before each entry: no relative path, one that begins with two dots, or an absolute one. */
  predicate LooksOutside(root: seq<Path>, p: Path) {
    var rel := Relative(root, Resolve(root, Split(p)));
    rel == [] || StartsWithTwoDots(rel) || rel[0] == SLASH
  }

  lemma {:induction false} CommonPrefixOfExtension(a: seq<Path>, b: seq<Path>)
    ensures CommonPrefix(a, a + b) == |a|
  {
    if a != [] {
      assert (a + b)[1..] == a[1..] + b;
      CommonPrefixOfExtension(a[1..], b);
    }
  }

  /**
   * What the guard decides. No entry the reader lets through leads outside, yet the guard refuses
   * those whose path merely begins with two dots, wherever the destination is.
   */
  lemma GuardExactly(root: seq<Path>, p: Path)
    requires Safe(p)
    ensures Relative(root, Resolve(root, Split(p))) == p
    ensures LooksOutside(root, p) <==> StartsWithTwoDots(p)
  {
    ResolvesInside(root, Split(p));
    CommonPrefixOfExtension(root, Split(p));
    assert (root + Split(p))[|root|..] == Split(p);
    var none: seq<Path> := seq(0, _ => [DOT, DOT]);
    assert none + Split(p) == Split(p);
    JoinSplit(p);
    SafeEnds(p);
  }

  // ---------------------------------------------------------------- writing entries

  /** The path or one of its parents is a symbolic link. */
  ghost predicate LinkOnPath(f: Fs, p: Path) {
    exists a :: a in f && Within(a, p) && f[a].FsLink?
  }

  /** Making the directories `ds`: existing ones stay; anything else in the way is an error. */
  ghost function MakeAll(f: Fs, ds: set<Path>): Option<Fs> {
    if exists a :: a in ds && a in f && !f[a].FsDir? then None
    else Some(f + map a | a in ds :: FsDir)
  }

  /** Recursive mkdir of a path, and of its parent. */
  ghost function MkdirAll(f: Fs, p: Path): Option<Fs> {
    MakeAll(f, Ancestors({p}) + {p})
  }

  ghost function MkdirParents(f: Fs, p: Path): Option<Fs> {
    MakeAll(f, Ancestors({p}))
  }

  ghost function ExtractOne(f: Fs, e: Entry): Result<Fs, ExtractError> {
    if StartsWithTwoDots(e.path) then Err(Escapes)
    else if LinkOnPath(f, e.path) then Err(ThroughLink)
    else if e.isDir then
      match MkdirAll(f, e.path)
      case None => Err(Exists)
      case Some(g) => Ok(g)
    else
      match MkdirParents(f, e.path)
      case None => Err(Exists)
      case Some(g) =>
        if e.path in g then Err(Exists) else Ok(g[e.path := FsFile(e.data, AnyExecuteBit(e.mode))])
  }

  ghost function ExtractAll(f: Fs, es: seq<Entry>): Result<Fs, ExtractError>
    decreases |es|
  {
    if es == [] then Ok(f)
    else match ExtractOne(f, es[0])
      case Err(x) => Err(x)
      case Ok(g) => ExtractAll(g, es[1..])
  }

  /**
   * extractTar: the archive is read, and so validated, before anything is written; the guard, links
   * and existing places are met entry by entry, after earlier entries are on disk.
   */
  ghost function ExtractTar(bytes: Bytes, f: Fs, allowNonEmpty: bool): Result<Fs, ExtractError> {
    match ReadTar(bytes)
    case Err(x) => Err(Unreadable(x))
    case Ok(es) => if !allowNonEmpty && f != map[] then Err(NotEmpty) else ExtractAll(f, es)
  }

  lemma AncestorsOfOne(p: Path, a: Path)
    ensures a in Ancestors({p}) <==> IsAncestor(a, p)
  {
    AncestorsMember({p}, a);
  }

  ghost predicate Keeps(f: Fs, g: Fs) {
    forall p :: p in f ==> p in g && g[p] == f[p]
  }

  lemma ExtractOneKeeps(f: Fs, e: Entry)
    requires ExtractOne(f, e).Ok?
    ensures Keeps(f, ExtractOne(f, e).value)
  {
    forall p ensures p in Ancestors({e.path}) <==> IsAncestor(p, e.path) { AncestorsOfOne(e.path, p); }
  }

  /** Existing files, links and directories are never replaced. */
  lemma {:induction false} ExtractKeeps(f: Fs, es: seq<Entry>)
    requires ExtractAll(f, es).Ok?
    ensures Keeps(f, ExtractAll(f, es).value)
    decreases |es|
  {
    if es != [] {
      ExtractOneKeeps(f, es[0]);
      ExtractKeeps(ExtractOne(f, es[0]).value, es[1..]);
    }
  }

  // ---------------------------------------------------------------- extract, then archive

  function FsOfNode(n: Node): FsNode {
    match n
    case File(data, x) => FsFile(data, x)
    case Dir => FsDir
  }

  function FsOf(t: Tree): Fs {
    map p | p in t :: FsOfNode(t[p])
  }

  ghost predicate PartOf(f: Fs, t: Tree) {
    forall p :: p in f ==> p in t && f[p] == FsOfNode(t[p])
  }

  lemma ExtractStep(f: Fs, t: Tree, p: Path)
    requires ProperTree(t) && PartOf(f, t) && p in t && (t[p].File? ==> p !in f) && !StartsWithTwoDots(p)
    ensures ExtractOne(f, EntryOf(p, t[p])).Ok?
    ensures var g := ExtractOne(f, EntryOf(p, t[p])).value;
            && PartOf(g, t) && p in g && (forall q :: q in f ==> q in g)
            && (forall q :: q in g && q !in f ==> q == p || t[q].Dir?)
  {
    forall a ensures a in Ancestors({p}) <==> IsAncestor(a, p) { AncestorsOfOne(p, a); }
    NodeOfEntry(p, t[p]);
  }

  lemma ExtractCons(f: Fs, e: Entry, es: seq<Entry>, g: Fs)
    requires ExtractOne(f, e) == Ok(g)
    ensures ExtractAll(f, [e] + es) == ExtractAll(g, es)
  {
    assert ([e] + es)[1..] == es;
  }

  /** The path of some entry begins with two dots. */
  ghost predicate Trips(order: seq<Path>) {
    exists p :: p in order && StartsWithTwoDots(p)
  }

  /**
   * Extracting a tree's entries, in any order, rebuilds the tree, unless a path begins with two dots:
   * then the extraction fails.
   */
  lemma {:induction false} ExtractEntries(order: seq<Path>, t: Tree, f: Fs)
    requires ProperTree(t) && PartOf(f, t) && Distinct(order) && forall p :: p in order ==> p in t
    requires forall p :: p in order && t[p].File? ==> p !in f
    ensures Trips(order) ==> ExtractAll(f, EntriesIn(order, t)) == Err(Escapes)
    ensures !Trips(order) ==> ExtractAll(f, EntriesIn(order, t)).Ok?
    ensures !Trips(order) ==>
              var g := ExtractAll(f, EntriesIn(order, t)).value;
              PartOf(g, t) && forall p :: p in f || p in order ==> p in g
    decreases |order|
  {
    if order != [] {
      assert order == [order[0]] + order[1..];
      if StartsWithTwoDots(order[0]) {
        EntriesInCons(order, t);
      } else {
        var g := FirstExtracted(order, t, f);
        ExtractEntries(order[1..], t, g);
        assert Trips(order) <==> Trips(order[1..]);
      }
    }
  }

  /** Extracting the first entry leaves the rest to be extracted into a larger part of the tree. */
  lemma FirstExtracted(order: seq<Path>, t: Tree, f: Fs) returns (g: Fs)
    requires ProperTree(t) && PartOf(f, t) && Distinct(order) && order != [] && forall p :: p in order ==> p in t
    requires (forall p :: p in order && t[p].File? ==> p !in f) && !StartsWithTwoDots(order[0])
    ensures PartOf(g, t) && order[0] in g && (forall q :: q in f ==> q in g)
    ensures Distinct(order[1..]) && (forall p :: p in order[1..] ==> p in t)
    ensures forall p :: p in order[1..] && t[p].File? ==> p !in g
    ensures ExtractAll(f, EntriesIn(order, t)) == ExtractAll(g, EntriesIn(order[1..], t))
  {
    var p := order[0];
    EntriesInCons(order, t);
    ExtractStep(f, t, p);
    g := ExtractOne(f, EntryOf(p, t[p])).value;
    ExtractCons(f, EntryOf(p, t[p]), EntriesIn(order[1..], t), g);
    forall q | q in order[1..] ensures q in order && q != p { InTail(order, q); }
  }

  ghost predicate TreeTrips(t: Tree) {
    exists p :: p in t && StartsWithTwoDots(p)
  }

  lemma ExtractTree(t: Tree)
    requires ProperTree(t)
    ensures ExtractAll(map[], Entries(t)) == if TreeTrips(t) then Err(Escapes) else Ok(FsOf(t))
  {
    var order := SortedOf(t.Keys);
    SortedDistinct(order);
    ExtractEntries(order, t, map[]);
    assert Trips(order) <==> TreeTrips(t);
    if !TreeTrips(t) {
      var g := ExtractAll(map[], EntriesIn(order, t)).value;
      assert g == FsOf(t);
    }
  }

  lemma FsOfProper(t: Tree)
    requires ProperTree(t)
    ensures ProperFs(FsOf(t))
  {
    forall p | p in t ensures p != [] && forall s :: s in Split(p) ==> FileName(s) {
      SafeEnds(p);
      forall s | s in Split(p) ensures FileName(s) { SegmentBytes(p, s); }
    }
  }

  lemma {:induction false} SegmentBytes(p: Path, s: Path)
    requires s in Split(p)
    ensures forall c :: c in s ==> c in p
  {
    if p != [] {
      var rest := Split(p[1..]);
      if p[0] == SLASH {
        if s != [] { assert s in rest; SegmentBytes(p[1..], s); }
      } else {
        if s in rest[1..] {
          assert s in rest;
          SegmentBytes(p[1..], s);
        } else {
          assert s == [p[0]] + rest[0];
          assert rest[0] in rest;
          SegmentBytes(p[1..], rest[0]);
        }
      }
    }
  }

  /** Nothing in the tree is excluded. */
  ghost predicate NothingExcluded(t: Tree, o: Options) {
    forall p :: p in t ==> !Excluded(o, p, BaseName(p), t[p].Dir?)
  }

  lemma KeptTreeOfFsOf(t: Tree, o: Options)
    requires ProperTree(t)
    ensures KeptTree(FsOf(t), o) == t <==> NothingExcluded(t, o)
  {
    var fs := FsOf(t);
    if NothingExcluded(t, o) {
      forall p | p in t ensures Kept(fs, o, p) && NodeOfFs(fs[p]) == t[p] {
        forall a | Within(a, p) && a != [] ensures a in fs && !ExcludedAt(fs, o, a) {}
      }
      assert KeptTree(fs, o) == t;
    } else {
      var p :| p in t && Excluded(o, p, BaseName(p), t[p].Dir?);
      SafeEnds(p);
      assert Within(p, p) && ExcludedAt(fs, o, p);
      assert p !in KeptTree(fs, o);
    }
  }

  lemma ExtractWritten(inputs: seq<TarInput>)
    requires WriteTar(inputs).Ok?
    ensures ExtractTar(WriteTar(inputs).value, map[], false)
            == if TreeTrips(TreeOf(inputs)) then Err(Escapes) else Ok(FsOf(TreeOf(inputs)))
  {
    RoundTrip(inputs);
    WrittenTreeIsProper(inputs);
    ExtractTree(TreeOf(inputs));
  }

  /**
   * Extracting a canonical archive into an empty directory succeeds exactly when no path in it begins
   * with two dots; archiving that directory then gives back the original bytes exactly when the archive
   * holds no excluded name.
   */
  lemma ExtractThenArchive(inputs: seq<TarInput>, o: Options)
    requires WriteTar(inputs).Ok?
    ensures var b := WriteTar(inputs).value;
            var f := ExtractTar(b, map[], false);
            && (f.Ok? <==> !TreeTrips(TreeOf(inputs)))
            && (f.Err? ==> f.error == Escapes)
            && (f.Ok? ==> (OkOnly(CanonicalTarOfDir(f.value, o)) == Some(b) <==> NothingExcluded(TreeOf(inputs), o)))
  {
    ExtractWritten(inputs);
    WrittenTreeIsProper(inputs);
    if !TreeTrips(TreeOf(inputs)) { ArchiveExtracted(TreeOf(inputs), WriteTar(inputs).value, o); }
  }

  lemma ArchiveExtracted(t: Tree, b: Bytes, o: Options)
    requires ProperTree(t) && TarBytes(t) == Ok(b)
    ensures OkOnly(CanonicalTarOfDir(FsOf(t), o)) == Some(b) <==> NothingExcluded(t, o)
  {
    var fs := FsOf(t);
    FsOfProper(t);
    assert AllPlain(fs, o);
    assert AllPortable(fs, o);
    DirArchive(fs, o);
    KeptTreeOfFsOf(t, o);
    forall p | p in fs && Kept(fs, o, p) ensures Safe(p) {}
    KeptTreeIsProper(fs, o);
    BytesDetermineTree(t, KeptTree(fs, o), b);
  }

  lemma BytesDetermineTree(t: Tree, u: Tree, b: Bytes)
    requires ProperTree(t) && ProperTree(u) && TarBytes(t) == Ok(b)
    ensures OkOnly(TarBytes(u)) == Some(b) <==> u == t
  {
    if TarBytes(u) == Ok(b) {
      ReadTarBytes(t);
      ReadTarBytes(u);
      EntriesDetermineTree(u, t);
    }
  }

  // ---------------------------------------------------------------- where the guard is wrong

  const DOTTED_NAME: Path := [DOT, DOT, 97]
  const DOTTED_INPUTS: seq<TarInput> := [FileInput(DOTTED_NAME, Some([]), false)]

  lemma DottedIsSafe()
    ensures Safe(DOTTED_NAME) && NormalizeTarPath(DOTTED_NAME) == Ok(DOTTED_NAME)
  {
    SplitNoSlash(DOTTED_NAME);
    NormalizeExactly(DOTTED_NAME, DOTTED_NAME);
  }

  lemma DottedTree()
    ensures Collect(DOTTED_INPUTS, map[]) == Ok(map[DOTTED_NAME := File([], false)])
    ensures TreeOf(DOTTED_INPUTS) == map[DOTTED_NAME := File([], false)]
  {
    DottedIsSafe();
    assert DOTTED_INPUTS[1..] == [];
    var m: Tree := map[DOTTED_NAME := File([], false)];
    assert Collect(DOTTED_INPUTS, map[]) == Collect([], m);
    assert m.Keys == {DOTTED_NAME} && Ancestors({DOTTED_NAME}) == {};
  }

  lemma DottedArchive()
    ensures TarBytes(map[DOTTED_NAME := File([], false)]).Ok?
  {
    var t: Tree := map[DOTTED_NAME := File([], false)];
    assert t.Keys == {DOTTED_NAME};
    SortedUnique(SortedOf(t.Keys), [DOTTED_NAME]);
    HeaderAccepts(DOTTED_NAME, false, MODE_FILE, 0);
    assert Shift(DOTTED_NAME, []) == Ok((DOTTED_NAME, []));
    assert Serialize([DOTTED_NAME][1..], t) == Ok([]);
  }

  /** A single file named ..a: the writer accepts it, and extraction refuses the archive. */
  lemma DottedNameRefused()
    ensures WriteTar(DOTTED_INPUTS).Ok? && ExtractTar(WriteTar(DOTTED_INPUTS).value, map[], false) == Err(Escapes)
  {
    DottedTree();
    DottedArchive();
    assert !FileAsParent(map[DOTTED_NAME := File([], false)]);
    ExtractWritten(DOTTED_INPUTS);
    assert DOTTED_NAME in TreeOf(DOTTED_INPUTS) && StartsWithTwoDots(DOTTED_NAME);
  }

  /** The entries before the first path that trips the guard are extracted, and that one is refused. */
  lemma LeftInOrder(order: seq<Path>, t: Tree, k: nat)
    requires ProperTree(t) && Distinct(order) && (forall p :: p in order ==> p in t) && k < |order|
    requires StartsWithTwoDots(order[k]) && !Trips(order[..k])
    ensures ExtractAll(map[], EntriesIn(order[..k], t)).Ok?
    ensures forall p :: p in order[..k] ==> p in ExtractAll(map[], EntriesIn(order[..k], t)).value
    ensures forall f :: ExtractOne(f, EntriesIn(order, t)[k]) == Err(Escapes)
  {
    ExtractEntries(order[..k], t, map[]);
  }

  lemma EntriesPrefix(order: seq<Path>, t: Tree, k: nat)
    requires (forall p :: p in order ==> p in t) && k <= |order|
    ensures EntriesIn(order, t)[..k] == EntriesIn(order[..k], t)
  {
  }

  /** What a refused extraction leaves on disk: every entry before the first path that trips the guard. */
  lemma LeftBehind(inputs: seq<TarInput>, k: nat)
    requires WriteTar(inputs).Ok? && k < |SortedOf(TreeOf(inputs).Keys)|
    requires StartsWithTwoDots(SortedOf(TreeOf(inputs).Keys)[k]) && !Trips(SortedOf(TreeOf(inputs).Keys)[..k])
    ensures var es := Entries(TreeOf(inputs));
            var before := ExtractAll(map[], es[..k]);
            && before.Ok? && (forall p :: p in SortedOf(TreeOf(inputs).Keys)[..k] ==> p in before.value)
            && ExtractOne(before.value, es[k]) == Err(Escapes)
  {
    var t := TreeOf(inputs);
    WrittenTreeIsProper(inputs);
    SortedDistinct(SortedOf(t.Keys));
    EntriesPrefix(SortedOf(t.Keys), t, k);
    LeftInOrder(SortedOf(t.Keys), t, k);
  }

  ghost predicate SomeEntryTrips(es: seq<Entry>) {
    exists i :: 0 <= i < |es| && StartsWithTwoDots(es[i].path)
  }

  lemma TripsInEntries(order: seq<Path>, t: Tree)
    requires forall p :: p in order <==> p in t
    ensures SomeEntryTrips(EntriesIn(order, t)) <==> TreeTrips(t)
  {
    forall i | 0 <= i < |order| ensures EntriesIn(order, t)[i].path == order[i] && order[i] in t {}
    if p :| p in t && StartsWithTwoDots(p) {
      var i :| 0 <= i < |order| && order[i] == p;
      assert EntriesIn(order, t)[i].path == p;
    }
  }

  /** An archive that passes the buyer's canonical check can be extracted exactly when no entry trips the guard. */
  lemma CanonicalExtracts(b: Bytes)
    requires IsCanonical(b)
    ensures ExtractTar(b, map[], false).Ok? <==> !SomeEntryTrips(ReadTar(b).value)
  {
    var inputs := Inputs(ReadTar(b).value);
    RoundTrip(inputs);
    ExtractWritten(inputs);
    TripsInEntries(SortedOf(TreeOf(inputs).Keys), TreeOf(inputs));
  }

  // ---------------------------------------------------------------- extraction as a program

  /** The destination as the file system keeps it: every parent is present. */
  ghost predicate ParentsPresent(f: Fs) {
    forall p, a :: p in f && IsAncestor(a, p) ==> a in f
  }

  lemma PrefixWithin(p: Path, i: nat)
    requires Safe(p) && 0 < i <= |Split(p)|
    ensures Within(Join(Split(p)[..i]), p)
    ensures i < |Split(p)| ==> IsAncestor(Join(Split(p)[..i]), p)
  {
    JoinSplit(p);
    if i < |Split(p)| { AncestorsAreSegmentPrefixes(p, Join(Split(p)[..i])); }
    else { assert Split(p)[..i] == Split(p); }
  }

  lemma WithinIsPrefix(p: Path, a: Path)
    requires Safe(p) && Within(a, p)
    ensures exists i :: 0 < i <= |Split(p)| && a == Join(Split(p)[..i])
  {
    JoinSplit(p);
    if a == p { assert Split(p)[..|Split(p)|] == Split(p); }
    else { AncestorsAreSegmentPrefixes(p, a); }
  }

  /** lstat of each prefix in turn, stopping at the first that does not exist. */
  method FindLink(f: Fs, p: Path) returns (found: bool)
    requires ParentsPresent(f) && Safe(p)
    ensures found <==> LinkOnPath(f, p)
  {
    var segs := Split(p);
    for i := 1 to |segs| + 1
      invariant forall k :: 0 < k < i ==> Join(segs[..k]) in f && !f[Join(segs[..k])].FsLink?
    {
      var cur := Join(segs[..i]);
      PrefixWithin(p, i);
      if cur !in f {
        forall a | a in f && Within(a, p) ensures !f[a].FsLink? {
          WithinIsPrefix(p, a);
          var k :| 0 < k <= |segs| && a == Join(segs[..k]);
          if k > i { PrefixBefore(p, i, k); }
        }
        return false;
      }
      if f[cur].FsLink? { return true; }
    }
    forall a | a in f && Within(a, p) ensures !f[a].FsLink? { WithinIsPrefix(p, a); }
    return false;
  }

  lemma PrefixBefore(p: Path, i: nat, k: nat)
    requires Safe(p) && 0 < i < k <= |Split(p)|
    ensures IsAncestor(Join(Split(p)[..i]), Join(Split(p)[..k]))
  {
    var segs := Split(p);
    assert segs[..k] == segs[..i] + segs[i..k];
    JoinAppend(segs[..i], segs[i..k]);
    SplitHead(Join(segs[..i]));
    SplitJoin(segs[..i]);
    assert segs[0] in segs;
  }

  lemma MakeOneMore(f: Fs, ds: set<Path>, a: Path)
    ensures MakeAll(f, ds + {a}) == match MakeAll(f, ds)
                                    case None => None
                                    case Some(g) => if a in g && !g[a].FsDir? then None else Some(g[a := FsDir])
  {
    if MakeAll(f, ds).Some? {
      var g := MakeAll(f, ds).value;
      if !(a in g && !g[a].FsDir?) {
        assert f + (map b | b in ds + {a} :: FsDir) == g[a := FsDir];
      }
    }
  }

  /** mkdir -p of the first `n` segments. */
  method MakeDirs(f: Fs, p: Path, n: nat) returns (r: Option<Fs>)
    requires Safe(p) && n <= |Split(p)|
    ensures r == MakeAll(f, Prefixes(Split(p), n + 1))
  {
    r := MakePrefixes(f, Split(p), n);
  }

  method MakePrefixes(f: Fs, segs: seq<Path>, n: nat) returns (r: Option<Fs>)
    requires n <= |segs|
    ensures r == MakeAll(f, Prefixes(segs, n + 1))
  {
    var g := f;
    MakeNothing(f, segs);
    for i := 1 to n + 1
      invariant MakeAll(f, Prefixes(segs, i)) == Some(g)
    {
      var made := MakeNext(f, segs, i, g);
      if made.None? {
        Blocked(f, segs, i, n);
        return None;
      }
      g := made.value;
    }
    return Some(g);
  }

  lemma MakeNothing(f: Fs, segs: seq<Path>)
    ensures MakeAll(f, Prefixes(segs, 1)) == Some(f)
  {
    assert Prefixes(segs, 1) == {};
    assert f + (map b | b in Prefixes(segs, 1) :: FsDir) == f;
  }

  /** One more mkdir, for the next longer prefix. */
  method MakeNext(ghost f: Fs, segs: seq<Path>, i: nat, g: Fs) returns (r: Option<Fs>)
    requires 0 < i <= |segs| && MakeAll(f, Prefixes(segs, i)) == Some(g)
    ensures r == MakeAll(f, Prefixes(segs, i + 1))
  {
    var cur := Join(segs[..i]);
    PrefixesNext(segs, i);
    MakeOneMore(f, Prefixes(segs, i), cur);
    if cur in g && !g[cur].FsDir? { return None; }
    return Some(g[cur := FsDir]);
  }

  lemma Blocked(f: Fs, segs: seq<Path>, i: nat, n: nat)
    requires 0 < i <= n <= |segs| && MakeAll(f, Prefixes(segs, i + 1)) == None
    ensures MakeAll(f, Prefixes(segs, n + 1)) == None
  {
    var a :| a in Prefixes(segs, i + 1) && a in f && !f[a].FsDir?;
    assert a in Prefixes(segs, n + 1);
  }

  method ExtractOneProgram(root: seq<Path>, f: Fs, e: Entry) returns (r: Result<Fs, ExtractError>)
    requires ParentsPresent(f) && Safe(e.path)
    ensures r == ExtractOne(f, e)
  {
    var p := e.path;
    var segs := Split(p);
    PrefixesAreAncestors(p);
    JoinSplit(p);
    PrefixesNext(segs, |segs|);
    assert segs[..|segs|] == segs;
    GuardExactly(root, p);
    if LooksOutside(root, p) { return Err(Escapes); }
    var linked := FindLink(f, p);
    if linked { return Err(ThroughLink); }
    if e.isDir {
      var made := MakeDirs(f, p, |segs|);
      if made.None? { return Err(Exists); }
      return Ok(made.value);
    } else {
      var made := MakeDirs(f, p, |segs| - 1);
      if made.None? { return Err(Exists); }
      if p in made.value { return Err(Exists); }
      return Ok(made.value[p := FsFile(e.data, AnyExecuteBit(e.mode))]);
    }
  }

  lemma ExtractOneParents(f: Fs, e: Entry)
    requires ParentsPresent(f) && ExtractOne(f, e).Ok?
    ensures ParentsPresent(ExtractOne(f, e).value)
  {
    var g := ExtractOne(f, e).value;
    forall a ensures a in Ancestors({e.path}) <==> IsAncestor(a, e.path) { AncestorsOfOne(e.path, a); }
    forall p, a | p in g && IsAncestor(a, p) ensures a in g {
      if IsAncestor(p, e.path) { AncestorTransitive(a, p, e.path); }
    }
  }

  /** The extraction loop over a validated archive, into the directory at `root`. */
  method ExtractTarProgram(root: seq<Path>, bytes: Bytes, f: Fs, allowNonEmpty: bool)
    returns (r: Result<Fs, ExtractError>)
    requires ParentsPresent(f)
    ensures r == ExtractTar(bytes, f, allowNonEmpty)
  {
    var read := ReadTarProgram(bytes);
    if read.Err? { return Err(Unreadable(read.error)); }
    if !allowNonEmpty && f != map[] { return Err(NotEmpty); }
    var es := read.value;
    ReadPaths(bytes, {});
    var g := f;
    assert es[0..] == es;
    for k := 0 to |es|
      invariant ParentsPresent(g) && ExtractAll(f, es) == ExtractAll(g, es[k..])
    {
      assert es[k..][1..] == es[k + 1..];
      assert GoodEntry(es[k], {});
      ghost var before := g;
      var one := ExtractOneProgram(root, g, es[k]);
      if one.Err? { return one; }
      g := one.value;
      ExtractOneParents(before, es[k]);
    }
    return Ok(g);
  }
}
