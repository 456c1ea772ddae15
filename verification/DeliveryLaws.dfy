/** An honest delivery: exactly when the archive a seller packages passes every archive check. */
module DeliveryLaws {
  import opened Base
  import opened Lex
  import opened TarPath
  import opened TarHeader
  import opened TarWriter
  import opened TarReader
  import opened TarLaws
  import opened TarDir
  import opened TarDirLaws
  import opened Delivery

  // ---------------------------------------------------------------- entry lists and trees

  /** `es` lists the nodes of `t`, each once. */
  ghost predicate ListsTree(es: seq<Entry>, t: Tree) {
    && Fresh(es, map[])
    && (forall p :: p in t <==> HasPath(es, p))
    && (forall i :: 0 <= i < |es| ==> es[i].path in t && NodeOf(es[i]) == t[es[i].path])
  }

  lemma CollectListed(es: seq<Entry>, t: Tree)
    requires ListsTree(es, t)
    ensures Collect(Inputs(es), map[]) == Ok(t)
  {
    CollectDistinct(es, map[]);
    var c := AddAll(es, map[]);
    forall p ensures p in c <==> p in t { AddAllMember(es, map[], p); }
    forall p | p in t ensures c[p] == t[p] {
      AddAllValue(es, map[], p);
      var i :| 0 <= i < |es| && es[i].path == p;
    }
    assert c == t;
  }

  lemma WriteListed(es: seq<Entry>, t: Tree)
    requires ListsTree(es, t) && ProperTree(t)
    ensures OkOnly(WriteTar(Inputs(es))) == OkOnly(TarBytes(t))
  {
    CollectListed(es, t);
    ProperTreeIsClosed(t);
  }

  lemma EntriesListTree(t: Tree)
    requires ProperTree(t)
    ensures ListsTree(Entries(t), t)
  {
    EntriesFresh(t);
    forall p ensures p in t <==> HasPath(Entries(t), p) { EntriesLookup(t, p); }
    forall i | 0 <= i < |Entries(t)| ensures Entries(t)[i].path in t && NodeOf(Entries(t)[i]) == t[Entries(t)[i].path] {
      EntriesLookup(t, Entries(t)[i].path);
    }
  }

  lemma FreshCons(e: Entry, es: seq<Entry>)
    requires Fresh(es, map[]) && Safe(e.path) && !HasPath(es, e.path)
    ensures Fresh([e] + es, map[])
  {
  }

  lemma FreshTail(es: seq<Entry>)
    requires es != [] && Fresh(es, map[])
    ensures Fresh(es[1..], map[]) && Safe(es[0].path) && !HasPath(es[1..], es[0].path)
  {
  }

  lemma HasPathCons(e: Entry, es: seq<Entry>, p: Path)
    ensures HasPath([e] + es, p) <==> e.path == p || HasPath(es, p)
  {
    if e.path == p { assert ([e] + es)[0].path == p; }
    if HasPath(es, p) {
      var i :| 0 <= i < |es| && es[i].path == p;
      assert ([e] + es)[i + 1].path == p;
    }
  }

  lemma {:induction false} WithoutEntries(es: seq<Entry>, m: Path)
    requires Fresh(es, map[])
    ensures Fresh(Without(es, m), map[])
    ensures forall p :: HasPath(Without(es, m), p) <==> p != m && HasPath(es, p)
    ensures forall e :: e in Without(es, m) ==> e in es
  {
    if es != [] {
      var rest := Without(es[1..], m);
      FreshTail(es);
      WithoutEntries(es[1..], m);
      assert es == [es[0]] + es[1..];
      forall p ensures HasPath(Without(es, m), p) <==> p != m && HasPath(es, p) {
        HasPathCons(es[0], es[1..], p);
        HasPathCons(es[0], rest, p);
        assert [] + rest == rest;
      }
      if es[0].path != m { FreshCons(es[0], rest); }
    }
  }

  /** Dropping one file's entry denotes the tree without that file. */
  lemma WithoutTree(t: Tree, m: Path)
    requires ProperTree(t)
    ensures ListsTree(Without(Entries(t), m), t - {m})
  {
    var es := Entries(t);
    var w := Without(es, m);
    EntriesListTree(t);
    WithoutEntries(es, m);
    forall i | 0 <= i < |w| ensures w[i].path in t - {m} && NodeOf(w[i]) == t[w[i].path] {
      assert w[i] in es && HasPath(w, w[i].path);
    }
  }

  function Cut(e: Entry, dir: Path): seq<Entry> {
    if IsAncestor(dir, e.path) then [e.(path := e.path[|dir| + 1..])] else []
  }

  lemma CutHas(e: Entry, dir: Path, q: Path)
    requires dir != [] && Safe(e.path)
    ensures HasPath(Cut(e, dir), q) <==> q != [] && e.path == dir + [SLASH] + q
  {
    SafeEnds(e.path);
    if IsAncestor(dir, e.path) {
      assert e.path == dir + [SLASH] + e.path[|dir| + 1..];
      assert Cut(e, dir)[0].path == e.path[|dir| + 1..];
      if e.path == dir + [SLASH] + q { assert q == e.path[|dir| + 1..]; }
    }
  }

  lemma HasPathConcat(a: seq<Entry>, b: seq<Entry>, q: Path)
    ensures HasPath(a + b, q) <==> HasPath(a, q) || HasPath(b, q)
  {
    if HasPath(a, q) { var i :| 0 <= i < |a| && a[i].path == q; assert (a + b)[i].path == q; }
    if HasPath(b, q) { var i :| 0 <= i < |b| && b[i].path == q; assert (a + b)[|a| + i].path == q; }
  }

  lemma {:induction false} StrippedHas(es: seq<Entry>, dir: Path, q: Path)
    requires Fresh(es, map[]) && dir != []
    ensures HasPath(Stripped(es, dir), q) <==> q != [] && HasPath(es, dir + [SLASH] + q)
  {
    if es != [] {
      FreshTail(es);
      StrippedHas(es[1..], dir, q);
      CutHas(es[0], dir, q);
      HasPathConcat(Cut(es[0], dir), Stripped(es[1..], dir), q);
      HasPathCons(es[0], es[1..], dir + [SLASH] + q);
      assert es == [es[0]] + es[1..];
    }
  }

  lemma {:induction false} StrippedFrom(es: seq<Entry>, dir: Path, e: Entry)
    requires e in Stripped(es, dir)
    ensures e.(path := dir + [SLASH] + e.path) in es
  {
    if e in Cut(es[0], dir) {
      assert es[0].path == dir + [SLASH] + e.path;
      assert es[0] == e.(path := dir + [SLASH] + e.path);
    } else {
      assert e in Stripped(es[1..], dir);
      StrippedFrom(es[1..], dir, e);
    }
  }

  ghost predicate DistinctPaths(es: seq<Entry>) {
    forall i, j :: 0 <= i < j < |es| ==> es[i].path != es[j].path
  }

  lemma {:induction false} StrippedDistinct(es: seq<Entry>, dir: Path)
    requires Fresh(es, map[]) && dir != []
    ensures DistinctPaths(Stripped(es, dir))
  {
    if es != [] {
      FreshTail(es);
      StrippedDistinct(es[1..], dir);
      var rest := Stripped(es[1..], dir);
      if IsAncestor(dir, es[0].path) {
        var q := es[0].path[|dir| + 1..];
        assert es[0].path == dir + [SLASH] + q;
        StrippedHas(es[1..], dir, q);
        forall i | 0 <= i < |rest| ensures rest[i].path != q {
          assert HasPath(rest, rest[i].path);
        }
      }
    }
  }

  lemma StrippedNode(t: Tree, dir: Path, e: Entry)
    requires ProperTree(t) && dir != [] && e in Stripped(Entries(t), dir)
    ensures e.path in Under(t, dir) && NodeOf(e) == Under(t, dir)[e.path]
  {
    var es := Entries(t);
    EntriesListTree(t);
    StrippedFrom(es, dir, e);
    var p := dir + [SLASH] + e.path;
    var k :| 0 <= k < |es| && es[k] == e.(path := p);
    assert es[k].path in t && NodeOf(es[k]) == t[es[k].path];
    var i :| 0 <= i < |Stripped(es, dir)| && Stripped(es, dir)[i] == e;
    assert HasPath(Stripped(es, dir), e.path);
    StrippedHas(es, dir, e.path);
    assert e.path in UnderPaths(t.Keys, dir);
  }

  /** Cutting the directory prefix off denotes the sub-directory. */
  lemma StrippedTree(t: Tree, dir: Path)
    requires ProperTree(t) && dir != [] && forall q :: q in Under(t, dir) ==> Safe(q)
    ensures ListsTree(Stripped(Entries(t), dir), Under(t, dir))
  {
    var es := Entries(t);
    var w := Stripped(es, dir);
    EntriesListTree(t);
    StrippedDistinct(es, dir);
    forall q ensures q in Under(t, dir) <==> HasPath(w, q) { StrippedKeys(t, dir, q); }
    forall i | 0 <= i < |w| ensures w[i].path in Under(t, dir) && NodeOf(w[i]) == Under(t, dir)[w[i].path] {
      StrippedNode(t, dir, w[i]);
    }
    ListsByFacts(w, Under(t, dir));
  }

  lemma StrippedKeys(t: Tree, dir: Path, q: Path)
    requires ProperTree(t) && dir != []
    ensures q in Under(t, dir) <==> HasPath(Stripped(Entries(t), dir), q)
  {
    EntriesListTree(t);
    StrippedHas(Entries(t), dir, q);
    assert q in Under(t, dir) <==> q in UnderPaths(t.Keys, dir);
  }

  lemma ListsByFacts(w: seq<Entry>, u: Tree)
    requires DistinctPaths(w) && (forall q :: q in u <==> HasPath(w, q)) && forall q :: q in u ==> Safe(q)
    requires forall i :: 0 <= i < |w| ==> w[i].path in u && NodeOf(w[i]) == u[w[i].path]
    ensures ListsTree(w, u)
  {
  }

  // ---------------------------------------------------------------- directories

  ghost function PlainTree(fs: Fs): Tree {
    map p | p in fs :: NodeOfFs(fs[p])
  }

  ghost predicate Untouched(fs: Fs, o: Options) {
    forall p :: p in fs ==> !ExcludedAt(fs, o, p)
  }

  lemma KeptAll(fs: Fs, o: Options)
    requires ProperFs(fs) && Untouched(fs, o)
    ensures KeptTree(fs, o) == PlainTree(fs)
  {
    forall p | p in fs ensures Kept(fs, o, p) {
      forall a | Within(a, p) && a != [] ensures a in fs && !ExcludedAt(fs, o, a) {}
    }
  }

  /** A successful archive of an untouched directory is the canonical archive of its tree. */
  lemma PlainArchive(fs: Fs, o: Options)
    requires ProperFs(fs) && Untouched(fs, o) && CanonicalTarOfDir(fs, o).Ok?
    ensures TarBytes(PlainTree(fs)) == Ok(CanonicalTarOfDir(fs, o).value)
    ensures ProperTree(PlainTree(fs))
  {
    DirArchive(fs, o);
    KeptAll(fs, o);
    forall p | p in fs && Kept(fs, o, p) ensures Safe(p) { PortableIsSafe(fs, p); }
    KeptTreeIsProper(fs, o);
  }

  lemma SegmentsOfAncestor(a: Path, p: Path)
    requires IsAncestor(a, p)
    ensures |Split(a)| < |Split(p)| && Split(a) == Split(p)[..|Split(a)|]
  {
    assert p == a + [SLASH] + p[|a| + 1..];
    SplitAround(a, p[|a| + 1..]);
  }

  lemma StageProper(s: Setup, ws: Fs)
    requires ProperFs(ws)
    ensures ProperFs(Stage(s, ws))
  {
    var f := Stage(s, ws);
    forall p, a | p in f && IsAncestor(a, p) ensures a in f && f[a].FsDir? {
      SegmentsOfAncestor(a, p);
      assert Split(a)[0] == Split(p)[0];
      forall n | n in Split(a) ensures n !in s.neverPackage { assert n in Split(p); }
    }
  }

  lemma HeadOf(m: Path, p: Path)
    requires SLASH !in m
    ensures p == m || IsAncestor(m, p) ==> Split(p)[0] == m
  {
    SplitNoSlash(m);
    if IsAncestor(m, p) { SegmentsOfAncestor(m, p); }
  }

  lemma StagedHeads(s: Setup, ws: Fs, p: Path)
    requires ProperSetup(s) && p in Stage(s, ws)
    ensures p != MANIFEST && !IsAncestor(MANIFEST, p) && BaseName(p) !in s.defaultExcluded
  {
    HeadOf(MANIFEST, p);
    assert BaseName(p) in Split(p);
  }

  lemma StagedUntouched(s: Setup, ws: Fs)
    requires ProperSetup(s)
    ensures Untouched(Stage(s, ws), DefaultOptions(s))
    ensures Untouched(Stage(s, ws), WithoutManifest(s))
  {
    var f := Stage(s, ws);
    forall p | p in f ensures !ExcludedAt(f, DefaultOptions(s), p) && !ExcludedAt(f, WithoutManifest(s), p) {
      StagedHeads(s, ws, p);
    }
  }

  lemma ManifestName()
    ensures Split(MANIFEST) == [MANIFEST] && FileName(MANIFEST) && MANIFEST != []
    ensures forall a :: !IsAncestor(a, MANIFEST)
  {
    assert SLASH !in MANIFEST && 0 !in MANIFEST && |MANIFEST| > 2;
    OneSegment(MANIFEST);
  }

  lemma OneSegment(p: Path)
    requires SLASH !in p && 0 !in p && |p| > 2
    ensures Split(p) == [p] && FileName(p) && p != []
    ensures forall a :: !IsAncestor(a, p)
  {
    SplitNoSlash(p);
    forall a ensures !IsAncestor(a, p) { NoSlashNoAncestor(a, p); }
  }

  lemma NoSlashNoAncestor(a: Path, p: Path)
    requires SLASH !in p
    ensures !IsAncestor(a, p)
  {
    assert forall i :: 0 <= i < |p| ==> p[i] in p;
  }

  /** Adding a file at a fresh top-level name keeps a directory proper. */
  lemma AddTopFile(f: Fs, name: Path, n: FsNode)
    requires ProperFs(f) && Split(name) == [name] && FileName(name) && name != []
    requires (forall a :: !IsAncestor(a, name)) && forall p :: p in f ==> p != name && !IsAncestor(name, p)
    ensures ProperFs(f[name := n])
  {
  }

  lemma FinishedProper(s: Setup, ws: Fs, text: Bytes)
    requires ProperSetup(s) && ProperFs(ws)
    ensures ProperFs(Finished(Stage(s, ws), text))
  {
    StageProper(s, ws);
    ManifestName();
    forall p | p in Stage(s, ws) ensures p != MANIFEST && !IsAncestor(MANIFEST, p) { StagedHeads(s, ws, p); }
    AddTopFile(Stage(s, ws), MANIFEST, FsFile(text, false));
  }

  lemma FinishedUntouched(s: Setup, ws: Fs, text: Bytes)
    requires ProperSetup(s)
    ensures Untouched(Finished(Stage(s, ws), text), DefaultOptions(s))
  {
    ManifestName();
    StagedUntouched(s, ws);
    var g := Finished(Stage(s, ws), text);
    forall p | p in g ensures !ExcludedAt(g, DefaultOptions(s), p) {
      if p != MANIFEST { StagedHeads(s, ws, p); }
    }
  }

  lemma UnderSegments(fs: Fs, dir: Path, q: Path)
    requires ProperFs(fs) && dir != [] && q in Under(fs, dir)
    ensures q != [] && (forall s :: s in Split(q) ==> FileName(s)) && BaseName(q) == BaseName(dir + [SLASH] + q)
  {
    assert q in UnderPaths(fs.Keys, dir);
    SplitAround(dir, q);
    forall s | s in Split(q) ensures FileName(s) { assert s in Split(dir + [SLASH] + q); }
  }

  lemma UnderAncestor(dir: Path, a: Path, q: Path)
    requires IsAncestor(a, q)
    ensures IsAncestor(dir + [SLASH] + a, dir + [SLASH] + q)
  {
    var p, b := dir + [SLASH] + q, dir + [SLASH] + a;
    assert p[..|b|] == dir + [SLASH] + q[..|a|];
  }

  lemma UnderProper(fs: Fs, dir: Path)
    requires ProperFs(fs) && dir != []
    ensures ProperFs(Under(fs, dir))
  {
    var u := Under(fs, dir);
    forall q | q in u ensures q != [] && forall s :: s in Split(q) ==> FileName(s) { UnderSegments(fs, dir, q); }
    forall q, a | q in u && IsAncestor(a, q) ensures a in u && u[a].FsDir? {
      assert q in UnderPaths(fs.Keys, dir);
      UnderAncestor(dir, a, q);
      assert a in UnderPaths(fs.Keys, dir);
    }
  }

  lemma UnderPlain(fs: Fs, dir: Path)
    ensures PlainTree(Under(fs, dir)) == Under(PlainTree(fs), dir)
  {
    assert PlainTree(fs).Keys == fs.Keys;
    assert PlainTree(Under(fs, dir)).Keys == UnderPaths(fs.Keys, dir) == Under(PlainTree(fs), dir).Keys;
  }

  lemma UnderUntouched(s: Setup, ws: Fs, dir: Path)
    requires ProperSetup(s) && ProperFs(ws) && dir != []
    ensures Untouched(Under(Stage(s, ws), dir), DefaultOptions(s))
  {
    var f := Stage(s, ws);
    StageProper(s, ws);
    var u := Under(f, dir);
    forall q | q in u ensures !ExcludedAt(u, DefaultOptions(s), q) {
      UnderSegments(f, dir, q);
      assert q in UnderPaths(f.Keys, dir);
      StagedHeads(s, ws, dir + [SLASH] + q);
    }
  }

  // ---------------------------------------------------------------- the package and its trees

  /** The trees behind a packaged version: the payload, and the payload with its manifest. */
  ghost predicate Packaged(s: Setup, bare: Tree, t: Tree, v: Version, text: Bytes) {
    && text == s.serialize(v.manifest)
    && ProperTree(bare) && TarBytes(bare).Ok? && v.manifest.bundleDigest == s.hash(TarBytes(bare).value)
    && ProperTree(Under(bare, GRADER)) && TarBytes(Under(bare, GRADER)).Ok?
    && v.manifest.graderDigest == s.hash(TarBytes(Under(bare, GRADER)).value)
    && MANIFEST !in bare && t == bare[MANIFEST := File(text, false)]
    && ProperTree(t) && TarBytes(t) == Ok(v.bundle)
    && v.bundleHash == s.hash(v.bundle) && v.manifestHash == s.hash(text)
  }

  /** The three archives a successful packaging makes. */
  lemma PackageParts(s: Setup, t: Template, payload: Fs, grader: Archive, bare: Archive, full: Bytes -> Archive)
    requires PackagePayload(s, t, payload, grader, bare, full).Ok?
    ensures var v := PackagePayload(s, t, payload, grader, bare, full).value;
            var text := s.serialize(v.manifest);
            && bare.Ok? && grader.Ok? && full(text).Ok?
            && v.manifest.bundleDigest == s.hash(bare.value) && v.manifest.graderDigest == s.hash(grader.value)
            && v.bundle == full(text).value && v.bundleHash == s.hash(v.bundle) && v.manifestHash == s.hash(text)
            && v.manifest.taskCount == |TaskDirs(payload)|
  {
  }

  lemma BareArchive(s: Setup, ws: Fs)
    requires ProperSetup(s) && ProperFs(ws) && CanonicalTarOfDir(Stage(s, ws), WithoutManifest(s)).Ok?
    ensures ProperTree(PlainTree(Stage(s, ws))) && MANIFEST !in PlainTree(Stage(s, ws))
    ensures TarBytes(PlainTree(Stage(s, ws))) == Ok(CanonicalTarOfDir(Stage(s, ws), WithoutManifest(s)).value)
  {
    StageProper(s, ws);
    StagedUntouched(s, ws);
    PlainArchive(Stage(s, ws), WithoutManifest(s));
    if MANIFEST in Stage(s, ws) { StagedHeads(s, ws, MANIFEST); }
  }

  lemma GraderArchive(s: Setup, ws: Fs)
    requires ProperSetup(s) && ProperFs(ws) && CanonicalTarOfDir(Under(Stage(s, ws), GRADER), DefaultOptions(s)).Ok?
    ensures var g := Under(PlainTree(Stage(s, ws)), GRADER);
            ProperTree(g) && TarBytes(g) == Ok(CanonicalTarOfDir(Under(Stage(s, ws), GRADER), DefaultOptions(s)).value)
  {
    StageProper(s, ws);
    UnderProper(Stage(s, ws), GRADER);
    UnderUntouched(s, ws, GRADER);
    PlainArchive(Under(Stage(s, ws), GRADER), DefaultOptions(s));
    UnderPlain(Stage(s, ws), GRADER);
  }

  lemma FullArchive(s: Setup, ws: Fs, text: Bytes)
    requires ProperSetup(s) && ProperFs(ws) && CanonicalTarOfDir(Finished(Stage(s, ws), text), DefaultOptions(s)).Ok?
    ensures var f := PlainTree(Finished(Stage(s, ws), text));
            && f == PlainTree(Stage(s, ws))[MANIFEST := File(text, false)]
            && ProperTree(f)
            && TarBytes(f) == Ok(CanonicalTarOfDir(Finished(Stage(s, ws), text), DefaultOptions(s)).value)
  {
    FinishedProper(s, ws, text);
    FinishedUntouched(s, ws, text);
    PlainArchive(Finished(Stage(s, ws), text), DefaultOptions(s));
    PlainFinished(Stage(s, ws), text);
  }

  lemma PackageTrees(s: Setup, ws: Fs, t: Template)
    requires ProperSetup(s) && ProperFs(ws) && PackageEnvironment(s, ws, t).Ok?
    ensures var v := PackageEnvironment(s, ws, t).value;
            && var text := s.serialize(v.manifest);
            && Packaged(s, PlainTree(Stage(s, ws)), PlainTree(Finished(Stage(s, ws), text)), v, text)
            && v.manifest.taskCount == |TaskDirs(Stage(s, ws))|
  {
    var v := PackageEnvironment(s, ws, t).value;
    var payload := Stage(s, ws);
    PackageParts(s, t, payload,
                 CanonicalTarOfDir(Under(payload, GRADER), DefaultOptions(s)),
                 CanonicalTarOfDir(payload, WithoutManifest(s)),
                 text => CanonicalTarOfDir(Finished(payload, text), DefaultOptions(s)));
    BareArchive(s, ws);
    GraderArchive(s, ws);
    FullArchive(s, ws, s.serialize(v.manifest));
  }

  lemma PlainFinished(payload: Fs, text: Bytes)
    ensures PlainTree(Finished(payload, text)) == PlainTree(payload)[MANIFEST := File(text, false)]
  {
  }

  // ---------------------------------------------------------------- what the buyer recomputes

  lemma {:induction false} FindManifestListed(es: seq<Entry>, data: Bytes)
    requires HasPath(es, MANIFEST)
    requires forall i :: 0 <= i < |es| && es[i].path == MANIFEST ==> !es[i].isDir && es[i].data == data
    ensures FindManifest(es) == Some(data)
  {
    if es[0].path != MANIFEST {
      var i :| 0 <= i < |es| && es[i].path == MANIFEST;
      assert es[1..][i - 1].path == MANIFEST;
      FindManifestListed(es[1..], data);
    }
  }

  lemma FindsManifest(t: Tree, text: Bytes)
    requires ProperTree(t) && MANIFEST in t && t[MANIFEST] == File(text, false)
    ensures FindManifest(Entries(t)) == Some(text)
  {
    ManifestEntry(t, text, Entries(t), MANIFEST);
    FindManifestListed(Entries(t), text);
  }

  lemma ManifestEntry(t: Tree, text: Bytes, es: seq<Entry>, m: Path)
    requires ProperTree(t) && m in t && t[m] == File(text, false) && es == Entries(t)
    ensures HasPath(es, m) && forall i :: 0 <= i < |es| && es[i].path == m ==> !es[i].isDir && es[i].data == text
  {
    EntriesListTree(t);
  }

  lemma WriteListedOk(es: seq<Entry>, t: Tree, b: Bytes)
    requires ListsTree(es, t) && ProperTree(t) && TarBytes(t) == Ok(b)
    ensures WriteTar(Inputs(es)) == Ok(b)
  {
    WriteListed(es, t);
  }

  /** Re-serialising without the manifest gives the archive taken before it was written. */
  lemma RecomputesBundle(bare: Tree, t: Tree, b: Bytes)
    requires ProperTree(bare) && TarBytes(bare) == Ok(b)
    requires ProperTree(t) && t - {MANIFEST} == bare
    ensures WriteTar(Inputs(Without(Entries(t), MANIFEST))) == Ok(b)
  {
    WithoutTree(t, MANIFEST);
    WriteListedOk(Without(Entries(t), MANIFEST), bare, b);
  }

  /** A change outside a directory does not change what is under it. */
  lemma UnderPut<T>(m: map<Path, T>, dir: Path, k: Path, v: T)
    requires forall q :: dir + [SLASH] + q != k
    ensures Under(m[k := v], dir) == Under(m, dir)
  {
    var n := m[k := v];
    forall q ensures q in UnderPaths(n.Keys, dir) <==> q in UnderPaths(m.Keys, dir) {
      assert dir + [SLASH] + q != k;
    }
    forall q | q in UnderPaths(m.Keys, dir) ensures n[dir + [SLASH] + q] == m[dir + [SLASH] + q] {
      assert dir + [SLASH] + q != k;
    }
    assert Under(n, dir).Keys == Under(m, dir).Keys;
  }

  lemma UnderUnchanged(bare: Tree, n: Node)
    ensures Under(bare[MANIFEST := n], GRADER) == Under(bare, GRADER)
  {
    forall q ensures GRADER + [SLASH] + q != MANIFEST { GraderPathNotManifest(q); }
    UnderPut(bare, GRADER, MANIFEST, n);
  }

  lemma GraderPathNotManifest(q: Path)
    ensures GRADER + [SLASH] + q != MANIFEST
  {
    assert (GRADER + [SLASH] + q)[0] == 103;
    assert MANIFEST[0] == 109;
  }

  /** Stripping the prefix off a directory's entries and re-serialising gives its own archive. */
  lemma RecomputesUnder(t: Tree, dir: Path, b: Bytes)
    requires ProperTree(t) && dir != [] && ProperTree(Under(t, dir)) && TarBytes(Under(t, dir)) == Ok(b)
    ensures var cut := Stripped(Entries(t), dir);
            WriteTar(Inputs(cut)) == Ok(b) && (cut == [] <==> Under(t, dir) == map[])
  {
    StrippedTree(t, dir);
    var cut := Stripped(Entries(t), dir);
    WriteListedOk(cut, Under(t, dir), b);
    if cut != [] { assert cut[0].path in Under(t, dir); }
    if Under(t, dir) != map[] {
      var q :| q in Under(t, dir);
      assert HasPath(cut, q);
    }
  }

  // ---------------------------------------------------------------- tasks

  lemma TaskPath(id: Path)
    requires SLASH !in id
    ensures Split(TASKS + [SLASH] + id) == [TASKS, id]
  {
    assert SLASH !in TASKS;
    SplitConcat(TASKS, id);
    SplitNoSlash(id);
  }

  lemma TaskIdPlace(p: Path)
    requires TaskIdOf(p).Some?
    ensures var id := TaskIdOf(p).value; SLASH !in id && Within(TASKS + [SLASH] + id, p)
  {
    var segs := Split(p);
    var id := segs[1];
    assert id in segs;
    JoinSplit(p);
    TaskPath(id);
    JoinSplit(TASKS + [SLASH] + id);
    if |segs| == 2 {
      assert segs == [TASKS, id];
    } else {
      assert segs == [TASKS, id] + segs[2..];
      JoinAppend([TASKS, id], segs[2..]);
    }
  }

  lemma FoundTaskInTree(t: Tree, es: seq<Entry>, i: nat)
    requires ProperTree(t) && ListsTree(es, t) && i < |es| && TaskIdOf(es[i].path).Some?
    ensures SLASH !in TaskIdOf(es[i].path).value && TASKS + [SLASH] + TaskIdOf(es[i].path).value in t
  {
    TaskIdPlace(es[i].path);
  }

  lemma TaskInTreeFound(t: Tree, es: seq<Entry>, id: Path)
    requires ListsTree(es, t) && SLASH !in id && TASKS + [SLASH] + id in t
    ensures id in TaskIds(es)
  {
    var p := TASKS + [SLASH] + id;
    TaskPath(id);
    assert HasPath(es, p);
    var i :| 0 <= i < |es| && es[i].path == p;
    assert TaskIdOf(es[i].path) == Some(id);
  }

  /** The task ids the buyer finds are the names directly under tasks/. */
  lemma TaskIdsOfTree(t: Tree, id: Path)
    requires ProperTree(t)
    ensures id in TaskIds(Entries(t)) <==> SLASH !in id && TASKS + [SLASH] + id in t
  {
    var es := Entries(t);
    EntriesListTree(t);
    if id in TaskIds(es) {
      var i :| 0 <= i < |es| && TaskIdOf(es[i].path).Some? && TaskIdOf(es[i].path).value == id;
      FoundTaskInTree(t, es, i);
    } else if SLASH !in id && TASKS + [SLASH] + id in t {
      TaskInTreeFound(t, es, id);
    }
  }

  lemma TwoSegments(p: Path)
    requires |Split(p)| == 2 && Split(p)[0] == TASKS
    ensures p == TASKS + [SLASH] + Split(p)[1] && SLASH !in Split(p)[1]
  {
    JoinSplit(p);
    var segs := Split(p);
    assert segs == [TASKS] + [segs[1]];
    JoinCons(TASKS, [segs[1]]);
    assert segs[1] in segs;
  }

  /** Every name directly under tasks/ is a directory. */
  ghost predicate NoStrayTaskFiles(payload: Fs) {
    forall p :: p in payload && |Split(p)| == 2 && Split(p)[0] == TASKS ==> payload[p].FsDir?
  }

  ghost function TaskNames(payload: Fs): set<Path> {
    set p | p in payload && |Split(p)| == 2 && Split(p)[0] == TASKS :: Split(p)[1]
  }

  lemma TaskNamesMember(payload: Fs, id: Path)
    ensures id in TaskNames(payload) <==> SLASH !in id && TASKS + [SLASH] + id in payload
    ensures id in TaskDirs(payload)
            <==> SLASH !in id && TASKS + [SLASH] + id in payload && payload[TASKS + [SLASH] + id].FsDir?
  {
    if SLASH !in id { TaskPath(id); }
    if id in TaskNames(payload) {
      var p :| p in payload && |Split(p)| == 2 && Split(p)[0] == TASKS && Split(p)[1] == id;
      TwoSegments(p);
    }
    if id in TaskDirs(payload) {
      var p :| p in payload && payload[p].FsDir? && |Split(p)| == 2 && Split(p)[0] == TASKS && Split(p)[1] == id;
      TwoSegments(p);
    }
  }

  /** The counts agree exactly when nothing but directories sits under tasks/. */
  lemma CountsAgree(payload: Fs)
    ensures |TaskNames(payload)| == |TaskDirs(payload)| <==> NoStrayTaskFiles(payload)
  {
    var names, dirs := TaskNames(payload), TaskDirs(payload);
    forall id ensures id in dirs ==> id in names { TaskNamesMember(payload, id); }
    assert names == dirs + (names - dirs);
    if NoStrayTaskFiles(payload) {
      forall id | id in names ensures id in dirs { TaskNamesMember(payload, id); TaskPath(id); }
      assert names == dirs;
    } else {
      var p :| p in payload && |Split(p)| == 2 && Split(p)[0] == TASKS && !payload[p].FsDir?;
      TwoSegments(p);
      TaskNamesMember(payload, Split(p)[1]);
      assert Split(p)[1] in names - dirs;
    }
  }

  lemma BuyerTaskIds(payload: Fs, text: Bytes)
    requires ProperTree(PlainTree(payload)[MANIFEST := File(text, false)])
    ensures TaskIds(Entries(PlainTree(payload)[MANIFEST := File(text, false)])) == TaskNames(payload)
  {
    var t := PlainTree(payload)[MANIFEST := File(text, false)];
    ManifestName();
    forall id ensures id in TaskIds(Entries(t)) <==> id in TaskNames(payload) {
      TaskIdsOfTree(t, id);
      TaskNamesMember(payload, id);
      if SLASH !in id { TaskPath(id); }
    }
  }

  /** Every task directory holds a task.json. */
  ghost predicate TasksComplete(payload: Fs) {
    forall id :: id in TaskNames(payload) ==> TaskJsonPath(id) in payload
  }

  lemma TaskJsonNotManifest(id: Path)
    ensures TaskJsonPath(id) != MANIFEST
  {
    assert TaskJsonPath(id)[0] == 116;
    assert MANIFEST[0] == 109;
  }

  ghost predicate PrivateNode(s: Setup, p: Path, n: Node) {
    s.forbiddenPath(p) || (n.File? && |n.data| < 2000000 && s.privateContent(n.data))
  }

  /** No file or directory of the archive trips the screening patterns. */
  ghost predicate NothingPrivate(s: Setup, t: Tree) {
    forall p :: p in t ==> !PrivateNode(s, p, t[p])
  }

  lemma ScreensTree(s: Setup, t: Tree)
    requires ProperTree(t)
    ensures (exists i :: 0 <= i < |Entries(t)| && Private(s, Entries(t)[i])) <==> !NothingPrivate(s, t)
  {
    var es := Entries(t);
    EntriesListTree(t);
    ReadBackNodes(t);
    forall i | 0 <= i < |es| ensures Private(s, es[i]) <==> PrivateNode(s, es[i].path, t[es[i].path]) {
      PrivateEntry(s, t, es[i]);
    }
    if !NothingPrivate(s, t) {
      var p :| p in t && PrivateNode(s, p, t[p]);
      assert HasPath(es, p);
      var i :| 0 <= i < |es| && es[i].path == p;
    }
  }

  lemma PrivateEntry(s: Setup, t: Tree, e: Entry)
    requires SameNode(e, t)
    ensures Private(s, e) <==> PrivateNode(s, e.path, t[e.path])
  {
  }

  lemma ReadBackNodes(t: Tree)
    requires ProperTree(t)
    ensures forall i :: 0 <= i < |Entries(t)| ==> SameNode(Entries(t)[i], t)
  {
    EntriesListTree(t);
  }

  ghost predicate SameNode(e: Entry, t: Tree) {
    e.path in t && e.isDir == t[e.path].Dir? && (t[e.path].File? ==> e.data == t[e.path].data)
  }

  // ---------------------------------------------------------------- main result

  lemma VerifyTasksOf(s: Setup, es: seq<Entry>, payload: Fs, t: Tree)
    requires TaskIds(es) == TaskNames(payload)
    requires forall id :: HasPath(es, TaskJsonPath(id)) <==> TaskJsonPath(id) in payload
    requires (exists i :: 0 <= i < |es| && Private(s, es[i])) <==> !NothingPrivate(s, t)
    ensures VerifyTasks(s, es, |TaskDirs(payload)|) == None
       <==> NoStrayTaskFiles(payload) && TasksComplete(payload) && NothingPrivate(s, t)
  {
    CountsAgree(payload);
  }

  lemma VerifyTasksOfPayload(s: Setup, payload: Fs, text: Bytes, t: Tree)
    requires t == PlainTree(payload)[MANIFEST := File(text, false)] && ProperTree(t)
    ensures VerifyTasks(s, Entries(t), |TaskDirs(payload)|) == None
       <==> NoStrayTaskFiles(payload) && TasksComplete(payload) && NothingPrivate(s, t)
  {
    BuyerTaskIds(payload, text);
    EntriesListTree(t);
    ScreensTree(s, t);
    forall id ensures HasPath(Entries(t), TaskJsonPath(id)) <==> TaskJsonPath(id) in payload {
      TaskJsonNotManifest(id);
    }
    VerifyTasksOf(s, Entries(t), payload, t);
  }

  /** The entry checks once each recomputed value is known. */
  lemma VerifyEntriesOf(s: Setup, es: seq<Entry>, bundleHash: Digest, c: OnChain, m: Manifest, text: Bytes)
    requires ProperSetup(s) && text == s.serialize(m)
    requires SameDigest(s, es, bundleHash) && FindManifest(es) == Some(text) && s.hash(text) == c.manifestHash
    requires CommitmentsMatch(m, c)
    requires SameDigest(s, Without(es, MANIFEST), m.bundleDigest) && SameDigest(s, Stripped(es, GRADER), m.graderDigest)
    ensures VerifyEntries(s, es, bundleHash, c) == None
            <==> Stripped(es, GRADER) != [] && VerifyTasks(s, es, c.taskCount) == None
  {
    assert s.parse(text) == Some(m);
  }

  /** Everything the buyer recomputes from the packaged archive. */
  lemma VerifyRecomputed(s: Setup, v: Version, text: Bytes, bare: Tree, t: Tree, g: Tree)
    requires ProperSetup(s) && text == s.serialize(v.manifest) && v.manifestHash == s.hash(text)
            && v.bundleHash == s.hash(v.bundle)
    requires ProperTree(t) && TarBytes(t) == Ok(v.bundle) && MANIFEST in t && t[MANIFEST] == File(text, false)
    requires ProperTree(bare) && t - {MANIFEST} == bare && TarBytes(bare).Ok?
            && v.manifest.bundleDigest == s.hash(TarBytes(bare).value)
    requires ProperTree(g) && Under(t, GRADER) == g && TarBytes(g).Ok?
            && v.manifest.graderDigest == s.hash(TarBytes(g).value)
    ensures ReadTar(v.bundle) == Ok(Entries(t))
    ensures VerifyEntries(s, Entries(t), v.bundleHash, OnChainOf(v)) == None
       <==> g != map[] && VerifyTasks(s, Entries(t), v.manifest.taskCount) == None
  {
    ReadTarBytes(t);
    RewriteTree(t);
    FindsManifest(t, text);
    RecomputesBundle(bare, t, TarBytes(bare).value);
    RecomputesUnder(t, GRADER, TarBytes(g).value);
    VerifyEntriesOf(s, Entries(t), v.bundleHash, OnChainOf(v), v.manifest, text);
  }

  lemma VerifyPackaged(s: Setup, bare: Tree, t: Tree, v: Version, text: Bytes)
    requires ProperSetup(s) && Packaged(s, bare, t, v, text)
    ensures ReadTar(v.bundle) == Ok(Entries(t))
    ensures VerifyEntries(s, Entries(t), v.bundleHash, OnChainOf(v)) == None
       <==> Under(bare, GRADER) != map[] && VerifyTasks(s, Entries(t), v.manifest.taskCount) == None
  {
    PutThenRemove(bare, MANIFEST, File(text, false));
    UnderUnchanged(bare, File(text, false));
    VerifyRecomputed(s, v, text, bare, t, Under(bare, GRADER));
  }

  lemma PutThenRemove<T>(m: map<Path, T>, k: Path, v: T)
    requires k !in m
    ensures var n := m[k := v]; k in n && n[k] == v && n - {k} == m
  {
  }

  /**
   * Honest delivery: whatever workspace packageEnvironment accepts, the archive it builds passes all
   * of the buyer's archive checks exactly when grader/ is not empty, only directories sit directly
   * under tasks/, each with a task.json, and nothing in it trips the private-material patterns.
   */
  lemma HonestDelivery(s: Setup, ws: Fs, t: Template)
    requires ProperSetup(s) && ProperFs(ws) && PackageEnvironment(s, ws, t).Ok?
    ensures var v := PackageEnvironment(s, ws, t).value;
            var payload := Stage(s, ws);
            VerifyArchive(s, v.bundle, OnChainOf(v)) == None
            <==> && Under(payload, GRADER) != map[]
                 && NoStrayTaskFiles(payload) && TasksComplete(payload)
                 && NothingPrivate(s, PlainTree(Finished(payload, s.serialize(v.manifest))))
  {
    var v := PackageEnvironment(s, ws, t).value;
    var payload := Stage(s, ws);
    var text := s.serialize(v.manifest);
    var tree := PlainTree(Finished(payload, text));
    PackageTrees(s, ws, t);
    VerifyPackaged(s, PlainTree(payload), tree, v, text);
    VerifyTasksOfPayload(s, payload, text, tree);
    UnderPlain(payload, GRADER);
    PlainEmpty(Under(payload, GRADER));
  }

  lemma PlainEmpty(fs: Fs)
    ensures PlainTree(fs) == map[] <==> fs == map[]
  {
    assert PlainTree(fs).Keys == fs.Keys;
  }
}
