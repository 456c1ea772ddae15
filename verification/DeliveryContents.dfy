/**
 * What a seller ships: when packaging succeeds, and exactly which places of the workspace are in the bundle.
 */
module DeliveryContents {
  import opened Base
  import opened Lex
  import opened TarPath
  import opened TarHeader
  import opened TarWriter
  import opened TarReader
  import opened TarLaws
  import opened TarDir
  import opened TarDirLaws
  import opened Delivery
  import opened DeliveryLaws

  // ---------------------------------------------------------------- when packaging succeeds

  /** A place every archive takes: a file or directory, a portable path that fits the header, less than 8^11 bytes. */
  ghost predicate Archivable(p: Path, n: FsNode) {
    && (n.FsFile? || n.FsDir?)
    && BACKSLASH !in p && !HasDriveLetter(p)
    && FitsFields(if n.FsDir? then p + [SLASH] else p)
    && (n.FsFile? ==> |n.data| < 8589934592)
  }

  ghost predicate AllArchivable(f: Fs) {
    forall p :: p in f ==> Archivable(p, f[p])
  }

  lemma UntouchedAccepts(f: Fs, o: Options)
    requires ProperFs(f) && Untouched(f, o)
    ensures CanonicalTarOfDir(f, o).Ok? <==> AllArchivable(f)
  {
    DirAccepts(f, o);
    AllKept(f, o);
    forall p | p in f ensures Archivable(p, f[p])
      <==> !f[p].FsLink? && !f[p].FsSpecial? && Portable(p) && Encodable(p, NodeOfFs(f[p]))
    {
      ArchivableIs(p, f[p]);
    }
  }

  lemma AllKept(f: Fs, o: Options)
    requires ProperFs(f) && Untouched(f, o)
    ensures forall p :: p in f ==> Kept(f, o, p)
  {
    KeptAll(f, o);
    assert KeptTree(f, o).Keys == f.Keys;
    forall p | p in f ensures Kept(f, o, p) { assert p in KeptTree(f, o); }
  }

  lemma ArchivableIs(p: Path, n: FsNode)
    ensures Archivable(p, n) <==> !n.FsLink? && !n.FsSpecial? && Portable(p) && Encodable(p, NodeOfFs(n))
  {
  }

  lemma ManifestArchivable(text: Bytes)
    ensures Archivable(MANIFEST, FsFile(text, false)) <==> |text| < 8589934592
  {
    assert 2 < |MANIFEST| <= 100 && MANIFEST[1] == 97;
  }

  lemma FinishedAccepts(s: Setup, ws: Fs, text: Bytes)
    requires ProperSetup(s) && ProperFs(ws)
    ensures CanonicalTarOfDir(Finished(Stage(s, ws), text), DefaultOptions(s)).Ok?
       <==> AllArchivable(Stage(s, ws)) && |text| < 8589934592
  {
    var payload := Stage(s, ws);
    FinishedProper(s, ws, text);
    FinishedUntouched(s, ws, text);
    UntouchedAccepts(Finished(payload, text), DefaultOptions(s));
    ManifestArchivable(text);
    if MANIFEST in payload { StagedHeads(s, ws, MANIFEST); }
    forall p | p in payload ensures Finished(payload, text)[p] == payload[p] {}
  }

  /** The manifest text that packaging arrives at, once it has the two digests. */
  ghost function ManifestText(s: Setup, t: Template, payload: Fs, grader: Archive, bare: Archive): Bytes {
    if bare.Ok? && grader.Ok? then s.serialize(FillManifest(s, t, bare.value, grader.value, |TaskDirs(payload)|))
    else []
  }

  lemma PayloadAccepted(s: Setup, t: Template, payload: Fs, grader: Archive, bare: Archive, full: Bytes -> Archive)
    ensures PackagePayload(s, t, payload, grader, bare, full).Ok?
       <==> && GRADER in payload && payload[GRADER].FsDir?
            && TaskDirs(payload) != {} && (forall id :: id in TaskDirs(payload) ==> s.validTaskId(id))
            && grader.Ok? && bare.Ok? && full(ManifestText(s, t, payload, grader, bare)).Ok?
  {
  }

  ghost function GraderArchiveOf(s: Setup, payload: Fs): Archive {
    CanonicalTarOfDir(Under(payload, GRADER), DefaultOptions(s))
  }

  ghost function BareArchiveOf(s: Setup, payload: Fs): Archive {
    CanonicalTarOfDir(payload, WithoutManifest(s))
  }

  ghost predicate Packageable(s: Setup, ws: Fs, t: Template, payload: Fs) {
    && (forall n :: n in s.requiredNames ==> n in ws)
    && GRADER in payload && payload[GRADER].FsDir?
    && TaskDirs(payload) != {} && (forall id :: id in TaskDirs(payload) ==> s.validTaskId(id))
    && AllArchivable(payload) && AllArchivable(Under(payload, GRADER))
    && |ManifestText(s, t, payload, GraderArchiveOf(s, payload), BareArchiveOf(s, payload))| < 8589934592
  }

  lemma ArchivesAccepted(s: Setup, ws: Fs)
    requires ProperSetup(s) && ProperFs(ws)
    ensures BareArchiveOf(s, Stage(s, ws)).Ok? <==> AllArchivable(Stage(s, ws))
    ensures GraderArchiveOf(s, Stage(s, ws)).Ok? <==> AllArchivable(Under(Stage(s, ws), GRADER))
  {
    var payload := Stage(s, ws);
    StageProper(s, ws);
    StagedUntouched(s, ws);
    UntouchedAccepts(payload, WithoutManifest(s));
    UnderProper(payload, GRADER);
    UnderUntouched(s, ws, GRADER);
    UntouchedAccepts(Under(payload, GRADER), DefaultOptions(s));
  }

  /**
   * packageEnvironment succeeds exactly when every required name is there; grader/ is a directory; there
   * is a directory directly under tasks/, and all of these have valid names; every packaged place can be
   * archived, those of grader/ also by their paths below it; and the manifest is less than 8^11 bytes.
   */
  lemma PackagesExactly(s: Setup, ws: Fs, t: Template)
    requires ProperSetup(s) && ProperFs(ws)
    ensures PackageEnvironment(s, ws, t).Ok? <==> Packageable(s, ws, t, Stage(s, ws))
  {
    var payload := Stage(s, ws);
    var full := text => CanonicalTarOfDir(Finished(payload, text), DefaultOptions(s));
    ArchivesAccepted(s, ws);
    PayloadAccepted(s, t, payload, GraderArchiveOf(s, payload), BareArchiveOf(s, payload), full);
    FinishedAccepts(s, ws, ManifestText(s, t, payload, GraderArchiveOf(s, payload), BareArchiveOf(s, payload)));
  }

  // ---------------------------------------------------------------- what is shipped

  /** Packaged: its top-level name is one of the payload's, and none of its names is withheld. */
  predicate Shipped(s: Setup, ws: Fs, p: Path) {
    p in ws && Split(p)[0] in s.payloadNames && forall i :: 0 <= i < |Split(p)| ==> Split(p)[i] !in s.neverPackage
  }

  /** An entry as the workspace has the place. */
  predicate AsIn(ws: Fs, e: Entry) {
    && e.path in ws && (e.isDir <==> ws[e.path].FsDir?)
    && (e.isDir ==> e.data == [] && e.mode == 493)
    && (!e.isDir ==> ws[e.path].FsFile? && e.data == ws[e.path].data
                     && e.mode == if ws[e.path].executable then 493 else 420)
  }

  lemma StagedIs(s: Setup, ws: Fs, p: Path)
    ensures p in Stage(s, ws) <==> Shipped(s, ws, p)
    ensures p in Stage(s, ws) ==> Stage(s, ws)[p] == ws[p]
  {
  }

  ghost predicate AllPlainIn(f: Fs) {
    forall p :: p in f ==> f[p].FsFile? || f[p].FsDir?
  }

  lemma PackagedPlain(s: Setup, ws: Fs, t: Template)
    requires ProperSetup(s) && ProperFs(ws) && PackageEnvironment(s, ws, t).Ok?
    ensures AllPlainIn(Stage(s, ws))
  {
    PackagesExactly(s, ws, t);
  }

  lemma EntryAsIn(ws: Fs, e: Entry, n: FsNode)
    requires e.path in ws && ws[e.path] == n && (n.FsFile? || n.FsDir?) && e == EntryOf(e.path, NodeOfFs(n))
    ensures AsIn(ws, e)
  {
  }

  /** The entries are those of the tree, each once. */
  ghost predicate EntriesOf(es: seq<Entry>, tree: Tree) {
    && (forall p :: HasPath(es, p) <==> p in tree)
    && (forall i :: 0 <= i < |es| ==> es[i].path in tree && es[i] == EntryOf(es[i].path, tree[es[i].path]))
    && forall i, j :: 0 <= i < j < |es| ==> es[i].path != es[j].path
  }

  lemma TreeReads(b: Bytes, tree: Tree)
    requires ProperTree(tree) && TarBytes(tree) == Ok(b)
    ensures ReadTar(b).Ok? && EntriesOf(ReadTar(b).value, tree)
  {
    ReadTarBytes(tree);
    EntriesListTree(tree);
    assert forall p :: HasPath(Entries(tree), p) <==> p in tree;
  }

  /** The manifest and the packaged places, each once and as they are in the workspace, and nothing else. */
  ghost predicate ShipList(s: Setup, ws: Fs, es: seq<Entry>, text: Bytes) {
    && (forall p :: HasPath(es, p) <==> p == MANIFEST || Shipped(s, ws, p))
    && (forall i, j :: 0 <= i < j < |es| ==> es[i].path != es[j].path)
    && forall i :: 0 <= i < |es| ==>
         if es[i].path == MANIFEST then es[i] == Entry(MANIFEST, false, 420, text) else AsIn(ws, es[i])
  }

  lemma StagedList(s: Setup, ws: Fs, es: seq<Entry>, text: Bytes)
    requires AllPlainIn(Stage(s, ws)) && EntriesOf(es, PlainTree(Stage(s, ws))[MANIFEST := File(text, false)])
    ensures ShipList(s, ws, es, text)
  {
    var payload := Stage(s, ws);
    forall p ensures HasPath(es, p) <==> p == MANIFEST || Shipped(s, ws, p) { StagedIs(s, ws, p); }
    forall i | 0 <= i < |es| && es[i].path != MANIFEST ensures AsIn(ws, es[i]) {
      StagedIs(s, ws, es[i].path);
      EntryAsIn(ws, es[i], payload[es[i].path]);
    }
  }

  lemma PackagedReads(s: Setup, bare: Tree, tree: Tree, v: Version, text: Bytes)
    requires Packaged(s, bare, tree, v, text)
    ensures ReadTar(v.bundle).Ok? && EntriesOf(ReadTar(v.bundle).value, bare[MANIFEST := File(text, false)])
  {
    TreeReads(v.bundle, tree);
  }

  /**
   * Reading the bundle back gives the manifest and the packaged places of the workspace, each once and
   * as it is there, and nothing else: no withheld name, and nothing outside the payload, leaves the seller.
   */
  lemma ShipsExactly(s: Setup, ws: Fs, t: Template)
    requires ProperSetup(s) && ProperFs(ws) && PackageEnvironment(s, ws, t).Ok?
    ensures var v := PackageEnvironment(s, ws, t).value;
            ReadTar(v.bundle).Ok? && ShipList(s, ws, ReadTar(v.bundle).value, s.serialize(v.manifest))
  {
    var v := PackageEnvironment(s, ws, t).value;
    var text := s.serialize(v.manifest);
    PackageTrees(s, ws, t);
    PackagedPlain(s, ws, t);
    PackagedReads(s, PlainTree(Stage(s, ws)), PlainTree(Finished(Stage(s, ws), text)), v, text);
    StagedList(s, ws, ReadTar(v.bundle).value, text);
  }
}
