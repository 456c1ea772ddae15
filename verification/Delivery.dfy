/**
 * Seller packaging and buyer verification of the archive: staging, the digests taken before and
 * after manifest.json is written, and the checks that recompute them from the parsed archive.
 */
module Delivery {
  import opened Base
  import opened Lex
  import opened TarPath
  import opened TarHeader
  import opened TarWriter
  import opened TarReader
  import opened TarLaws
  import opened TarDir
  import opened TarDirLaws

  type Digest = Word

  // ---------------------------------------------------------------- names

  const MANIFEST: Path := [109, 97, 110, 105, 102, 101, 115, 116, 46, 106, 115, 111, 110]  // manifest.json
  const GRADER: Path := [103, 114, 97, 100, 101, 114]                                        // grader
  const TASKS: Path := [116, 97, 115, 107, 115]                                              // tasks
  const TASK_JSON: Path := [116, 97, 115, 107, 46, 106, 115, 111, 110]                       // task.json

  lemma NameTexts()
    ensures MANIFEST == Codes("manifest.json") && GRADER == Codes("grader")
    ensures TASKS == Codes("tasks") && TASK_JSON == Codes("task.json")
  {
  }

  /** The parameters of the two programs: names, hashing, manifest text, and the screening patterns. */
  datatype Setup = Setup(
    payloadNames: set<Path>,          // top-level names that are packaged
    requiredNames: set<Path>,         // those that must exist
    defaultExcluded: set<Path>,       // basenames archiving always skips
    neverPackage: set<Path>,          // basenames staging never copies
    hash: Bytes -> Digest,
    serialize: Manifest -> Bytes,
    parse: Bytes -> Option<Manifest>,
    validTaskId: Path -> bool,
    forbiddenPath: Path -> bool,
    privateContent: Bytes -> bool)

  /** The manifest fields the checks read; everything else is `other`. */
  datatype Manifest = Manifest(bundleDigest: Digest, graderDigest: Digest, imageDigest: Digest, taskRoot: Digest,
                               auditRoot: Digest, taskCount: nat, auditTaskCount: nat, other: Bytes)

  ghost predicate ProperSetup(s: Setup) {
    && MANIFEST !in s.payloadNames
    && s.defaultExcluded <= s.neverPackage
    && MANIFEST !in s.defaultExcluded
    && forall m :: s.parse(s.serialize(m)) == Some(m)
  }

  // ---------------------------------------------------------------- packaging

  /** The contents of a sub-directory, by path relative to it. */
  ghost function Under<T>(m: map<Path, T>, dir: Path): map<Path, T> {
    map q | q in UnderPaths(m.Keys, dir) :: m[dir + [SLASH] + q]
  }

  ghost function UnderPaths(keys: set<Path>, dir: Path): (qs: set<Path>)
    ensures forall q :: q in qs <==> q != [] && dir != [] && dir + [SLASH] + q in keys
  {
    var qs := set p | p in keys && IsAncestor(dir, p) && |p| > |dir| + 1 :: p[|dir| + 1..];
    assert forall p :: p in keys && IsAncestor(dir, p) ==> p == dir + [SLASH] + p[|dir| + 1..];
    forall q ensures q in qs <==> q != [] && dir != [] && dir + [SLASH] + q in keys {
      if q != [] && dir != [] && dir + [SLASH] + q in keys {
        var p := dir + [SLASH] + q;
        assert IsAncestor(dir, p) && p[|dir| + 1..] == q;
      }
    }
    qs
  }

  /** cpSync of the packaged names, skipping every never-packaged basename. */
  ghost function Stage(s: Setup, ws: Fs): Fs {
    map p | p in ws && Split(p)[0] in s.payloadNames && (forall n :: n in Split(p) ==> n !in s.neverPackage) :: ws[p]
  }

  ghost function TaskDirs(payload: Fs): set<Path> {
    set p | p in payload && payload[p].FsDir? && |Split(p)| == 2 && Split(p)[0] == TASKS :: Split(p)[1]
  }

  datatype PackageError = MissingEntry | GraderTar | NoTasks | BadTaskId | BundleTar

  /** What a packaged version publishes. */
  datatype Version = Version(bundle: Bytes, bundleHash: Digest, manifestHash: Digest, manifest: Manifest)

  /** The fields the manifest template supplies: roots, image, audit count, the rest. */
  datatype Template = Template(imageDigest: Digest, taskRoot: Digest, auditRoot: Digest, auditTaskCount: nat,
                               other: Bytes)

  function DefaultOptions(s: Setup): Options {
    Options(s.defaultExcluded, (p, d) => false)
  }

  function WithoutManifest(s: Setup): Options {
    Options(s.defaultExcluded, (p: Path, d) =>
              p == MANIFEST || (|p| > |MANIFEST| && p[..|MANIFEST|] == MANIFEST && p[|MANIFEST|] == SLASH))
  }

  type Archive = Result<Bytes, DirTarError>

  /** The payload with its manifest written. */
  function Finished(payload: Fs, text: Bytes): Fs {
    payload[MANIFEST := FsFile(text, false)]
  }

  function FillManifest(s: Setup, t: Template, bare: Bytes, grader: Bytes, taskCount: nat): Manifest {
    Manifest(s.hash(bare), s.hash(grader), t.imageDigest, t.taskRoot, t.auditRoot, taskCount, t.auditTaskCount, t.other)
  }

  /** The commitments, once the archives have been taken; `full` archives the payload with a manifest text. */
  ghost function Commit(s: Setup, t: Template, taskCount: nat, bare: Bytes, grader: Bytes,
                        full: Bytes -> Archive): Result<Version, PackageError> {
    var manifest := FillManifest(s, t, bare, grader, taskCount);
    var text := s.serialize(manifest);
    if full(text).Err? then Err(BundleTar)
    else Ok(Version(full(text).value, s.hash(full(text).value), s.hash(text), manifest))
  }

  /** Packaging a staged payload, given its grader archive and its archive without manifest. */
  ghost function PackagePayload(s: Setup, t: Template, payload: Fs, grader: Archive, bare: Archive,
                                full: Bytes -> Archive): Result<Version, PackageError> {
    if GRADER !in payload || !payload[GRADER].FsDir? || grader.Err? then Err(GraderTar)
    else if TaskDirs(payload) == {} then Err(NoTasks)
    else if exists id :: id in TaskDirs(payload) && !s.validTaskId(id) then Err(BadTaskId)
    else if bare.Err? then Err(BundleTar)
    else Commit(s, t, |TaskDirs(payload)|, bare.value, grader.value, full)
  }

  ghost function PackageEnvironment(s: Setup, ws: Fs, t: Template): Result<Version, PackageError> {
    if exists n :: n in s.requiredNames && n !in ws then Err(MissingEntry)
    else
      var payload := Stage(s, ws);
      PackagePayload(s, t, payload,
                     CanonicalTarOfDir(Under(payload, GRADER), DefaultOptions(s)),
                     CanonicalTarOfDir(payload, WithoutManifest(s)),
                     text => CanonicalTarOfDir(Finished(payload, text), DefaultOptions(s)))
  }

  // ---------------------------------------------------------------- verification

  datatype Check =
    | BundleHash | TarReadable | TarCanonical | ManifestPresent | ManifestHash | ManifestSchema
    | ManifestCommitments | BundleDigest | GraderDigest | TasksCount | TaskJson(id: Path) | PrivateMaterial

  /** The on-chain facts the buyer compares with. */
  datatype OnChain = OnChain(bundleHash: Digest, manifestHash: Digest, taskRoot: Digest, auditRoot: Digest,
                             imageDigest: Digest, taskCount: nat, auditTaskCount: nat)

  function Without(es: seq<Entry>, p: Path): seq<Entry> {
    if es == [] then [] else (if es[0].path == p then [] else [es[0]]) + Without(es[1..], p)
  }

  /** The entries below `dir`, with the directory prefix cut off. */
  function Stripped(es: seq<Entry>, dir: Path): seq<Entry> {
    if es == [] then []
    else if IsAncestor(dir, es[0].path) then [es[0].(path := es[0].path[|dir| + 1..])] + Stripped(es[1..], dir)
    else Stripped(es[1..], dir)
  }

  function TaskIdOf(p: Path): Option<Path> {
    var segs := Split(p);
    if |segs| >= 2 && segs[0] == TASKS then Some(segs[1]) else None
  }

  ghost function TaskIds(es: seq<Entry>): set<Path> {
    set i | 0 <= i < |es| && TaskIdOf(es[i].path).Some? :: TaskIdOf(es[i].path).value
  }

  ghost predicate HasPath(es: seq<Entry>, p: Path) {
    exists i :: 0 <= i < |es| && es[i].path == p
  }

  function TaskJsonPath(id: Path): Path {
    TASKS + [SLASH] + id + [SLASH] + TASK_JSON
  }

  predicate Private(s: Setup, e: Entry) {
    s.forbiddenPath(e.path) || (!e.isDir && |e.data| < 2000000 && s.privateContent(e.data))
  }

  function FindManifest(es: seq<Entry>): Option<Bytes> {
    if es == [] then None
    else if es[0].path == MANIFEST && !es[0].isDir then Some(es[0].data)
    else FindManifest(es[1..])
  }

  ghost predicate SameDigest(s: Setup, es: seq<Entry>, d: Digest) {
    WriteTar(Inputs(es)).Ok? && s.hash(WriteTar(Inputs(es)).value) == d
  }

  /** The archive checks in order: None when all pass, otherwise the first that fails. */
  ghost function VerifyArchive(s: Setup, b: Bytes, c: OnChain): Option<Check> {
    if s.hash(b) != c.bundleHash then Some(BundleHash)
    else if ReadTar(b).Err? then Some(TarReadable)
    else VerifyEntries(s, ReadTar(b).value, s.hash(b), c)
  }

  ghost function VerifyEntries(s: Setup, es: seq<Entry>, bundleHash: Digest, c: OnChain): Option<Check> {
    if !SameDigest(s, es, bundleHash) then Some(TarCanonical)
    else if FindManifest(es).None? then Some(ManifestPresent)
    else if s.hash(FindManifest(es).value) != c.manifestHash then Some(ManifestHash)
    else if s.parse(FindManifest(es).value).None? then Some(ManifestSchema)
    else
      var m := s.parse(FindManifest(es).value).value;
      if !CommitmentsMatch(m, c) then Some(ManifestCommitments)
      else if !SameDigest(s, Without(es, MANIFEST), m.bundleDigest) then Some(BundleDigest)
      else if Stripped(es, GRADER) == [] || !SameDigest(s, Stripped(es, GRADER), m.graderDigest) then Some(GraderDigest)
      else VerifyTasks(s, es, c.taskCount)
  }

  predicate CommitmentsMatch(m: Manifest, c: OnChain) {
    && m.taskRoot == c.taskRoot && m.auditRoot == c.auditRoot && m.imageDigest == c.imageDigest
    && m.taskCount == c.taskCount && m.auditTaskCount == c.auditTaskCount
  }

  ghost function VerifyTasks(s: Setup, es: seq<Entry>, taskCount: nat): Option<Check> {
    if |TaskIds(es)| != taskCount then Some(TasksCount)
    else if exists id :: id in TaskIds(es) && !HasPath(es, TaskJsonPath(id)) then
      Some(TaskJson(FirstMissing(es, SortedOf(TaskIds(es)))))
    else if exists i :: 0 <= i < |es| && Private(s, es[i]) then Some(PrivateMaterial)
    else None
  }

  /** The first task, in order, without a task.json entry. */
  ghost function FirstMissing(es: seq<Entry>, ids: seq<Path>): Path {
    if ids == [] then [] else if !HasPath(es, TaskJsonPath(ids[0])) then ids[0] else FirstMissing(es, ids[1..])
  }

  function OnChainOf(v: Version): OnChain {
    OnChain(v.bundleHash, v.manifestHash, v.manifest.taskRoot, v.manifest.auditRoot, v.manifest.imageDigest,
            v.manifest.taskCount, v.manifest.auditTaskCount)
  }

  // ---------------------------------------------------------------- the checks as a program

  method Recompute(s: Setup, es: seq<Entry>, d: Digest) returns (same: bool)
    ensures same <==> SameDigest(s, es, d)
  {
    var w := WriteTarProgram(Inputs(es));
    return w.Ok? && s.hash(w.value) == d;
  }

  /** The distinct task ids in order of first appearance, then sorted. */
  method ListTaskIds(es: seq<Entry>) returns (ids: seq<Path>)
    ensures ids == SortedOf(TaskIds(es)) && |ids| == |TaskIds(es)|
  {
    var found: seq<Path> := [];
    for k := 0 to |es|
      invariant Distinct(found)
      invariant forall id :: id in found <==> exists i :: 0 <= i < k && TaskIdOf(es[i].path) == Some(id)
    {
      var id := TaskIdOf(es[k].path);
      if id.Some? && id.value !in found { found := found + [id.value]; }
    }
    SortIsSortedOf(found, TaskIds(es));
    return Sort(found);
  }

  method HasEntry(es: seq<Entry>, p: Path) returns (found: bool)
    ensures found <==> HasPath(es, p)
  {
    for k := 0 to |es|
      invariant forall i :: 0 <= i < k ==> es[i].path != p
    {
      if es[k].path == p { return true; }
    }
    return false;
  }

  method FindMissing(es: seq<Entry>, ids: seq<Path>) returns (missing: Option<Path>)
    ensures missing.None? <==> forall id :: id in ids ==> HasPath(es, TaskJsonPath(id))
    ensures missing.Some? ==> missing.value in ids && missing.value == FirstMissing(es, ids)
  {
    assert ids[0..] == ids;
    for k := 0 to |ids|
      invariant forall i :: 0 <= i < k ==> HasPath(es, TaskJsonPath(ids[i]))
      invariant FirstMissing(es, ids) == FirstMissing(es, ids[k..])
    {
      assert ids[k..][1..] == ids[k + 1..];
      var found := HasEntry(es, TaskJsonPath(ids[k]));
      if !found { return Some(ids[k]); }
    }
    return None;
  }

  method FindPrivate(s: Setup, es: seq<Entry>) returns (found: bool)
    ensures found <==> exists i :: 0 <= i < |es| && Private(s, es[i])
  {
    for k := 0 to |es|
      invariant forall i :: 0 <= i < k ==> !Private(s, es[i])
    {
      if Private(s, es[k]) { return true; }
    }
    return false;
  }

  method VerifyTasksProgram(s: Setup, es: seq<Entry>, taskCount: nat) returns (r: Option<Check>)
    ensures r == VerifyTasks(s, es, taskCount)
  {
    var ids := ListTaskIds(es);
    if |ids| != taskCount { return Some(TasksCount); }
    var missing := FindMissing(es, ids);
    if missing.Some? { return Some(TaskJson(missing.value)); }
    var bad := FindPrivate(s, es);
    if bad { return Some(PrivateMaterial); }
    return None;
  }

  method VerifyArchiveProgram(s: Setup, b: Bytes, c: OnChain) returns (r: Option<Check>)
    ensures r == VerifyArchive(s, b, c)
  {
    var bh := s.hash(b);
    if bh != c.bundleHash { return Some(BundleHash); }
    var read := ReadTarProgram(b);
    if read.Err? { return Some(TarReadable); }
    var es := read.value;
    var canonical := Recompute(s, es, bh);
    if !canonical { return Some(TarCanonical); }
    var entry := FindManifest(es);
    if entry.None? { return Some(ManifestPresent); }
    if s.hash(entry.value) != c.manifestHash { return Some(ManifestHash); }
    var manifest := s.parse(entry.value);
    if manifest.None? { return Some(ManifestSchema); }
    var m := manifest.value;
    if !CommitmentsMatch(m, c) { return Some(ManifestCommitments); }
    var bare := Recompute(s, Without(es, MANIFEST), m.bundleDigest);
    if !bare { return Some(BundleDigest); }
    var grader := Recompute(s, Stripped(es, GRADER), m.graderDigest);
    if Stripped(es, GRADER) == [] || !grader { return Some(GraderDigest); }
    r := VerifyTasksProgram(s, es, c.taskCount);
  }
}
