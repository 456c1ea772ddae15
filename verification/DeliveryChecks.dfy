/**
 * What a delivery that passes the buyer's archive checks has fulfilled, said over the tree the archive
 * holds and for every archive and every on-chain record.
 */
module DeliveryChecks {
  import opened Base
  import opened Lex
  import opened TarPath
  import opened TarHeader
  import opened TarWriter
  import opened TarReader
  import opened TarLaws
  import opened TarDir
  import opened TarDirLaws
  import opened Delivery
  import opened DeliveryLaws

  // ---------------------------------------------------------------- what must hold of the tree

  /** The tree has an archive, and that hashes to the digest. */
  ghost predicate HashesTo(s: Setup, t: Tree, d: Digest) {
    ProperTree(t) && TarBytes(t).Ok? && s.hash(TarBytes(t).value) == d
  }

  /** The manifest's fields are those on chain. */
  predicate Committed(m: Manifest, c: OnChain) {
    && m.taskRoot == c.taskRoot && m.auditRoot == c.auditRoot && m.imageDigest == c.imageDigest
    && m.taskCount == c.taskCount && m.auditTaskCount == c.auditTaskCount
  }

  /** manifest.json is a file with the hash on chain, and reads as `m`. */
  predicate ManifestIs(s: Setup, t: Tree, c: OnChain, m: Manifest) {
    && MANIFEST in t && t[MANIFEST].File?
    && s.hash(t[MANIFEST].data) == c.manifestHash && s.parse(t[MANIFEST].data) == Some(m)
  }

  /** The names directly under a directory. */
  ghost function NamesUnder(t: Tree, dir: Path): set<Path> {
    set p | p in t && IsAncestor(dir, p) && SLASH !in p[|dir| + 1..] :: p[|dir| + 1..]
  }

  ghost predicate Fulfils(s: Setup, t: Tree, c: OnChain, m: Manifest) {
    && ManifestIs(s, t, c, m) && Committed(m, c)
    && HashesTo(s, t - {MANIFEST}, m.bundleDigest)
    && Under(t, GRADER) != map[] && HashesTo(s, Under(t, GRADER), m.graderDigest)
    && TasksFulfil(s, t, c.taskCount)
  }

  /** As many names under tasks/ as on chain, each with its task.json, and nothing private anywhere. */
  ghost predicate TasksFulfil(s: Setup, t: Tree, taskCount: nat) {
    && |NamesUnder(t, TASKS)| == taskCount
    && (forall id :: id in NamesUnder(t, TASKS) ==> TASKS + [SLASH] + id + [SLASH] + TASK_JSON in t)
    && NothingPrivate(s, t)
  }

  // ---------------------------------------------------------------- check by check

  lemma WithoutManifestProper(t: Tree)
    requires ProperTree(t) && (MANIFEST in t ==> t[MANIFEST].File?)
    ensures ProperTree(t - {MANIFEST})
  {
    forall p, a | p in t - {MANIFEST} && IsAncestor(a, p) ensures a in t - {MANIFEST} && (t - {MANIFEST})[a].Dir? {
      assert a in t && t[a].Dir?;
    }
  }

  lemma BundleCheck(s: Setup, t: Tree, d: Digest)
    requires ProperTree(t) && (MANIFEST in t ==> t[MANIFEST].File?)
    ensures SameDigest(s, Without(Entries(t), MANIFEST), d) <==> HashesTo(s, t - {MANIFEST}, d)
  {
    WithoutManifestProper(t);
    WithoutTree(t, MANIFEST);
    WriteListed(Without(Entries(t), MANIFEST), t - {MANIFEST});
  }

  lemma ManifestCheck(t: Tree)
    requires ProperTree(t)
    ensures FindManifest(Entries(t)) == if MANIFEST in t && t[MANIFEST].File? then Some(t[MANIFEST].data) else None
  {
    EntriesListTree(t);
    if MANIFEST in t && t[MANIFEST].File? {
      var x := t[MANIFEST].executable;
      ManifestData(t, t[MANIFEST].data, x, Entries(t));
      FindManifestListed(Entries(t), t[MANIFEST].data);
    } else {
      forall i | 0 <= i < |Entries(t)| && Entries(t)[i].path == MANIFEST ensures Entries(t)[i].isDir {
        assert NodeOf(Entries(t)[i]) == t[MANIFEST];
      }
      NoManifest(Entries(t));
    }
  }

  lemma ManifestData(t: Tree, text: Bytes, x: bool, es: seq<Entry>)
    requires ListsTree(es, t) && MANIFEST in t && t[MANIFEST] == File(text, x)
    ensures HasPath(es, MANIFEST)
    ensures forall i :: 0 <= i < |es| && es[i].path == MANIFEST ==> !es[i].isDir && es[i].data == text
  {
    forall i | 0 <= i < |es| && es[i].path == MANIFEST ensures !es[i].isDir && es[i].data == text {
      assert NodeOf(es[i]) == t[MANIFEST];
    }
  }

  lemma {:induction false} NoManifest(es: seq<Entry>)
    requires forall i :: 0 <= i < |es| && es[i].path == MANIFEST ==> es[i].isDir
    ensures FindManifest(es) == None
  {
    if es != [] {
      forall i | 0 <= i < |es[1..]| && es[1..][i].path == MANIFEST ensures es[1..][i].isDir {
        assert es[1..][i] == es[i + 1];
      }
      NoManifest(es[1..]);
    }
  }

  lemma UnderParents(t: Tree, dir: Path)
    requires ProperTree(t) && dir != [] && forall q :: q in Under(t, dir) ==> Safe(q)
    ensures ProperTree(Under(t, dir))
  {
    var u := Under(t, dir);
    forall q, a | q in u && IsAncestor(a, q) ensures a in u && u[a].Dir? {
      var p, b := dir + [SLASH] + q, dir + [SLASH] + a;
      assert q in UnderPaths(t.Keys, dir);
      assert p[..|b|] == b && p[|b|] == q[|a|];
      assert IsAncestor(b, p) && b in t && t[b].Dir?;
      assert a in UnderPaths(t.Keys, dir);
    }
  }

  lemma RefusedPath(w: seq<Entry>, i: nat)
    requires i < |w| && NormalizeTarPath(w[i].path).Err?
    ensures WriteTar(Inputs(w)).Err?
  {
    CollectAccepts(Inputs(w), map[]);
    assert Inputs(w)[i] in multiset(Inputs(w));
  }

  lemma UnsafeIsRefused(q: Path)
    requires !Safe(q) && q != [] && q[|q| - 1] != SLASH
    ensures NormalizeTarPath(q).Err?
  {
    if NormalizeTarPath(q).Ok? { NormalizeExactly(q, NormalizeTarPath(q).value); }
  }

  /** A path with a drive letter is refused by the writer, so its directory has no archive of its own. */
  lemma UnsafeUnder(t: Tree, dir: Path, q: Path)
    requires ProperTree(t) && dir != [] && q in Under(t, dir) && !Safe(q)
    ensures WriteTar(Inputs(Stripped(Entries(t), dir))).Err?
  {
    StrippedKeys(t, dir, q);
    var w := Stripped(Entries(t), dir);
    var i :| 0 <= i < |w| && w[i].path == q;
    TailHasNoSlashAtEnd(t, dir, q);
    UnsafeIsRefused(q);
    RefusedPath(w, i);
  }

  lemma TailHasNoSlashAtEnd(t: Tree, dir: Path, q: Path)
    requires ProperTree(t) && dir != [] && q in Under(t, dir)
    ensures q != [] && q[|q| - 1] != SLASH
  {
    var p := dir + [SLASH] + q;
    assert q in UnderPaths(t.Keys, dir);
    assert p in t;
    SafeEnds(p);
    assert p[|p| - 1] == q[|q| - 1];
  }

  lemma SafeUnder(t: Tree, dir: Path)
    requires ProperTree(t) && dir != [] && forall q :: q in Under(t, dir) ==> Safe(q)
    ensures ProperTree(Under(t, dir))
    ensures OkOnly(WriteTar(Inputs(Stripped(Entries(t), dir)))) == OkOnly(TarBytes(Under(t, dir)))
  {
    UnderParents(t, dir);
    StrippedTree(t, dir);
    WriteListed(Stripped(Entries(t), dir), Under(t, dir));
  }

  lemma UnsafeIsImproper(t: Tree, dir: Path, q: Path)
    requires q in Under(t, dir) && !Safe(q)
    ensures !ProperTree(Under(t, dir))
  {
  }

  lemma SameArchive(s: Setup, es: seq<Entry>, t: Tree, d: Digest)
    requires ProperTree(t) && OkOnly(WriteTar(Inputs(es))) == OkOnly(TarBytes(t))
    ensures SameDigest(s, es, d) <==> HashesTo(s, t, d)
  {
  }

  /** The digest of the entries below a directory is that of the directory's own archive. */
  lemma UnderCheck(s: Setup, t: Tree, dir: Path, d: Digest)
    requires ProperTree(t) && dir != []
    ensures SameDigest(s, Stripped(Entries(t), dir), d) <==> HashesTo(s, Under(t, dir), d)
  {
    if q :| q in Under(t, dir) && !Safe(q) {
      UnsafeUnder(t, dir, q);
      UnsafeIsImproper(t, dir, q);
    } else {
      SafeUnder(t, dir);
      SameArchive(s, Stripped(Entries(t), dir), Under(t, dir), d);
    }
  }

  lemma EmptyTogether(t: Tree, dir: Path)
    requires ProperTree(t) && dir != []
    ensures Stripped(Entries(t), dir) != [] <==> Under(t, dir) != map[]
  {
    var w := Stripped(Entries(t), dir);
    if w != [] {
      assert HasPath(w, w[0].path);
      StrippedKeys(t, dir, w[0].path);
    }
    if Under(t, dir) != map[] {
      var q :| q in Under(t, dir);
      StrippedKeys(t, dir, q);
    }
  }

  lemma NamesUnderMember(t: Tree, dir: Path, id: Path)
    requires ProperTree(t) && dir != []
    ensures id in NamesUnder(t, dir) <==> SLASH !in id && dir + [SLASH] + id in t
  {
    var p := dir + [SLASH] + id;
    if id in NamesUnder(t, dir) {
      var r :| r in t && IsAncestor(dir, r) && SLASH !in r[|dir| + 1..] && r[|dir| + 1..] == id;
      assert r == p;
    }
    if SLASH !in id && p in t {
      SafeEnds(p);
      assert p[..|dir|] == dir && p[|dir| + 1..] == id;
      assert id != [] by { assert p[|p| - 1] != SLASH; }
    }
  }

  lemma TaskIdsAreNames(t: Tree)
    requires ProperTree(t)
    ensures TaskIds(Entries(t)) == NamesUnder(t, TASKS)
  {
    var ids, names := TaskIds(Entries(t)), NamesUnder(t, TASKS);
    assert TASKS != [];
    forall id ensures id in ids <==> id in names {
      TaskIdsOfTree(t, id);
      NamesUnderMember(t, TASKS, id);
    }
  }

  lemma TasksOver(s: Setup, t: Tree, es: seq<Entry>, n: nat)
    requires TaskIds(es) == NamesUnder(t, TASKS)
    requires forall p :: HasPath(es, p) <==> p in t
    requires (exists i :: 0 <= i < |es| && Private(s, es[i])) <==> !NothingPrivate(s, t)
    ensures VerifyTasks(s, es, n) == None <==> TasksFulfil(s, t, n)
  {
    forall id ensures TaskJsonPath(id) == TASKS + [SLASH] + id + [SLASH] + TASK_JSON {}
  }

  lemma TasksCheck(s: Setup, t: Tree, n: nat)
    requires ProperTree(t)
    ensures VerifyTasks(s, Entries(t), n) == None <==> TasksFulfil(s, t, n)
  {
    TaskIdsAreNames(t);
    ScreensTree(s, t);
    forall p ensures HasPath(Entries(t), p) <==> p in t { EntriesLookup(t, p); }
    TasksOver(s, t, Entries(t), n);
  }

  // ---------------------------------------------------------------- main result

  lemma CanonicalCheck(s: Setup, t: Tree)
    requires ProperTree(t) && TarBytes(t).Ok?
    ensures SameDigest(s, Entries(t), s.hash(TarBytes(t).value))
  {
    RewriteTree(t);
  }

  /** The checks on an entry list once each is known in terms of the tree. */
  lemma PutTogether(s: Setup, t: Tree, es: seq<Entry>, h: Digest, c: OnChain, m: Manifest)
    requires SameDigest(s, es, h)
    requires MANIFEST in t && t[MANIFEST].File? && s.parse(t[MANIFEST].data) == Some(m)
    requires FindManifest(es) == Some(t[MANIFEST].data)
    requires SameDigest(s, Without(es, MANIFEST), m.bundleDigest) <==> HashesTo(s, t - {MANIFEST}, m.bundleDigest)
    requires Stripped(es, GRADER) != [] <==> Under(t, GRADER) != map[]
    requires SameDigest(s, Stripped(es, GRADER), m.graderDigest) <==> HashesTo(s, Under(t, GRADER), m.graderDigest)
    requires VerifyTasks(s, es, c.taskCount) == None <==> TasksFulfil(s, t, c.taskCount)
    ensures VerifyEntries(s, es, h, c) == None <==> Fulfils(s, t, c, m)
  {
  }

  lemma EntriesPassExactly(s: Setup, t: Tree, c: OnChain)
    requires ProperTree(t) && TarBytes(t).Ok?
    ensures VerifyEntries(s, Entries(t), s.hash(TarBytes(t).value), c) == None <==> exists m :: Fulfils(s, t, c, m)
  {
    CanonicalCheck(s, t);
    ManifestCheck(t);
    if MANIFEST in t && t[MANIFEST].File? && s.parse(t[MANIFEST].data).Some? {
      var m := s.parse(t[MANIFEST].data).value;
      BundleCheck(s, t, m.bundleDigest);
      EmptyTogether(t, GRADER);
      UnderCheck(s, t, GRADER, m.graderDigest);
      TasksCheck(s, t, c.taskCount);
      PutTogether(s, t, Entries(t), s.hash(TarBytes(t).value), c, m);
      OneManifest(s, t, c, m);
    } else {
      NoFittingManifest(s, t, Entries(t), s.hash(TarBytes(t).value), c);
    }
  }

  lemma OneManifest(s: Setup, t: Tree, c: OnChain, m: Manifest)
    requires MANIFEST in t && t[MANIFEST].File? && s.parse(t[MANIFEST].data) == Some(m)
    ensures (exists k :: Fulfils(s, t, c, k)) <==> Fulfils(s, t, c, m)
  {
  }

  lemma NoFittingManifest(s: Setup, t: Tree, es: seq<Entry>, h: Digest, c: OnChain)
    requires FindManifest(es) == if MANIFEST in t && t[MANIFEST].File? then Some(t[MANIFEST].data) else None
    requires !(MANIFEST in t && t[MANIFEST].File? && s.parse(t[MANIFEST].data).Some?)
    ensures VerifyEntries(s, es, h, c) != None && forall m :: !Fulfils(s, t, c, m)
  {
  }

  /** The buyer's own archive of what it read, and the bytes themselves when there is none. */
  ghost function Rewritten(b: Bytes): Bytes {
    match ReadTar(b)
    case Err(_) => b
    case Ok(es) => match WriteTar(Inputs(es)) case Err(_) => b case Ok(again) => again
  }

  /** A collision in hand: writing what was read gives other bytes with the same hash. */
  ghost predicate Collides(s: Setup, b: Bytes) {
    Rewritten(b) != b && s.hash(Rewritten(b)) == s.hash(b)
  }

  /** The bytes are the archive of the tree, their hash is on chain, and the tree fulfils everything else. */
  ghost predicate Delivered(s: Setup, b: Bytes, c: OnChain, t: Tree, m: Manifest) {
    ProperTree(t) && TarBytes(t) == Ok(b) && s.hash(b) == c.bundleHash && Fulfils(s, t, c, m)
  }

  /**
   * A delivery passes the buyer's archive checks exactly when it is the archive of a tree with the hash
   * on chain, whose manifest.json has the hash and the fields on chain and names the digests of the rest
   * and of grader/, which is not empty; whose names under tasks/ are as many as on chain, each with a
   * task.json; and nothing in it is private. The one other way to pass is a collision of the hash,
   * which the buyer then holds in its hands.
   */
  lemma PassesExactly(s: Setup, b: Bytes, c: OnChain)
    ensures VerifyArchive(s, b, c) == None && !Collides(s, b) <==> exists t, m :: Delivered(s, b, c, t, m)
  {
    if VerifyArchive(s, b, c) == None && !Collides(s, b) {
      var es := ReadTar(b).value;
      var inputs := Inputs(es);
      assert SameDigest(s, es, s.hash(b));
      assert WriteTar(inputs) == Ok(b);
      RoundTrip(inputs);
      WrittenTreeIsProper(inputs);
      var t := TreeOf(inputs);
      EntriesPassExactly(s, t, c);
      var m :| Fulfils(s, t, c, m);
      assert Delivered(s, b, c, t, m);
    }
    if t, m :| Delivered(s, b, c, t, m) {
      DeliveredPasses(s, b, c, t, m);
      RewritesItself(t, b);
    }
  }

  lemma RewritesItself(t: Tree, b: Bytes)
    requires ProperTree(t) && TarBytes(t) == Ok(b)
    ensures Rewritten(b) == b
  {
    ReadTarBytes(t);
    EntriesListTree(t);
    WriteListedOk(Entries(t), t, b);
  }

  /** Whatever the hash does, an archive with the hash on chain of a tree that fulfils the rest passes. */
  lemma DeliveredPasses(s: Setup, b: Bytes, c: OnChain, t: Tree, m: Manifest)
    requires Delivered(s, b, c, t, m)
    ensures VerifyArchive(s, b, c) == None
  {
    ReadTarBytes(t);
    EntriesPassExactly(s, t, c);
  }

  // ---------------------------------------------------------------- which task is named

  /** Of the tasks without a task.json the answer names the first. */
  lemma NamesFirstTask(s: Setup, es: seq<Entry>, taskCount: nat, id: Path)
    requires VerifyTasks(s, es, taskCount) == Some(TaskJson(id))
    ensures id in TaskIds(es) && !HasPath(es, TaskJsonPath(id))
    ensures forall other :: other in TaskIds(es) && Less(other, id) ==> HasPath(es, TaskJsonPath(other))
  {
    FirstIsLeast(es, SortedOf(TaskIds(es)));
  }

  lemma {:induction false} FirstIsLeast(es: seq<Entry>, ids: seq<Path>)
    requires Sorted(ids) && exists id :: id in ids && !HasPath(es, TaskJsonPath(id))
    ensures var f := FirstMissing(es, ids);
            && f in ids && !HasPath(es, TaskJsonPath(f))
            && forall other :: other in ids && Less(other, f) ==> HasPath(es, TaskJsonPath(other))
  {
    if HasPath(es, TaskJsonPath(ids[0])) {
      assert ids == [ids[0]] + ids[1..];
      FirstIsLeast(es, ids[1..]);
    } else {
      forall other | other in ids ensures !Less(other, ids[0]) {
        var i :| 0 <= i < |ids| && ids[i] == other;
        LessIrreflexive(ids[0]);
        if i > 0 && Less(other, ids[0]) { LessAsymmetric(other, ids[0]); }
      }
    }
  }
}
