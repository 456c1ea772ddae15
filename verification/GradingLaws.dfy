/**
 * What grading promises: only permitted edits count, the stored edits are enough to grade again, and
 * a score of 1 needs a submission and a clean run of at least one hidden test.
 */
module GradingLaws {
  import opened Base
  import opened Lex
  import opened TarPath
  import opened TarWriter
  import opened TarDir
  import opened TarExtract
  import opened Workspace
  import opened Grading

  // ---------------------------------------------------------------- only permitted edits count

  /** Two workspaces hold the same permitted files of acceptable size. */
  ghost predicate SameEdits(t: Policy, ws: Fs, ws': Fs) {
    forall p :: (Allowed(t, ws, p) <==> Allowed(t, ws', p)) && (Allowed(t, ws, p) ==> ws[p].data == ws'[p].data)
  }

  lemma OnlyPermittedEditsCount(t: Policy, base: Fs, ws: Fs, ws': Fs)
    requires SameEdits(t, ws, ws')
    requires Gradable(t, base, ws) && forall p :: p in ListedFiles(ws') ==> BACKSLASH !in p
    ensures Gradable(t, base, ws')
    ensures GradedTree(t, base, ws').tree == GradedTree(t, base, ws).tree
    ensures GradedTree(t, base, ws').edited == GradedTree(t, base, ws).edited
  {
    var e := Edited(t, base, ws);
    forall p ensures p in e <==> p in Edited(t, base, ws') {
      if p in e { assert Allowed(t, ws, p); }
      if p in Edited(t, base, ws') { assert Allowed(t, ws', p); }
    }
    assert e == Edited(t, base, ws');
    forall p | p in e ensures ws[p].data == ws'[p].data { assert Allowed(t, ws, p); }
    SameOverlay(base, ws, ws', e);
  }

  lemma SameOverlay(base: Fs, ws: Fs, ws': Fs, e: set<Path>)
    requires forall p :: p in e ==> p in ws && ws[p].FsFile? && p in ws' && ws'[p].FsFile? && ws[p].data == ws'[p].data
    ensures Overlay(base, ws, e) == Overlay(base, ws', e)
  {
  }

  /** Outside the edits and their directories, the graded tree is the starting tree. */
  lemma RestIsBase(t: Policy, base: Fs, ws: Fs, p: Path)
    requires Gradable(t, base, ws) && p in base && !EditablePlain(t, p)
    ensures p in GradedTree(t, base, ws).tree && GradedTree(t, base, ws).tree[p] == base[p]
  {
  }

  /** A file of the workspace that counts, if it is not too large: listed, and the task lets the agent change it. */
  ghost predicate HandedIn(t: Policy, ws: Fs, p: Path) {
    p in ws && ws[p].FsFile? && Listed(p) && EditablePlain(t, p)
  }

  ghost predicate UnlikeBase(base: Fs, ws: Fs, p: Path)
    requires p in ws && ws[p].FsFile?
  {
    p !in base || !base[p].FsFile? || base[p].data != ws[p].data
  }

  /**
   * The two lists of a grading, place by place: reported as edited are the submitted files of at most
   * 262144 bytes that differ from the base, as rejected the larger ones.
   */
  lemma ReportedExactly(t: Policy, base: Fs, ws: Fs, p: Path)
    ensures var g := GradedTree(t, base, ws);
            && (p in g.edited <==> HandedIn(t, ws, p) && |ws[p].data| <= 262144 && UnlikeBase(base, ws, p))
            && (p in g.rejected <==> HandedIn(t, ws, p) && |ws[p].data| > 262144)
            && Sorted(g.edited) && Sorted(g.rejected)
  {
    assert p in GradedTree(t, base, ws).edited <==> p in Edited(t, base, ws);
    assert p in GradedTree(t, base, ws).rejected <==> p in Rejected(t, ws);
  }

  /**
   * The graded tree, place by place: a reported edit has the agent's bytes and the base's execute bit,
   * every other place of the base is as it was, and only directories above edits are new.
   */
  lemma GradedExactly(t: Policy, base: Fs, ws: Fs, p: Path)
    requires ProperFs(ws)
    ensures var g := GradedTree(t, base, ws);
            && (p in g.edited ==> p in g.tree && p in ws && ws[p].FsFile?
                                  && g.tree[p]
                                     == FsFile(ws[p].data, p in base && base[p].FsFile? && base[p].executable))
            && (p !in g.edited && p in base ==> p in g.tree && g.tree[p] == base[p])
            && (p !in g.edited && p !in base ==>
                  && (p in g.tree <==> exists q :: q in g.edited && IsAncestor(p, q))
                  && (p in g.tree ==> g.tree[p] == FsDir))
  {
    OverlayAt(base, ws, Edited(t, base, ws), p);
    assert forall q :: q in GradedTree(t, base, ws).edited <==> q in Edited(t, base, ws);
  }

  lemma AncestorRealNames(p: Path, a: Path)
    requires IsAncestor(a, p) && p != [] && forall s :: s in Split(p) ==> FileName(s)
    ensures a != [] && forall s :: s in Split(a) ==> FileName(s)
  {
    SplitAround(a, p[|a| + 1..]);
    assert p == a + [SLASH] + p[|a| + 1..];
    forall s | s in Split(a) ensures FileName(s) { assert s in Split(a) + Split(p[|a| + 1..]); }
  }

  /** Writable edits over a proper tree leave a proper tree. */
  lemma OverlayIsProper(base: Fs, ws: Fs, e: set<Path>)
    requires ProperFs(base) && ProperFs(ws) && FilesOf(ws, e)
    requires forall p :: p in e ==> Writable(base, p)
    ensures ProperFs(Overlay(base, ws, e))
  {
    var g := Overlay(base, ws, e);
    forall p | p in g ensures p != [] && forall s :: s in Split(p) ==> FileName(s) {
      OverlayAt(base, ws, e, p);
      if q :| q in e && IsAncestor(p, q) { AncestorRealNames(q, p); }
    }
    forall p, a | p in g && IsAncestor(a, p) ensures a in g && g[a].FsDir? {
      ParentInOverlay(base, ws, e, p, a);
    }
  }

  lemma ParentInOverlay(base: Fs, ws: Fs, e: set<Path>, p: Path, a: Path)
    requires ProperFs(base) && ProperFs(ws) && FilesOf(ws, e) && p in Overlay(base, ws, e) && IsAncestor(a, p)
    requires forall p :: p in e ==> Writable(base, p)
    ensures a in Overlay(base, ws, e) && Overlay(base, ws, e)[a].FsDir?
  {
    OverlayAt(base, ws, e, p);
    OverlayAt(base, ws, e, a);
    assert a in e ==> Writable(base, a);
    if q :| q in e && (q == p || IsAncestor(p, q)) {
      if q != p { AncestorTransitive(a, p, q); }
      if a in e { FilesAreLeaves(ws, a, q); }
    }
  }

  // ---------------------------------------------------------------- the starting tree

  const DS_STORE: Path := [46, 68, 83, 95, 83, 116, 111, 114, 101]  // .DS_Store

  predicate IgnoredName(n: Path) {
    n == PYCACHE || EndsWith(n, DOT_PYC) || n == PYTEST_CACHE || n == DS_STORE
  }

  predicate Copied(p: Path) {
    forall i :: 0 <= i < |Split(p)| ==> !IgnoredName(Split(p)[i])
  }

  function CopyTree(src: Fs): Fs {
    map p | p in src && Copied(p) :: src[p]
  }

  /** What is never copied, by name. */
  lemma CopiedExactly(p: Path)
    ensures DS_STORE == Codes(".DS_Store")
    ensures Copied(p) <==> forall s :: s in Split(p) ==>
              && s != Codes("__pycache__") && s != Codes(".pytest_cache") && s != Codes(".DS_Store")
              && !(|s| >= 4 && s[|s| - 4..] == Codes(".pyc"))
  {
    NameTexts();
    assert DS_STORE == Codes(".DS_Store");
  }

  /** Where copying puts an overlay file: inside a directory of its own name, if the source has one there. */
  function Landing(a: Fs, b: Fs, p: Path): Path
    requires p in b
  {
    if !b[p].FsDir? && p in a && a[p].FsDir? then p + [SLASH] + BaseName(p) else p
  }

  ghost function Landings(a: Fs, b: Fs): set<Path> {
    set p | p in b :: Landing(a, b, p)
  }

  /** A directory is needed where the source has a file, or a file where it has a directory even one level down. */
  ghost predicate Clash(a: Fs, b: Fs) {
    exists p :: p in b && Landing(a, b, p) in a && b[p].FsDir? != a[Landing(a, b, p)].FsDir?
  }

  /** The overlay's node that lands at a place. */
  ghost function Landed(a: Fs, b: Fs, q: Path): FsNode
    requires q in Landings(a, b)
  {
    var p :| p in b && Landing(a, b, p) == q;
    b[p]
  }

  /** src/ with the task's overlay copied on top of it. */
  ghost function MaterializeBase(src: Fs, overlay: Fs): Option<Fs> {
    var a, b := CopyTree(src), CopyTree(overlay);
    if Clash(a, b) then None
    else Some(map q | q in a.Keys + Landings(a, b) :: if q in Landings(a, b) then Landed(a, b, q) else a[q])
  }

  /** The ancestors of a child are its parent and the parent's ancestors. */
  lemma AboveChild(p: Path, n: Path, q: Path)
    requires SLASH !in n && IsAncestor(q, p + [SLASH] + n)
    ensures q == p || IsAncestor(q, p)
  {
    var d := p + [SLASH] + n;
    assert d[..|p|] == p && d[|p| + 1..] == n;
    assert |q| <= |p| by { assert forall k :: |p| < k < |d| ==> d[k] == n[k - |p| - 1] && d[k] in n; }
    assert q == d[..|p|][..|q|];
    if |q| < |p| { assert p[|q|] == d[..|p|][|q|]; }
  }

  lemma DownOne(p: Path, n: Path)
    requires SLASH !in n && n != [] && p != []
    ensures IsAncestor(p, p + [SLASH] + n) && Split(p + [SLASH] + n) == Split(p) + [n]
  {
    assert (p + [SLASH] + n)[..|p|] == p;
    SplitAround(p, n);
    SplitNoSlash(n);
  }

  lemma LandingFacts(a: Fs, b: Fs, p: Path)
    requires ProperFs(b) && p in b && Landing(a, b, p) != p
    ensures IsAncestor(p, Landing(a, b, p)) && Landing(a, b, p) !in b
    ensures Split(Landing(a, b, p)) == Split(p) + [BaseName(p)]
    ensures forall q :: IsAncestor(q, Landing(a, b, p)) ==> q == p || IsAncestor(q, p)
  {
    assert BaseName(p) in Split(p);
    DownOne(p, BaseName(p));
    forall q | IsAncestor(q, Landing(a, b, p)) ensures q == p || IsAncestor(q, p) { AboveChild(p, BaseName(p), q); }
  }

  /** No two overlay places land on the same one. */
  lemma LandingInjective(a: Fs, b: Fs, p: Path, r: Path)
    requires ProperFs(b) && p in b && r in b && Landing(a, b, p) == Landing(a, b, r)
    ensures p == r
  {
    if Landing(a, b, p) != p { LandingFacts(a, b, p); }
    if Landing(a, b, r) != r { LandingFacts(a, b, r); }
    if Landing(a, b, p) != p && Landing(a, b, r) != r {
      var n := |Split(p)|;
      assert Split(p) == (Split(p) + [BaseName(p)])[..n] && Split(r) == (Split(r) + [BaseName(r)])[..|Split(r)|];
      JoinSplit(p);
      JoinSplit(r);
    }
  }

  /** The starting tree: every overlay place is where it lands, and every source place not landed on is kept. */
  lemma BaseIs(src: Fs, overlay: Fs, p: Path)
    requires ProperFs(overlay) && MaterializeBase(src, overlay).Some?
    ensures var base := MaterializeBase(src, overlay).value;
            var a, b := CopyTree(src), CopyTree(overlay);
            && (p in b ==> Landing(a, b, p) in base && base[Landing(a, b, p)] == b[p])
            && (p in a && p !in Landings(a, b) ==> p in base && base[p] == a[p])
            && (p in base <==> p in a || p in Landings(a, b))
  {
    var a, b := CopyTree(src), CopyTree(overlay);
    CopyIsProper(overlay);
    if p in b {
      var q := Landing(a, b, p);
      assert q in Landings(a, b);
      var r :| r in b && Landing(a, b, r) == q && Landed(a, b, q) == b[r];
      LandingInjective(a, b, p, r);
    }
  }

  /**
   * In terms of the two trees: an overlay file goes where it stands, unless the source has a directory
   * there; then into that directory, under its own name. Copying fails exactly when the overlay has a
   * directory where the source has a file, or a file's place in a directory is itself a directory.
   */
  lemma OverlayLands(src: Fs, overlay: Fs)
    requires ProperFs(src) && ProperFs(overlay)
    ensures var a, b := CopyTree(src), CopyTree(overlay);
            && (MaterializeBase(src, overlay).None? <==> exists p :: p in b && Unplaceable(a, b, p))
            && (MaterializeBase(src, overlay).Some? ==>
                  forall p :: p in b ==> PlacedWell(a, b, p, MaterializeBase(src, overlay).value))
  {
    var a, b := CopyTree(src), CopyTree(overlay);
    forall p | p in b
      ensures Unplaceable(a, b, p) <==> Landing(a, b, p) in a && b[p].FsDir? != a[Landing(a, b, p)].FsDir? {}
    if MaterializeBase(src, overlay).Some? {
      forall p | p in b ensures PlacedWell(a, b, p, MaterializeBase(src, overlay).value) {
        BaseIs(src, overlay, p);
        if p in a && a[p].FsDir? { DirStays(src, overlay, p); }
      }
    }
  }

  predicate Unplaceable(a: Fs, b: Fs, p: Path)
    requires p in b
  {
    || (b[p].FsDir? && p in a && !a[p].FsDir?)
    || (!b[p].FsDir? && p in a && a[p].FsDir? && p + [47] + BaseName(p) in a && a[p + [47] + BaseName(p)].FsDir?)
  }

  predicate PlacedWell(a: Fs, b: Fs, p: Path, base: Fs)
    requires p in b
  {
    if !b[p].FsDir? && p in a && a[p].FsDir?
    then p in base && base[p].FsDir? && p + [47] + BaseName(p) in base && base[p + [47] + BaseName(p)] == b[p]
    else p in base && base[p] == b[p]
  }

  /** A directory of the source or the overlay is a directory of the starting tree. */
  lemma DirStays(src: Fs, overlay: Fs, q: Path)
    requires ProperFs(src) && ProperFs(overlay) && MaterializeBase(src, overlay).Some?
    requires (q in CopyTree(src) && CopyTree(src)[q].FsDir?) || (q in CopyTree(overlay) && CopyTree(overlay)[q].FsDir?)
    ensures q in MaterializeBase(src, overlay).value && MaterializeBase(src, overlay).value[q].FsDir?
  {
    var a, b := CopyTree(src), CopyTree(overlay);
    BaseIs(src, overlay, q);
    CopyIsProper(overlay);
    if q in Landings(a, b) {
      var r :| r in b && Landing(a, b, r) == q;
      BaseIs(src, overlay, r);
      if q != r { LandingFacts(a, b, r); }
    }
  }

  lemma LandingParent(src: Fs, overlay: Fs, r: Path, q: Path)
    requires ProperFs(src) && ProperFs(overlay) && MaterializeBase(src, overlay).Some?
    requires r in CopyTree(overlay) && IsAncestor(q, Landing(CopyTree(src), CopyTree(overlay), r))
    ensures q in MaterializeBase(src, overlay).value && MaterializeBase(src, overlay).value[q].FsDir?
  {
    var a, b := CopyTree(src), CopyTree(overlay);
    CopyIsProper(overlay);
    if Landing(a, b, r) != r { LandingFacts(a, b, r); }
    DirStays(src, overlay, q);
  }

  lemma BaseNames(src: Fs, overlay: Fs, p: Path)
    requires ProperFs(src) && ProperFs(overlay) && MaterializeBase(src, overlay).Some?
    requires p in MaterializeBase(src, overlay).value
    ensures Copied(p) && p != [] && forall s :: s in Split(p) ==> FileName(s)
  {
    var a, b := CopyTree(src), CopyTree(overlay);
    CopyIsProper(src);
    CopyIsProper(overlay);
    if p in Landings(a, b) {
      var r :| r in b && Landing(a, b, r) == p;
      if p != r {
        LandingFacts(a, b, r);
        assert BaseName(r) in Split(r);
      }
    }
  }

  lemma BaseIsProper(src: Fs, overlay: Fs)
    requires ProperFs(src) && ProperFs(overlay) && MaterializeBase(src, overlay).Some?
    ensures ProperFs(MaterializeBase(src, overlay).value)
  {
    var a, b := CopyTree(src), CopyTree(overlay);
    var base: Fs := MaterializeBase(src, overlay).value;
    CopyIsProper(src);
    forall p | p in base ensures p != [] && forall s :: s in Split(p) ==> FileName(s) { BaseNames(src, overlay, p); }
    forall p, q | p in base && IsAncestor(q, p) ensures q in base && base[q].FsDir? {
      BaseIs(src, overlay, p);
      if p in Landings(a, b) {
        var r :| r in b && Landing(a, b, r) == p;
        LandingParent(src, overlay, r, q);
      } else {
        DirStays(src, overlay, q);
      }
    }
  }

  lemma CopyIsProper(src: Fs)
    requires ProperFs(src)
    ensures ProperFs(CopyTree(src))
  {
    forall p, q | p in CopyTree(src) && IsAncestor(q, p) ensures q in CopyTree(src) {
      SplitAround(q, p[|q| + 1..]);
      assert p == q + [SLASH] + p[|q| + 1..];
      forall i | 0 <= i < |Split(q)| ensures !IgnoredName(Split(q)[i]) { assert Split(p)[i] == Split(q)[i]; }
    }
  }

  /** What is never copied includes all that a listing leaves out. */
  lemma BaseIsListed(src: Fs, overlay: Fs, p: Path)
    requires ProperFs(src) && ProperFs(overlay) && MaterializeBase(src, overlay).Some?
    requires p in MaterializeBase(src, overlay).value
    ensures Listed(p)
  {
    BaseNames(src, overlay, p);
    assert !IgnoredName(Split(p)[|Split(p)| - 1]);
  }

  /** The graded tree is proper and the digest covers every file of it, so equal digests mean equal files. */
  lemma DigestCoversTree(t: Policy, src: Fs, overlay: Fs, ws: Fs, p: Path)
    requires ProperFs(src) && ProperFs(overlay) && ProperFs(ws) && MaterializeBase(src, overlay).Some?
    requires Gradable(t, MaterializeBase(src, overlay).value, ws)
    ensures var tree := GradedTree(t, MaterializeBase(src, overlay).value, ws).tree;
            ProperFs(tree) && (p in tree && tree[p].FsFile? <==> p in ListedFiles(tree))
  {
    var base := MaterializeBase(src, overlay).value;
    BaseIsProper(src, overlay);
    OverlayIsProper(base, ws, Edited(t, base, ws));
    OverlayAt(base, ws, Edited(t, base, ws), p);
    if p in base { BaseIsListed(src, overlay, p); }
  }

  // ---------------------------------------------------------------- grading again

  /** The workspace rebuilt from stored edits: those files and their directories, nothing else. */
  ghost function Rebuilt(ws: Fs, e: set<Path>): Fs
    requires FilesOf(ws, e)
  {
    Overlay(map[], ws, e)
  }

  lemma RebuiltFiles(ws: Fs, e: set<Path>, p: Path)
    requires ProperFs(ws) && FilesOf(ws, e)
    ensures p in Rebuilt(ws, e) && Rebuilt(ws, e)[p].FsFile? <==> p in e
    ensures p in e ==> Rebuilt(ws, e)[p].data == ws[p].data
  {
    OverlayAt(map[], ws, e, p);
  }

  lemma RebuiltEdits(t: Policy, base: Fs, ws: Fs, p: Path)
    requires ProperFs(ws)
    ensures p in Edited(t, base, Rebuilt(ws, Edited(t, base, ws))) <==> p in Edited(t, base, ws)
    ensures p !in Rejected(t, Rebuilt(ws, Edited(t, base, ws)))
  {
    RebuiltFiles(ws, Edited(t, base, ws), p);
  }

  /** Grading the rebuilt workspace succeeds and gives the same tree and the same edits. */
  lemma RegradeReproduces(t: Policy, base: Fs, ws: Fs)
    requires ProperFs(ws) && Gradable(t, base, ws)
    ensures var ws' := Rebuilt(ws, Edited(t, base, ws));
            && ProperFs(ws') && Gradable(t, base, ws')
            && GradedTree(t, base, ws') == GradedTree(t, base, ws).(rejected := [])
  {
    var e := Edited(t, base, ws);
    var ws' := Rebuilt(ws, e);
    OverlayIsProper(map[], ws, e);
    forall p ensures (p in Edited(t, base, ws') <==> p in e) && p !in Rejected(t, ws') { RebuiltEdits(t, base, ws, p); }
    assert Edited(t, base, ws') == e && Rejected(t, ws') == {};
    forall p | p in ListedFiles(ws') ensures BACKSLASH !in p { RebuiltFiles(ws, e, p); }
    forall p | p in e ensures ws'[p] == FsFile(ws[p].data, false) {
      RebuiltFiles(ws, e, p);
      OverlayAt(map[], ws, e, p);
    }
    SameOverlay(base, ws, ws', e);
    assert SortedOf({}) == [];
  }

  // ---------------------------------------------------------------- the score

  datatype Tag = Failure | Error | Skipped | OtherTag

  datatype TestRun = TestRun(timedOut: bool, exitCode: int, cases: seq<set<Tag>>)

  datatype Counts = Counts(total: nat, failures: nat, errors: nat, skipped: nat)

  datatype Outcome = Outcome(score: int, passed: int, failed: int)

  predicate Clean(tags: set<Tag>) {
    Failure !in tags && Error !in tags && Skipped !in tags
  }

  function CountClean(cases: seq<set<Tag>>): nat {
    if cases == [] then 0 else CountClean(cases[..|cases| - 1]) + if Clean(cases[|cases| - 1]) then 1 else 0
  }

  lemma {:induction false} CountCleanAll(cases: seq<set<Tag>>)
    ensures CountClean(cases) <= |cases|
    ensures CountClean(cases) == |cases| <==> forall i :: 0 <= i < |cases| ==> Clean(cases[i])
  {
    if cases != [] {
      var n := |cases| - 1;
      CountCleanAll(cases[..n]);
      assert forall i :: 0 <= i < n ==> cases[..n][i] == cases[i];
    }
  }

  method ParseJunit(cases: seq<set<Tag>>) returns (c: Counts)
    ensures c.total == |cases|
    ensures c.failures + c.errors + c.skipped + CountClean(cases) == c.total
    ensures c.failures == 0 ==> forall i :: 0 <= i < |cases| ==> Failure !in cases[i]
    ensures c.failures > 0 ==> exists i :: 0 <= i < |cases| && Failure in cases[i]
  {
    c := Counts(0, 0, 0, 0);
    for k := 0 to |cases|
      invariant c.total == k
      invariant c.failures + c.errors + c.skipped + CountClean(cases[..k]) == k
      invariant c.failures == 0 ==> forall i :: 0 <= i < k ==> Failure !in cases[i]
      invariant c.failures > 0 ==> exists i :: 0 <= i < k && Failure in cases[i]
    {
      assert cases[..k + 1][..k] == cases[..k];
      var tags := cases[k];
      c := c.(total := c.total + 1);
      if Failure in tags {
        c := c.(failures := c.failures + 1);
      } else if Error in tags {
        c := c.(errors := c.errors + 1);
      } else if Skipped in tags {
        c := c.(skipped := c.skipped + 1);
      }
    }
    assert cases[..|cases|] == cases;
  }

  /** Every hidden test was collected, ran and passed, and there was at least one. */
  predicate AllPassed(run: TestRun) {
    !run.timedOut && run.exitCode == 0 && run.cases != [] && forall i :: 0 <= i < |run.cases| ==> Clean(run.cases[i])
  }

  function ScoreOf(run: TestRun, submitted: bool): int {
    if AllPassed(run) && submitted then 1 else 0
  }

  method Score(run: TestRun, submitted: bool) returns (o: Outcome)
    ensures o.score == ScoreOf(run, submitted)
    ensures o.passed == CountClean(run.cases) && 0 <= o.failed <= |run.cases| - o.passed
  {
    var counts := ParseJunit(run.cases);
    CountCleanAll(run.cases);
    var failed := counts.failures + counts.errors;
    var passed := counts.total - failed - counts.skipped;
    var allPassed := !run.timedOut && run.exitCode == 0 && counts.total > 0 && failed == 0 && counts.skipped == 0;
    return Outcome(if allPassed && submitted then 1 else 0, passed, failed);
  }

  // ---------------------------------------------------------------- re-grading stored records

  /** A task's fixed parts: what may be edited, the starting tree, the hidden tests, the content hash. */
  datatype Task = Task(policy: Policy, base: Fs, tests: Fs -> TestRun, sha: Bytes -> seq<int>)

  /** What an episode record keeps for re-grading. */
  datatype Record = Record(task: Task, finalFiles: map<Path, Bytes>, submitted: bool, score: int, digest: seq<int>)

  function AsFiles(m: map<Path, Bytes>): Fs {
    map p | p in m :: FsFile(m[p], false)
  }

  /** The record's paths are relative and made of real names. */
  ghost predicate Named(m: map<Path, Bytes>) {
    forall p :: p in m ==> p != [] && forall s :: s in Split(p) ==> FileName(s)
  }

  /** No path lies below another: a file system can hold files of these names together. */
  ghost predicate Compatible(s: set<Path>) {
    forall p, q :: p in s && q in s ==> !IsAncestor(p, q)
  }

  ghost predicate Storable(m: map<Path, Bytes>) {
    Named(m) && Compatible(m.Keys)
  }

  ghost predicate Reproduces(r: Record) {
    var ws := Rebuilt(AsFiles(r.finalFiles), r.finalFiles.Keys);
    && Gradable(r.task.policy, r.task.base, ws)
    && var tree := GradedTree(r.task.policy, r.task.base, ws).tree;
       r.score == ScoreOf(r.task.tests(tree), r.submitted) && r.digest == TreeStream(tree, r.task.sha)
  }

  /** The record of an episode whose final workspace was `ws`. */
  ghost function RecordFor(t: Task, ws: Fs, submitted: bool): Record
    requires Gradable(t.policy, t.base, ws)
  {
    var g := GradedTree(t.policy, t.base, ws);
    Record(t, map p | p in Edited(t.policy, t.base, ws) :: ws[p].data, submitted,
           ScoreOf(t.tests(g.tree), submitted), TreeStream(g.tree, t.sha))
  }

  /** Whatever the workspace was, its record reproduces. */
  lemma HonestRecordsReproduce(t: Task, ws: Fs, submitted: bool)
    requires ProperFs(ws) && Gradable(t.policy, t.base, ws)
    ensures Storable(RecordFor(t, ws, submitted).finalFiles) && Reproduces(RecordFor(t, ws, submitted))
  {
    var e := Edited(t.policy, t.base, ws);
    var m := RecordFor(t, ws, submitted).finalFiles;
    assert m.Keys == e;
    forall p, q | p in m && q in m ensures !IsAncestor(p, q) { FilesAreLeaves(ws, p, q); }
    SameOverlay(map[], ws, AsFiles(m), e);
    RegradeReproduces(t.policy, t.base, ws);
  }

  /** A forged score or digest over the same edits does not reproduce. */
  lemma ForgedRecordsDoNot(t: Task, ws: Fs, submitted: bool, score: int, digest: seq<int>)
    requires ProperFs(ws) && Gradable(t.policy, t.base, ws)
    ensures Reproduces(RecordFor(t, ws, submitted).(score := score, digest := digest))
            <==> score == RecordFor(t, ws, submitted).score && digest == RecordFor(t, ws, submitted).digest
  {
    HonestRecordsReproduce(t, ws, submitted);
  }

  /** The entries of a tree in some order. */
  method Enumerate(keys: set<Path>) returns (walk: seq<Path>)
    ensures Distinct(walk) && forall p :: p in walk <==> p in keys
  {
    walk := [];
    var left := keys;
    while left != {}
      invariant Distinct(walk) && left <= keys && forall p :: p in walk <==> p in keys - left
      decreases left
    {
      var p :| p in left;
      DistinctPush(walk, p);
      walk, left := walk + [p], left - {p};
    }
  }

  lemma DistinctPush(walk: seq<Path>, p: Path)
    requires Distinct(walk) && p !in walk
    ensures Distinct(walk + [p])
  {
  }

  /**
   * Writes the stored files into an empty directory. In whatever order they come, one of the writes
   * raises exactly when some path lies below another.
   */
  method Rebuild(m: map<Path, Bytes>) returns (r: Option<Fs>)
    requires Named(m)
    ensures r.Some? <==> Storable(m)
    ensures r.Some? ==> r.value == Rebuilt(AsFiles(m), m.Keys) && ProperFs(r.value)
  {
    var order := Enumerate(m.Keys);
    var ws: Fs := map[];
    ghost var done: set<Path> := {};
    OverlayNothing(map[], AsFiles(m));
    for k := 0 to |order|
      invariant done == Elems(order[..k]) && done <= m.Keys && Compatible(done)
      invariant ws == Overlay(map[], AsFiles(m), done)
    {
      var p := order[k];
      PrefixSet(order, k);
      assert p in order && p in m;
      WriteStored(m, done, p);
      var written := Write(ws, p, m[p]);
      if written.None? { return None; }
      ws := written.value;
      done := done + {p};
    }
    assert order[..|order|] == order;
    assert done == m.Keys;
    RebuiltAll(m);
    return Some(ws);
  }

  /** One more stored file can be written exactly when it stands neither above nor below an earlier one. */
  lemma WriteStored(m: map<Path, Bytes>, done: set<Path>, p: Path)
    requires Named(m) && done <= m.Keys && Compatible(done) && p in m && p !in done
    ensures WriteBytes(Overlay(map[], AsFiles(m), done), p, m[p])
            == if Compatible(done + {p}) then Some(Overlay(map[], AsFiles(m), done + {p})) else None
  {
    if Compatible(done + {p}) {
      var part := map q | q in m && q in done + {p} :: m[q];
      var from := FilesAndDirs(part);
      assert part.Keys == done + {p};
      StorableTree(part);
      SameOverlay(map[], AsFiles(m), from, done);
      SameOverlay(map[], AsFiles(m), from, done + {p});
      WriteOne(map[], from, done, p);
    } else {
      WriteCollides(m, done, p);
    }
  }

  lemma WriteCollides(m: map<Path, Bytes>, done: set<Path>, p: Path)
    requires done <= m.Keys && Compatible(done) && p in m && p !in done && !Compatible(done + {p})
    ensures WriteBytes(Overlay(map[], AsFiles(m), done), p, m[p]).None?
  {
    var g := Overlay(map[], AsFiles(m), done);
    var d :| d in done && (IsAncestor(d, p) || IsAncestor(p, d));
    if IsAncestor(d, p) {
      AncestorsOfOne(p, d);
      assert d in g && !g[d].FsDir?;
    } else {
      AncestorsMember(done, p);
      if MkdirParents(g, p).Some? { MadeAt(g, p, p); }
    }
  }

  lemma PrefixSet(order: seq<Path>, k: nat)
    requires Distinct(order) && k < |order|
    ensures Elems(order[..k + 1]) == Elems(order[..k]) + {order[k]}
    ensures order[k] !in Elems(order[..k])
    ensures forall p :: p in order[..k] ==> p in order
  {
    assert order[..k + 1] == order[..k] + [order[k]];
  }

  lemma RebuiltAll(m: map<Path, Bytes>)
    requires Storable(m)
    ensures Overlay(map[], FilesAndDirs(m), m.Keys) == Rebuilt(AsFiles(m), m.Keys)
            && ProperFs(Rebuilt(AsFiles(m), m.Keys))
  {
    StorableTree(m);
    SameOverlay(map[], AsFiles(m), FilesAndDirs(m), m.Keys);
    OverlayIsProper(map[], FilesAndDirs(m), m.Keys);
  }

  /** The stored files with their parent directories. */
  ghost function FilesAndDirs(m: map<Path, Bytes>): Fs {
    map p | p in m.Keys + Ancestors(m.Keys) :: if p in m then FsFile(m[p], false) else FsDir
  }

  lemma StorableTree(m: map<Path, Bytes>)
    requires Storable(m)
    ensures ProperFs(FilesAndDirs(m)) && FilesOf(FilesAndDirs(m), m.Keys)
  {
    var fs := FilesAndDirs(m);
    forall p | p in fs ensures p != [] && forall s :: s in Split(p) ==> FileName(s) {
      AncestorsMember(m.Keys, p);
      if q :| q in m && IsAncestor(p, q) { AncestorRealNames(q, p); }
    }
    forall p, a | p in fs && IsAncestor(a, p) ensures a in fs && fs[a].FsDir? {
      AncestorsMember(m.Keys, p);
      AncestorsMember(m.Keys, a);
      if q :| q in m && IsAncestor(p, q) { AncestorTransitive(a, p, q); }
    }
  }

  function CountFalse(xs: seq<bool>): nat {
    if xs == [] then 0 else CountFalse(xs[..|xs| - 1]) + if xs[|xs| - 1] then 0 else 1
  }

  lemma {:induction false} NoneFalse(xs: seq<bool>)
    ensures CountFalse(xs) == 0 <==> forall i :: 0 <= i < |xs| ==> xs[i]
  {
    if xs != [] { NoneFalse(xs[..|xs| - 1]); }
  }

  /** Score and digest of a graded tree. */
  method Assess(t: Task, tree: Fs, submitted: bool) returns (score: int, digest: seq<int>)
    ensures score == ScoreOf(t.tests(tree), submitted) && digest == TreeStream(tree, t.sha)
  {
    var o := Score(t.tests(tree), submitted);
    var listing := Enumerate(tree.Keys);
    var files := IterFilesProgram(tree, listing);
    SortedDistinct(files);
    digest := DigestFiles(tree, files, t.sha, ListedFiles(tree));
    score := o.score;
  }

  /** None when writing the stored files raises: that is not caught, and ends the whole run. */
  method RegradeOne(r: Record) returns (same: Option<bool>)
    requires Named(r.finalFiles)
    ensures same.Some? <==> Storable(r.finalFiles)
    ensures same.Some? ==> (same.value <==> Reproduces(r))
  {
    var rebuilt := Rebuild(r.finalFiles);
    if rebuilt.None? { return None; }
    var ws := rebuilt.value;
    var walk := Enumerate(ws.Keys);
    var g := GradeWorkspace(r.task.policy, r.task.base, ws, walk);
    if g.Err? { return Some(false); }
    var score, digest := Assess(r.task, g.value.tree, r.submitted);
    return Some(score == r.score && digest == r.digest);
  }

  /** Which records reproduce, in order. */
  ghost function Verdicts(rs: seq<Record>): (vs: seq<bool>)
    ensures |vs| == |rs|
  {
    if rs == [] then [] else Verdicts(rs[..|rs| - 1]) + [Reproduces(rs[|rs| - 1])]
  }

  lemma {:induction false} VerdictAt(rs: seq<Record>, i: nat)
    requires i < |rs|
    ensures Verdicts(rs)[i] == Reproduces(rs[i])
  {
    if i < |rs| - 1 { VerdictAt(rs[..|rs| - 1], i); }
  }

  /** The files of each of the first `n` records can be written together. */
  ghost predicate AllStorable(rs: seq<Record>, n: nat)
    requires n <= |rs|
  {
    n == 0 || (AllStorable(rs, n - 1) && Storable(rs[n - 1].finalFiles))
  }

  lemma {:induction false} StorableUpTo(rs: seq<Record>, k: nat)
    requires k < |rs|
    ensures !Storable(rs[k].finalFiles) ==> !AllStorable(rs, |rs|)
  {
    if !Storable(rs[k].finalFiles) { NotStorable(rs, k, |rs|); }
  }

  lemma {:induction false} NotStorable(rs: seq<Record>, k: nat, n: nat)
    requires k < n <= |rs| && !Storable(rs[k].finalFiles)
    ensures !AllStorable(rs, n)
  {
    if k < n - 1 { NotStorable(rs, k, n - 1); }
  }

  lemma CountNext(rs: seq<Record>, k: nat)
    requires k < |rs|
    ensures CountFalse(Verdicts(rs[..k + 1])) == CountFalse(Verdicts(rs[..k])) + if Reproduces(rs[k]) then 0 else 1
  {
    assert rs[..k + 1][..k] == rs[..k];
    var vs := Verdicts(rs[..k]);
    assert Verdicts(rs[..k + 1]) == vs + [Reproduces(rs[k])];
    assert (vs + [Reproduces(rs[k])])[..k] == vs;
  }

  /** One record of the run, counted when it does not reproduce. */
  method RegradeNext(rs: seq<Record>, k: nat, count: nat) returns (r: Option<nat>)
    requires k < |rs| && Named(rs[k].finalFiles) && count == CountFalse(Verdicts(rs[..k]))
    ensures r.Some? <==> Storable(rs[k].finalFiles)
    ensures r.Some? ==> r.value == CountFalse(Verdicts(rs[..k + 1]))
  {
    CountNext(rs, k);
    var same := RegradeOne(rs[k]);
    if same.None? { return None; }
    return Some(count + if same.value then 0 else 1);
  }

  ghost predicate AllNamed(rs: seq<Record>) {
    forall i :: 0 <= i < |rs| ==> Named(rs[i].finalFiles)
  }

  /**
   * The regrade run comes to an end exactly when every record's files can be written together, and then
   * counts exactly the records that do not reproduce.
   */
  method Regrade(rs: seq<Record>) returns (mismatches: Option<nat>)
    requires AllNamed(rs)
    ensures mismatches.Some? <==> AllStorable(rs, |rs|)
    ensures mismatches.Some? ==> mismatches.value == CountFalse(Verdicts(rs))
  {
    var count := 0;
    for k := 0 to |rs|
      invariant count == CountFalse(Verdicts(rs[..k]))
      invariant AllStorable(rs, k)
    {
      StorableUpTo(rs, k);
      var next := RegradeNext(rs, k, count);
      if next.None? { return None; }
      count := next.value;
    }
    assert rs[..|rs|] == rs;
    return Some(count);
  }

  /** The run reports no mismatch exactly when every record reproduces. */
  lemma NoMismatchExactly(rs: seq<Record>)
    ensures CountFalse(Verdicts(rs)) == 0 <==> forall i :: 0 <= i < |rs| ==> Reproduces(rs[i])
  {
    NoneFalse(Verdicts(rs));
    forall i | 0 <= i < |rs| ensures Verdicts(rs)[i] == Reproduces(rs[i]) { VerdictAt(rs, i); }
  }
}
