/**
 * Grading a workspace (grade.py): the starting tree is rebuilt, the permitted edits are laid over it,
 * the hidden tests run on the result, and grading again from the stored edits gives the same grade.
 */
module Grading {
  import opened Base
  import opened Lex
  import opened TarPath
  import opened TarWriter
  import opened TarDir
  import opened TarExtract
  import opened Workspace

  datatype GradeError = TaskFailed(error: TaskError) | CannotWrite

  // ---------------------------------------------------------------- which edits count

  /** Files of the workspace the task lets the agent change. */
  ghost predicate Permitted(t: Policy, ws: Fs, p: Path) {
    p in ListedFiles(ws) && EditablePlain(t, p)
  }

  ghost predicate Allowed(t: Policy, ws: Fs, p: Path) {
    Permitted(t, ws, p) && |ws[p].data| <= MAX_WRITE_BYTES
  }

  predicate Same(base: Fs, p: Path, data: Bytes) {
    p in base && base[p].FsFile? && base[p].data == data
  }

  ghost function Edited(t: Policy, base: Fs, ws: Fs): set<Path> {
    set p | p in ws && Allowed(t, ws, p) && !Same(base, p, ws[p].data)
  }

  ghost function Rejected(t: Policy, ws: Fs): set<Path> {
    set p | p in ws && Permitted(t, ws, p) && |ws[p].data| > MAX_WRITE_BYTES
  }

  // ---------------------------------------------------------------- laying edits over the base

  function FileOver(base: Fs, p: Path, data: Bytes): FsNode {
    FsFile(data, p in base && base[p].FsFile? && base[p].executable)
  }

  /** The base with the files `edits` written, their parent directories made. */
  ghost function Overlay(base: Fs, ws: Fs, edits: set<Path>): Fs
    requires forall p :: p in edits ==> p in ws && ws[p].FsFile?
  {
    map p | p in base.Keys + Ancestors(edits) + edits ::
      if p in edits then FileOver(base, p, ws[p].data) else if p in base then base[p] else FsDir
  }

  /** A file can be written where the base has a file or nothing, below directories or nothing. */
  ghost predicate Writable(base: Fs, p: Path) {
    && (p in base ==> base[p].FsFile?)
    && forall a :: IsAncestor(a, p) && a in base ==> base[a].FsDir?
  }

  /** mkdir -p of the parent, then write_bytes. */
  ghost function WriteBytes(g: Fs, p: Path, data: Bytes): Option<Fs> {
    match MkdirParents(g, p)
    case None => None
    case Some(h) => if p in h && !h[p].FsFile? then None else Some(h[p := FileOver(h, p, data)])
  }

  /** grade_workspace's tree, or why it cannot be built. */
  datatype Graded = Graded(tree: Fs, edited: seq<Path>, rejected: seq<Path>)

  ghost predicate Gradable(t: Policy, base: Fs, ws: Fs) {
    && (forall p :: p in ListedFiles(ws) ==> BACKSLASH !in p)
    && forall p :: p in Edited(t, base, ws) ==> Writable(base, p)
  }

  /** An independent account of the result: no loop, no order. */
  ghost function GradedTree(t: Policy, base: Fs, ws: Fs): Graded {
    Graded(Overlay(base, ws, Edited(t, base, ws)), SortedOf(Edited(t, base, ws)), SortedOf(Rejected(t, ws)))
  }

  // ---------------------------------------------------------------- one write

  /** No file of a tree lies above another: the edits do not get in each other's way. */
  lemma FilesAreLeaves(fs: Fs, p: Path, q: Path)
    requires ProperFs(fs) && p in fs && q in fs && fs[p].FsFile?
    ensures !IsAncestor(p, q)
  {
  }

  lemma OverlayNothing(base: Fs, ws: Fs)
    ensures Overlay(base, ws, {}) == base
  {
    assert Ancestors({}) == {};
  }

  /** Some written file lies below `a` exactly when `a` is an ancestor of one. */
  lemma OverlayAt(base: Fs, ws: Fs, s: set<Path>, a: Path)
    requires ProperFs(ws) && forall q :: q in s ==> q in ws && ws[q].FsFile?
    ensures var g := Overlay(base, ws, s);
            && (a in g <==> a in base || a in s || exists q :: q in s && IsAncestor(a, q))
            && (a in s ==> g[a] == FileOver(base, a, ws[a].data))
            && (a in g && a !in s ==> g[a] == if a in base then base[a] else FsDir)
  {
    AncestorsMember(s, a);
  }

  /** Writing one more edit succeeds exactly when the base leaves room for it. */
  lemma WriteOne(base: Fs, ws: Fs, s: set<Path>, p: Path)
    requires ProperFs(ws) && p in ws && ws[p].FsFile? && p !in s
    requires forall q :: q in s ==> q in ws && ws[q].FsFile?
    ensures WriteBytes(Overlay(base, ws, s), p, ws[p].data)
            == if Writable(base, p) then Some(Overlay(base, ws, s + {p})) else None
  {
    var g := Overlay(base, ws, s);
    forall a ensures a in Ancestors({p}) <==> IsAncestor(a, p) { AncestorsOfOne(p, a); }
    forall a | IsAncestor(a, p) && a in g ensures g[a].FsDir? <==> a in base ==> base[a].FsDir? {
      OverlayAt(base, ws, s, a);
      if a in s { FilesAreLeaves(ws, a, p); }
    }
    OverlayAt(base, ws, s, p);
    if q :| q in s && IsAncestor(p, q) { FilesAreLeaves(ws, p, q); }
    if MkdirParents(g, p).None? {
      var a :| a in Ancestors({p}) && a in g && !g[a].FsDir?;
      OverlayAt(base, ws, s, a);
      assert !Writable(base, p);
    } else if p in base && !base[p].FsFile? {
    } else {
      forall a | IsAncestor(a, p) && a in base ensures base[a].FsDir? {
        OverlayAt(base, ws, s, a);
        assert a in Ancestors({p});
      }
      WrittenTree(base, ws, s, p);
    }
  }

  lemma MadeAt(g: Fs, p: Path, a: Path)
    requires MkdirParents(g, p).Some?
    ensures var h := MkdirParents(g, p).value;
            (a in h <==> a in g || IsAncestor(a, p)) && (a in h ==> h[a] == if a in g then g[a] else FsDir)
  {
    AncestorsOfOne(p, a);
  }

  lemma WrittenTree(base: Fs, ws: Fs, s: set<Path>, p: Path)
    requires ProperFs(ws) && p in ws && ws[p].FsFile? && p !in s
    requires forall q :: q in s ==> q in ws && ws[q].FsFile?
    requires Writable(base, p) && MkdirParents(Overlay(base, ws, s), p).Some?
    ensures WriteBytes(Overlay(base, ws, s), p, ws[p].data) == Some(Overlay(base, ws, s + {p}))
  {
    UntouchedAt(base, ws, s, p);
    forall a { WrittenAt(base, ws, s, p, a); }
    SameMap(MkdirParents(Overlay(base, ws, s), p).value[p := FileOver(base, p, ws[p].data)],
            Overlay(base, ws, s + {p}));
  }

  lemma SameMap(w: Fs, n: Fs)
    requires forall a :: (a in w <==> a in n) && (a in n ==> w[a] == n[a])
    ensures w == n
  {
  }

  /** The place of an edit not yet written is as in the base. */
  lemma UntouchedAt(base: Fs, ws: Fs, s: set<Path>, p: Path)
    requires ProperFs(ws) && p in ws && ws[p].FsFile? && p !in s
    requires forall q :: q in s ==> q in ws && ws[q].FsFile?
    requires MkdirParents(Overlay(base, ws, s), p).Some?
    ensures var h := MkdirParents(Overlay(base, ws, s), p).value;
            (p in h <==> p in base) && (p in h ==> h[p] == base[p])
                && FileOver(h, p, ws[p].data) == FileOver(base, p, ws[p].data)
  {
    MadeAt(Overlay(base, ws, s), p, p);
    OverlayAt(base, ws, s, p);
    if q :| q in s && IsAncestor(p, q) { FilesAreLeaves(ws, p, q); }
  }

  lemma WrittenAt(base: Fs, ws: Fs, s: set<Path>, p: Path, a: Path)
    requires ProperFs(ws) && p in ws && ws[p].FsFile? && p !in s
    requires forall q :: q in s ==> q in ws && ws[q].FsFile?
    requires MkdirParents(Overlay(base, ws, s), p).Some?
    ensures var h := MkdirParents(Overlay(base, ws, s), p).value;
            var w := h[p := FileOver(base, p, ws[p].data)];
            var n := Overlay(base, ws, s + {p});
            (a in w <==> a in n) && (a in n ==> w[a] == n[a])
  {
    MadeAt(Overlay(base, ws, s), p, a);
    OverlayAt(base, ws, s, a);
    OverlayAt(base, ws, s + {p}, a);
  }

  // ---------------------------------------------------------------- the grading loop

  ghost function AncestorsUpTo(p: Path, n: nat): set<Path>
    requires n <= |p|
  {
    set k | 0 < k < n && p[k] == SLASH :: p[..k]
  }

  lemma AllAncestors(p: Path)
    ensures AncestorsUpTo(p, |p|) == Ancestors({p})
  {
    forall a ensures a in AncestorsUpTo(p, |p|) <==> a in Ancestors({p}) {
      AncestorsOfOne(p, a);
      if IsAncestor(a, p) { assert p[|a|] == SLASH && a == p[..|a|]; }
    }
  }

  lemma StillBlocked(g: Fs, small: set<Path>, large: set<Path>)
    requires small <= large && MakeAll(g, small).None?
    ensures MakeAll(g, large).None?
  {
  }

  /** mkdir(parents=True, exist_ok=True) of the parent. */
  method MakeParents(g: Fs, p: Path) returns (r: Option<Fs>)
    ensures r == MkdirParents(g, p)
  {
    AllAncestors(p);
    var h := g;
    assert AncestorsUpTo(p, 0) == {};
    assert g + (map b | b in AncestorsUpTo(p, 0) :: FsDir) == g;
    for i := 0 to |p|
      invariant MakeAll(g, AncestorsUpTo(p, i)) == Some(h)
    {
      if i > 0 && p[i] == SLASH {
        var a := p[..i];
        assert AncestorsUpTo(p, i + 1) == AncestorsUpTo(p, i) + {a};
        MakeOneMore(g, AncestorsUpTo(p, i), a);
        if a in h && !h[a].FsDir? {
          StillBlocked(g, AncestorsUpTo(p, i + 1), AncestorsUpTo(p, |p|));
          return None;
        }
        h := h[a := FsDir];
      } else {
        assert AncestorsUpTo(p, i + 1) == AncestorsUpTo(p, i);
      }
    }
    return Some(h);
  }

  method Write(g: Fs, p: Path, data: Bytes) returns (r: Option<Fs>)
    ensures r == WriteBytes(g, p, data)
  {
    var made := MakeParents(g, p);
    if made.None? { return None; }
    if p in made.value && !made.value[p].FsFile? { return None; }
    return Some(made.value[p := FsFile(data, p in made.value && made.value[p].FsFile? && made.value[p].executable)]);
  }

  lemma ListedNormal(ws: Fs, p: Path)
    requires ProperFs(ws) && p in ws
    ensures NormalizeRelpath(p) == if BACKSLASH in p then Err(TaskError.BadPath) else Ok(p)
  {
    NoNulIn(ws, p);
    PlainNormal(p);
  }

  /** An edit sees the tree under construction as it was in the base. */
  lemma SeenAsInBase(base: Fs, ws: Fs, s: set<Path>, p: Path, data: Bytes)
    requires ProperFs(ws) && p in ws && ws[p].FsFile? && p !in s
    requires forall q :: q in s ==> q in ws && ws[q].FsFile?
    ensures Same(Overlay(base, ws, s), p, data) <==> Same(base, p, data)
  {
    OverlayAt(base, ws, s, p);
  }

  lemma SortedPush(xs: seq<Path>, files: seq<Path>, i: nat)
    requires Sorted(xs) && Sorted(files) && i < |files| && forall x :: x in xs ==> x in files[..i]
    ensures Sorted(xs + [files[i]])
  {
    var ys := xs + [files[i]];
    forall a, b | 0 <= a < b < |ys| ensures Less(ys[a], ys[b]) {
      if b == |xs| {
        assert xs[a] in files[..i];
        var k :| 0 <= k < i && files[k] == xs[a];
      }
    }
  }

  /** The part of a set already reached by the loop. */
  ghost function Reached(s: set<Path>, files: seq<Path>, i: nat): set<Path>
    requires i <= |files|
  {
    set p | p in s && p in files[..i]
  }

  lemma ReachedNext(s: set<Path>, files: seq<Path>, i: nat)
    requires i < |files| && Sorted(files)
    ensures Reached(s, files, i + 1)
            == if files[i] in s then Reached(s, files, i) + {files[i]} else Reached(s, files, i)
    ensures files[i] !in Reached(s, files, i)
  {
    SortedDistinct(files);
    assert files[..i + 1] == files[..i] + [files[i]];
  }

  lemma ReachedAll(s: set<Path>, files: seq<Path>, xs: seq<Path>)
    requires Sorted(xs) && forall p :: p in s ==> p in files
    requires forall p :: p in xs <==> p in Reached(s, files, |files|)
    ensures Reached(s, files, |files|) == s && xs == SortedOf(s)
  {
    assert files[..|files|] == files;
    SortedUnique(xs, SortedOf(s));
  }

  ghost predicate FilesOf(ws: Fs, s: set<Path>) {
    forall p :: p in s ==> p in ws && ws[p].FsFile?
  }

  /** The loop's state after `i` files, when `e` are the edits and `j` the rejected files. */
  ghost predicate Sofar(e: set<Path>, j: set<Path>, base: Fs, ws: Fs, files: seq<Path>, i: nat, s: Graded)
    requires i <= |files| && FilesOf(ws, e)
  {
    && Sorted(s.edited) && Sorted(s.rejected)
    && (forall p :: p in s.edited <==> p in Reached(e, files, i))
    && (forall p :: p in s.rejected <==> p in Reached(j, files, i))
    && s.tree == Overlay(base, ws, Reached(e, files, i))
    && (forall k :: 0 <= k < i ==> BACKSLASH !in files[k])
    && forall k :: 0 <= k < i && files[k] in e ==> Writable(base, files[k])
  }

  lemma NextEdit(e: set<Path>, j: set<Path>, base: Fs, ws: Fs, files: seq<Path>, i: nat, s: Graded)
    requires ProperFs(ws) && FilesOf(ws, e) && i < |files| && Sorted(files) && Sofar(e, j, base, ws, files, i, s)
    requires files[i] in e && files[i] !in j && BACKSLASH !in files[i]
    ensures var w := WriteBytes(s.tree, files[i], ws[files[i]].data);
            && (w.Some? <==> Writable(base, files[i]))
            && (w.Some? ==> Sofar(e, j, base, ws, files, i + 1, Graded(w.value, s.edited + [files[i]], s.rejected)))
  {
    var p := files[i];
    ReachedNext(e, files, i);
    ReachedNext(j, files, i);
    WriteOne(base, ws, Reached(e, files, i), p);
    SortedPush(s.edited, files, i);
  }

  lemma NextRejected(e: set<Path>, j: set<Path>, base: Fs, ws: Fs, files: seq<Path>, i: nat, s: Graded)
    requires ProperFs(ws) && FilesOf(ws, e) && i < |files| && Sorted(files) && Sofar(e, j, base, ws, files, i, s)
    requires files[i] !in e && files[i] in j && BACKSLASH !in files[i]
    ensures Sofar(e, j, base, ws, files, i + 1, s.(rejected := s.rejected + [files[i]]))
  {
    ReachedNext(e, files, i);
    ReachedNext(j, files, i);
    SortedPush(s.rejected, files, i);
  }

  lemma NextOther(e: set<Path>, j: set<Path>, base: Fs, ws: Fs, files: seq<Path>, i: nat, s: Graded)
    requires ProperFs(ws) && FilesOf(ws, e) && i < |files| && Sorted(files) && Sofar(e, j, base, ws, files, i, s)
    requires files[i] !in e && files[i] !in j && BACKSLASH !in files[i]
    ensures Sofar(e, j, base, ws, files, i + 1, s)
  {
    ReachedNext(e, files, i);
    ReachedNext(j, files, i);
  }

  /** Which of the two lists a listed file belongs to. */
  lemma Classify(t: Policy, base: Fs, ws: Fs, p: Path)
    requires p in ListedFiles(ws)
    ensures p in Rejected(t, ws) <==> EditablePlain(t, p) && |ws[p].data| > MAX_WRITE_BYTES
    ensures p in Edited(t, base, ws)
            <==> EditablePlain(t, p) && |ws[p].data| <= MAX_WRITE_BYTES && !Same(base, p, ws[p].data)
  {
  }

  /** One round of the loop: a name is refused, skipped, rejected for its size, or written when it differs. */
  method GradeFile(t: Policy, base: Fs, ws: Fs, rel: Path, s: Graded, ghost files: seq<Path>, ghost i: nat)
      returns (r: Result<Graded, GradeError>)
    requires ProperFs(ws) && i < |files| && files == IterFiles(ws) && rel == files[i]
    requires Sofar(Edited(t, base, ws), Rejected(t, ws), base, ws, files, i, s)
    ensures r.Ok? ==> Sofar(Edited(t, base, ws), Rejected(t, ws), base, ws, files, i + 1, r.value)
    ensures r.Err? ==> BACKSLASH in rel || (rel in Edited(t, base, ws) && !Writable(base, rel))
  {
    ghost var e, j := Edited(t, base, ws), Rejected(t, ws);
    assert rel in files;
    ListedNormal(ws, rel);
    Classify(t, base, ws, rel);
    var editable := IsEditable(t, rel);
    if editable.Err? { return Err(TaskFailed(editable.error)); }
    if !editable.value {
      NextOther(e, j, base, ws, files, i, s);
      return Ok(s);
    }
    var data := ws[rel].data;
    if |data| > MAX_WRITE_BYTES {
      NextRejected(e, j, base, ws, files, i, s);
      return Ok(s.(rejected := s.rejected + [rel]));
    }
    ReachedNext(e, files, i);
    SeenAsInBase(base, ws, Reached(e, files, i), rel, data);
    if !(rel in s.tree && s.tree[rel].FsFile? && s.tree[rel].data == data) {
      NextEdit(e, j, base, ws, files, i, s);
      var written := Write(s.tree, rel, data);
      if written.None? { return Err(CannotWrite); }
      return Ok(Graded(written.value, s.edited + [rel], s.rejected));
    }
    NextOther(e, j, base, ws, files, i, s);
    return Ok(s);
  }

  /**
   * Lays the permitted edits over the base, file after file. It fails exactly when a listed name has
   * a backslash or an edit has no place in the base; otherwise the tree and both lists are the ones
   * described without any order.
   */
  method GradeWorkspace(t: Policy, base: Fs, ws: Fs, walk: seq<Path>) returns (r: Result<Graded, GradeError>)
    requires ProperFs(ws) && Distinct(walk) && forall p :: p in walk <==> p in ws
    ensures r.Ok? <==> Gradable(t, base, ws)
    ensures r.Ok? ==> r.value == GradedTree(t, base, ws)
  {
    var files := IterFilesProgram(ws, walk);
    var s := Graded(base, [], []);
    ghost var e, j := Edited(t, base, ws), Rejected(t, ws);
    assert Reached(e, files, 0) == {} && Reached(j, files, 0) == {};
    OverlayNothing(base, ws);
    for i := 0 to |files|
      invariant Sofar(e, j, base, ws, files, i, s)
    {
      assert files[i] in files;
      var next := GradeFile(t, base, ws, files[i], s, files, i);
      if next.Err? { return next; }
      s := next.value;
    }
    GradedAll(t, base, ws, files, s);
    return Ok(s);
  }

  lemma GradedAll(t: Policy, base: Fs, ws: Fs, files: seq<Path>, s: Graded)
    requires ProperFs(ws) && files == IterFiles(ws)
    requires Sofar(Edited(t, base, ws), Rejected(t, ws), base, ws, files, |files|, s)
    ensures Gradable(t, base, ws) && s == GradedTree(t, base, ws)
  {
    var e, j := Edited(t, base, ws), Rejected(t, ws);
    ReachedAll(e, files, s.edited);
    ReachedAll(j, files, s.rejected);
    forall p | p in e ensures Writable(base, p) { assert p in files; }
    forall p | p in ListedFiles(ws) ensures BACKSLASH !in p { assert p in files; }
  }
}
