/**
 * Paths and files of a coding task: the path policy for the agent's edits, the listing of a tree,
 * and its digest (tasks.py).
 */
module Workspace {
  import opened Base
  import opened Lex
  import opened TarPath
  import opened TarDir
  import TarDirLaws
  import TarExtract

  const PYCACHE: Path := [95, 95, 112, 121, 99, 97, 99, 104, 101, 95, 95]                    // __pycache__
  const PYTEST_CACHE: Path := [46, 112, 121, 116, 101, 115, 116, 95, 99, 97, 99, 104, 101]   // .pytest_cache
  const DOT_PYC: Path := [46, 112, 121, 99]                                                  // .pyc
  const MAX_WRITE_BYTES := 256 * 1024

  lemma NameTexts()
    ensures PYCACHE == Codes("__pycache__") && PYTEST_CACHE == Codes(".pytest_cache") && DOT_PYC == Codes(".pyc")
  {
  }

  datatype TaskError = BadPath | NotEditable | BadContent | TooLarge

  /** What a task lets the agent change; `glob` matches one segment against one pattern segment. */
  datatype Policy = Policy(denied: set<Path>, patterns: seq<Path>, glob: (Path, Path) -> bool)

  // ---------------------------------------------------------------- normalising

  /** The parts pathlib keeps: empty segments and '.' disappear. */
  function Parts(segs: seq<Path>): (r: seq<Path>)
    ensures forall s :: s in r ==> s in segs && s != [] && s != [DOT]
  {
    if segs == [] then []
    else
      var rest := Parts(segs[1..]);
      if segs[0] == [] || segs[0] == [DOT] then rest else [segs[0]] + rest
  }

  function NormalizeRelpath(rel: Path): Result<Path, TaskError> {
    if rel == [] || 0 in rel || BACKSLASH in rel then Err(BadPath)
    else if rel[0] == SLASH || [DOT, DOT] in Parts(Split(rel)) then Err(BadPath)
    else
      var parts := Parts(Split(rel));
      Ok(if parts == [] then [DOT] else Join(parts))
  }

  /** A normalised path other than '.' has only real segments. */
  ghost predicate Plain(p: Path) {
    0 !in p && BACKSLASH !in p && forall s :: s in Split(p) ==> !BadSegment(s)
  }

  lemma {:induction false} PartsOfPlain(segs: seq<Path>)
    requires forall s :: s in segs ==> s != [] && s != [DOT]
    ensures Parts(segs) == segs
  {
    if segs != [] {
      assert segs[0] in segs && segs == [segs[0]] + segs[1..];
      assert forall s :: s in segs[1..] ==> s in segs;
      PartsOfPlain(segs[1..]);
    }
  }

  lemma {:induction false} CharsOfJoin(segs: seq<Path>, p: Path, c: int)
    requires segs != [] && c != SLASH && c !in p && forall s :: s in segs ==> s in Split(p)
    ensures c !in Join(segs)
  {
    if exists s :: s in segs && c in s {
      var s :| s in segs && c in s;
      TarExtract.SegmentBytes(p, s);
    }
    assert segs[0] in segs;
    if |segs| > 1 {
      assert forall s :: s in segs[1..] ==> s in segs;
      CharsOfJoin(segs[1..], p, c);
    }
  }

  /** What normalisation accepts and gives back; normalising again changes nothing. */
  lemma NormalizedIsPlain(rel: Path)
    requires NormalizeRelpath(rel).Ok?
    ensures var q := NormalizeRelpath(rel).value; (q == [DOT] || Plain(q)) && NormalizeRelpath(q) == Ok(q)
  {
    var parts := Parts(Split(rel));
    if parts == [] {
      assert Split([DOT]) == [[DOT]];
      assert Parts([[DOT]]) == [];
    } else {
      var q := Join(parts);
      SplitJoin(parts);
      CharsOfJoin(parts, rel, 0);
      CharsOfJoin(parts, rel, BACKSLASH);
      PlainNormal(q);
    }
  }

  lemma PlainNormal(q: Path)
    requires forall s :: s in Split(q) ==> !BadSegment(s)
    requires 0 !in q
    ensures NormalizeRelpath(q) == if BACKSLASH in q then Err(BadPath) else Ok(q)
  {
    PartsOfPlain(Split(q));
    JoinSplit(q);
    SplitHead(q);
    assert Split(q)[0] in Split(q);
  }

  /** A resolved edit path lies strictly below the workspace, or is the workspace itself. */
  lemma ResolvedInside(root: seq<Path>, rel: Path)
    requires NormalizeRelpath(rel).Ok? && NormalizeRelpath(rel).value != [DOT]
    ensures var q := NormalizeRelpath(rel).value;
            var target := TarExtract.Resolve(root, Split(q));
            |root| < |target| && target[..|root|] == root && target[|root|..] == Split(q)
  {
    NormalizedIsPlain(rel);
    TarExtract.ResolvesInside(root, Split(NormalizeRelpath(rel).value));
  }

  // ---------------------------------------------------------------- editable paths

  predicate MatchesSegments(glob: (Path, Path) -> bool, parts: seq<Path>, pattern: seq<Path>) {
    |parts| == |pattern| && forall i :: 0 <= i < |parts| ==> glob(parts[i], pattern[i])
  }

  predicate EditablePlain(t: Policy, p: Path) {
    && BaseName(p) !in t.denied
    && PYCACHE !in Split(p)
    && exists i :: 0 <= i < |t.patterns| && MatchesSegments(t.glob, Split(p), Split(t.patterns[i]))
  }

  /** is_editable: the path is normalised, then matched segment by segment against the patterns in turn. */
  method IsEditable(t: Policy, rel: Path) returns (r: Result<bool, TaskError>)
    ensures r == match NormalizeRelpath(rel) case Err(e) => Err(e) case Ok(p) => Ok(EditablePlain(t, p))
  {
    var n := NormalizeRelpath(rel);
    if n.Err? { return Err(n.error); }
    var editable := MayEdit(t, n.value);
    return Ok(editable);
  }

  method MayEdit(t: Policy, p: Path) returns (r: bool)
    ensures r == EditablePlain(t, p)
  {
    var parts := Split(p);
    if parts[|parts| - 1] in t.denied || PYCACHE in parts { return false; }
    for i := 0 to |t.patterns|
      invariant forall k :: 0 <= k < i ==> !MatchesSegments(t.glob, parts, Split(t.patterns[k]))
    {
      var matches := SegmentsMatch(t.glob, parts, Split(t.patterns[i]));
      if matches { return true; }
    }
    return false;
  }

  method SegmentsMatch(glob: (Path, Path) -> bool, parts: seq<Path>, pattern: seq<Path>) returns (all: bool)
    ensures all <==> MatchesSegments(glob, parts, pattern)
  {
    if |pattern| != |parts| { return false; }
    for j := 0 to |parts|
      invariant forall k :: 0 <= k < j ==> glob(parts[k], pattern[k])
    {
      if !glob(parts[j], pattern[j]) { return false; }
    }
    return true;
  }

  // ---------------------------------------------------------------- listing

  predicate EndsWith(p: Path, suffix: Path) {
    |suffix| <= |p| && p[|p| - |suffix|..] == suffix
  }

  /** Not below a pruned directory, and not a compiled module. */
  predicate Listed(p: Path) {
    && !EndsWith(BaseName(p), DOT_PYC)
    && forall i :: 0 <= i < |Split(p)| - 1 ==> Split(p)[i] != PYCACHE && Split(p)[i] != PYTEST_CACHE
  }

  /** What the listing leaves out, by name: compiled modules and all below either cache directory. */
  lemma ListedExactly(p: Path)
    ensures Listed(p)
       <==> && !(|BaseName(p)| >= 4 && BaseName(p)[|BaseName(p)| - 4..] == Codes(".pyc"))
            && forall i :: 0 <= i < |Split(p)| - 1 ==>
                 Split(p)[i] != Codes("__pycache__") && Split(p)[i] != Codes(".pytest_cache")
  {
    NameTexts();
    assert EndsWith(BaseName(p), DOT_PYC)
      <==> |BaseName(p)| >= 4 && BaseName(p)[|BaseName(p)| - 4..] == Codes(".pyc");
  }

  ghost function ListedFiles(fs: Fs): set<Path> {
    set p | p in fs && fs[p].FsFile? && Listed(p)
  }

  /** iter_files: the listed regular files, sorted. */
  ghost function IterFiles(fs: Fs): seq<Path> {
    SortedOf(ListedFiles(fs))
  }

  /** The loop, over the entries in whatever order the directory walk yields them. */
  method IterFilesProgram(fs: Fs, walk: seq<Path>) returns (out: seq<Path>)
    requires Distinct(walk) && forall p :: p in walk <==> p in fs
    ensures out == IterFiles(fs)
  {
    out := [];
    for k := 0 to |walk|
      invariant Distinct(out)
      invariant forall p :: p in out <==> p in walk[..k] && fs[p].FsFile? && Listed(p)
    {
      var p := walk[k];
      assert walk[..k + 1] == walk[..k] + [p];
      assert p !in walk[..k];
      assert p in fs;
      if fs[p].FsFile? && Listed(p) {
        out := out + [p];
      }
    }
    assert walk[..|walk|] == walk;
    SortIsSortedOf(out, ListedFiles(fs));
    out := Sort(out);
  }

  // ---------------------------------------------------------------- digest

  /** The bytes digest_files hashes: path, NUL, content hash, file after file. */
  function DigestStream(fs: Fs, rels: seq<Path>, sha: Bytes -> seq<int>): seq<int>
    requires forall p :: p in rels ==> p in fs && fs[p].FsFile?
  {
    if rels == [] then [] else rels[0] + [0] + sha(fs[rels[0]].data) + DigestStream(fs, rels[1..], sha)
  }

  lemma {:induction false} StreamPush(fs: Fs, rels: seq<Path>, p: Path, sha: Bytes -> seq<int>)
    requires p in fs && fs[p].FsFile? && forall q :: q in rels ==> q in fs && fs[q].FsFile?
    ensures DigestStream(fs, rels + [p], sha) == DigestStream(fs, rels, sha) + (p + [0] + sha(fs[p].data))
  {
    if rels == [] {
      assert rels + [p] == [p];
      assert p + [0] + sha(fs[p].data) + [] == p + [0] + sha(fs[p].data);
    } else {
      StreamPush(fs, rels[1..], p, sha);
      assert (rels + [p])[1..] == rels[1..] + [p];
      var head, last := rels[0] + [0] + sha(fs[rels[0]].data), p + [0] + sha(fs[p].data);
      var rest := DigestStream(fs, rels[1..], sha);
      assert head + (rest + last) == head + rest + last;
    }
  }

  method DigestSorted(fs: Fs, order: seq<Path>, sha: Bytes -> seq<int>) returns (stream: seq<int>)
    requires forall p :: p in order ==> p in fs && fs[p].FsFile?
    ensures stream == DigestStream(fs, order, sha)
  {
    stream := [];
    for k := 0 to |order|
      invariant stream == DigestStream(fs, order[..k], sha)
    {
      var p := order[k];
      assert p in order;
      assert order[..k + 1] == order[..k] + [p];
      StreamPush(fs, order[..k], p, sha);
      stream := stream + (p + [0] + sha(fs[p].data));
    }
    assert order[..|order|] == order;
  }

  /** digest_files: the stream fed to the outer hash, over the sorted names. */
  method DigestFiles(fs: Fs, rels: seq<Path>, sha: Bytes -> seq<int>, ghost files: set<Path>) returns (stream: seq<int>)
    requires Distinct(rels) && forall p :: p in rels <==> p in files
    requires forall p :: p in rels ==> p in fs && fs[p].FsFile?
    ensures stream == DigestStream(fs, SortedOf(files), sha)
  {
    SortIsSortedOf(rels, files);
    SortSorts(rels);
    stream := DigestSorted(fs, Sort(rels), sha);
  }

  ghost predicate GoodHash(sha: Bytes -> seq<int>) {
    && (forall a :: |sha(a)| == 32)
    && forall a, b :: sha(a) == sha(b) ==> a == b
  }

  lemma NulPosition(p: Path, a: seq<int>)
    requires 0 !in p
    ensures (p + [0] + a)[|p|] == 0 && forall i :: 0 <= i < |p| ==> (p + [0] + a)[i] != 0
  {
    forall i | 0 <= i < |p| ensures (p + [0] + a)[i] != 0 { assert (p + [0] + a)[i] == p[i] && p[i] in p; }
  }

  /** The first NUL ends the first path. */
  lemma FirstNul(p: Path, q: Path, a: seq<int>, b: seq<int>)
    requires 0 !in p && 0 !in q && p + [0] + a == q + [0] + b
    ensures p == q && a == b
  {
    NulPosition(p, a);
    NulPosition(q, b);
    var x, y := p + [0] + a, q + [0] + b;
    assert p == x[..|p|] && q == y[..|q|];
    assert a == x[|p| + 1..] && b == y[|q| + 1..];
  }

  lemma {:induction false} StreamDetermines(fs: Fs, rels: seq<Path>, gs: Fs, rels': seq<Path>, sha: Bytes -> seq<int>)
    requires GoodHash(sha)
    requires forall p :: p in rels ==> p in fs && fs[p].FsFile? && 0 !in p
    requires forall p :: p in rels' ==> p in gs && gs[p].FsFile? && 0 !in p
    requires DigestStream(fs, rels, sha) == DigestStream(gs, rels', sha)
    ensures rels == rels' && forall p :: p in rels ==> fs[p].data == gs[p].data
  {
    if rels == [] || rels' == [] {
      assert rels == rels' == [];
    } else {
      var p, q := rels[0], rels'[0];
      var a, b := DigestStream(fs, rels[1..], sha), DigestStream(gs, rels'[1..], sha);
      assert p in rels && q in rels';
      var x, y := sha(fs[p].data), sha(gs[q].data);
      assert p + [0] + x + a == p + [0] + (x + a) && q + [0] + y + b == q + [0] + (y + b);
      FirstNul(p, q, x + a, y + b);
      assert x == (x + a)[..32] && y == (y + b)[..32] && a == (x + a)[32..] && b == (y + b)[32..];
      StreamDetermines(fs, rels[1..], gs, rels'[1..], sha);
      assert rels == [p] + rels[1..] && rels' == [q] + rels'[1..];
    }
  }

  ghost function TreeStream(fs: Fs, sha: Bytes -> seq<int>): seq<int> {
    DigestStream(fs, IterFiles(fs), sha)
  }

  /** Two trees with the same stream have the same listed files with the same contents. */
  lemma DigestDetermines(fs: Fs, gs: Fs, sha: Bytes -> seq<int>)
    requires GoodHash(sha) && ProperFs(fs) && ProperFs(gs)
    ensures TreeStream(fs, sha) == TreeStream(gs, sha)
            <==> ListedFiles(fs) == ListedFiles(gs) && forall p :: p in ListedFiles(fs) ==> fs[p].data == gs[p].data
  {
    forall p | p in IterFiles(fs) ensures 0 !in p { NoNulIn(fs, p); }
    forall p | p in IterFiles(gs) ensures 0 !in p { NoNulIn(gs, p); }
    if TreeStream(fs, sha) == TreeStream(gs, sha) {
      StreamDetermines(fs, IterFiles(fs), gs, IterFiles(gs), sha);
      assert forall p :: p in ListedFiles(fs) <==> p in ListedFiles(gs);
    }
    if ListedFiles(fs) == ListedFiles(gs) && forall p :: p in ListedFiles(fs) ==> fs[p].data == gs[p].data {
      SameStream(fs, gs, IterFiles(fs), sha);
    }
  }

  lemma {:induction false} SameStream(fs: Fs, gs: Fs, rels: seq<Path>, sha: Bytes -> seq<int>)
    requires forall p :: p in rels ==> p in fs && fs[p].FsFile? && p in gs && gs[p].FsFile? && fs[p].data == gs[p].data
    ensures DigestStream(fs, rels, sha) == DigestStream(gs, rels, sha)
  {
    if rels != [] { SameStream(fs, gs, rels[1..], sha); }
  }

  lemma NoNulIn(fs: Fs, p: Path)
    requires ProperFs(fs) && p in fs
    ensures 0 !in p
  {
    TarDirLaws.NoNul(p);
  }
}
