/**
 * The second archive writer, digest.py: its own walk into a list of tuples, one sort by path bytes,
 * one buffer. It shares the header encoder and does no path validation.
 */
module DigestPy {
  import opened Base
  import opened Lex
  import opened TarPath
  import opened TarHeader
  import opened TarWriter
  import opened TarLaws
  import opened TarDir
  import opened TarDirLaws

  /** (sort key, archive name, is_dir, mode, data) */
  datatype PyEntry = PyEntry(key: Path, name: Path, isDir: bool, mode: nat, data: Bytes)

  type PyListing = Result<seq<PyEntry>, DirError>

  function PyCat(a: PyListing, b: PyListing): PyListing {
    if a.Err? then a else if b.Err? then b else Ok(a.value + b.value)
  }

  ghost function PyVisit(fs: Fs, excluded: set<Path>, rel: Path, name: Path): PyListing
    requires rel in fs && rel != []
    decreases |WithinSet(fs, rel)|, 0, 0
  {
    if name in excluded then Ok([])
    else match fs[rel]
      case FsLink => Err(LinkFound)
      case FsDir =>
        BelowShrinks(fs, rel);
        PyCat(Ok([PyEntry(rel, rel + [SLASH], true, MODE_EXEC, [])]), PyWalk(fs, excluded, rel))
      case FsFile(data, x) => Ok([PyEntry(rel, rel, false, if x then MODE_EXEC else MODE_FILE, data)])
      case FsSpecial => Err(SpecialFound)
  }

  ghost function PyNames(fs: Fs, excluded: set<Path>, dir: Path, names: seq<Path>): PyListing
    requires forall n :: n in names ==> n != [] && SLASH !in n && Child(dir, n) in fs
    decreases |BelowSet(fs, dir)|, 1, |names|
  {
    if names == [] then Ok([])
    else
      WithinChildSmaller(fs, dir, names[0]);
      ChildFacts(dir, names[0]);
      assert forall k :: k in names[1..] ==> k in names;
      PyCat(PyVisit(fs, excluded, Child(dir, names[0]), names[0]), PyNames(fs, excluded, dir, names[1..]))
  }

  ghost function PyWalk(fs: Fs, excluded: set<Path>, dir: Path): PyListing
    decreases |BelowSet(fs, dir)|, 2, 0
  {
    PyNames(fs, excluded, dir, DirNames(fs, dir))
  }

  /** `sorted(entries, key=lambda e: e[0])`, for entries with distinct keys. */
  function PySorted(es: seq<PyEntry>): seq<PyEntry> {
    if es == [] then [] else PyInsert(es[0], PySorted(es[1..]))
  }

  function PyInsert(e: PyEntry, es: seq<PyEntry>): seq<PyEntry> {
    if es == [] then [e]
    else if Less(es[0].key, e.key) then [es[0]] + PyInsert(e, es[1..])
    else [e] + es
  }

  function PySerialize(es: seq<PyEntry>): Result<Bytes, HeaderError> {
    if es == [] then Ok([])
    else
      match Header(es[0].name, es[0].isDir, es[0].mode, |es[0].data|)
      case Err(e) => Err(e)
      case Ok(h) =>
        match PySerialize(es[1..])
        case Err(e) => Err(e)
        case Ok(rest) => Ok(h + PaddedData(es[0].data) + rest)
  }

  datatype PyError = PyWalking(reason: DirError) | PyHeader(why: HeaderError)

  ghost function CanonicalTar(fs: Fs, excluded: set<Path>): Result<Bytes, PyError> {
    match PyWalk(fs, excluded, [])
    case Err(e) => Err(PyWalking(e))
    case Ok(es) => PyFinish(es)
  }

  function PyFinish(es: seq<PyEntry>): Result<Bytes, PyError> {
    match PySerialize(PySorted(es))
    case Err(e) => Err(PyHeader(e))
    case Ok(b) => Ok(b + END_OF_ARCHIVE)
  }

  lemma PySerializeNext(es: seq<PyEntry>, k: nat, out: Bytes)
    requires k < |es|
    ensures match Header(es[k].name, es[k].isDir, es[k].mode, |es[k].data|)
            case Err(e) => Then(out, PySerialize(es[k..])) == Err(e)
            case Ok(h) => Then(out, PySerialize(es[k..]))
                          == Then(out + h + PaddedData(es[k].data), PySerialize(es[k + 1..]))
  {
    assert es[k..][1..] == es[k + 1..];
    var h := Header(es[k].name, es[k].isDir, es[k].mode, |es[k].data|);
    var rest := PySerialize(es[k + 1..]);
    if h.Ok? && rest.Ok? {
      var d := PaddedData(es[k].data);
      assert out + (h.value + d + rest.value) == out + h.value + d + rest.value;
    }
  }

  method AppendEntry(e: PyEntry, out: Bytes) returns (r: Result<Bytes, HeaderError>)
    ensures r == match Header(e.name, e.isDir, e.mode, |e.data|)
                 case Err(x) => Err(x)
                 case Ok(h) => Ok(out + h + PaddedData(e.data))
  {
    var h := EncodeHeader(e.name, e.isDir, e.mode, |e.data|);
    if h.Err? { return h; }
    if e.data == [] {
      assert out + h.value + PaddedData(e.data) == out + h.value;
      return Ok(out + h.value);
    }
    return Ok(out + h.value + PaddedData(e.data));
  }

  /** The loop over the sorted tuples, appending to one buffer. */
  method SerializeLoop(es: seq<PyEntry>) returns (r: Result<Bytes, HeaderError>)
    ensures r == match PySerialize(es) case Err(e) => Err(e) case Ok(b) => Ok(b + END_OF_ARCHIVE)
  {
    var out: Bytes := [];
    assert es[0..] == es;
    ThenNothing(PySerialize(es));
    for k := 0 to |es|
      invariant PySerialize(es) == Then(out, PySerialize(es[k..]))
    {
      PySerializeNext(es, k, out);
      var next := AppendEntry(es[k], out);
      if next.Err? { return next; }
      out := next.value;
    }
    assert es[|es|..] == [] && out + [] == out;
    return Ok(out + END_OF_ARCHIVE);
  }

  // ---------------------------------------------------------------- the two walks list the same

  function PyOf(x: TarInput): PyEntry {
    var n := InputNode(x);
    PyEntry(x.path, EntryName(x.path, n), n.Dir?, EntryMode(n), EntryData(n))
  }

  function PyOfAll(xs: seq<TarInput>): (r: seq<PyEntry>)
    ensures |r| == |xs| && forall i :: 0 <= i < |xs| ==> r[i] == PyOf(xs[i])
  {
    seq(|xs|, i requires 0 <= i < |xs| => PyOf(xs[i]))
  }

  function PyOfListing(l: Listing): PyListing {
    match l
    case Err(e) => Err(e)
    case Ok(xs) => Ok(PyOfAll(xs))
  }

  /** Excluding by basename only: the options the two programs share. */
  function ByName(excluded: set<Path>): Options {
    Options(excluded, (p, d) => false)
  }

  lemma PyCatAgrees(a: Listing, b: Listing)
    ensures PyCat(PyOfListing(a), PyOfListing(b)) == PyOfListing(Cat(a, b))
  {
    if a.Ok? && b.Ok? { assert PyOfAll(a.value) + PyOfAll(b.value) == PyOfAll(a.value + b.value); }
  }

  lemma {:induction false} PyVisitAgrees(fs: Fs, excluded: set<Path>, rel: Path, name: Path)
    requires rel in fs && rel != []
    ensures PyVisit(fs, excluded, rel, name) == PyOfListing(Visit(fs, ByName(excluded), rel, name))
    decreases |WithinSet(fs, rel)|, 0, 0
  {
    if fs[rel].FsDir? {
      BelowShrinks(fs, rel);
      if name !in excluded {
        PyWalkAgrees(fs, excluded, rel);
        var d: Listing := Ok([DirInput(rel)]);
        PyCatAgrees(d, Walk(fs, ByName(excluded), rel));
        assert PyOfAll([DirInput(rel)]) == [PyOf(DirInput(rel))];
      }
    } else if fs[rel].FsFile? && name !in excluded {
      var f := FileInput(rel, Some(fs[rel].data), fs[rel].executable);
      assert PyOfAll([f]) == [PyOf(f)];
    }
    assert PyOfAll([]) == [];
  }

  lemma {:induction false} PyNamesAgrees(fs: Fs, excluded: set<Path>, dir: Path, names: seq<Path>)
    requires forall n :: n in names ==> n != [] && SLASH !in n && Child(dir, n) in fs
    ensures PyNames(fs, excluded, dir, names) == PyOfListing(WalkNames(fs, ByName(excluded), dir, names))
    decreases |BelowSet(fs, dir)|, 1, |names|
  {
    if names == [] {
      assert PyOfAll([]) == [];
    } else {
      WithinChildSmaller(fs, dir, names[0]);
      ChildFacts(dir, names[0]);
      assert forall k :: k in names[1..] ==> k in names;
      PyVisitAgrees(fs, excluded, Child(dir, names[0]), names[0]);
      PyNamesAgrees(fs, excluded, dir, names[1..]);
      PyCatAgrees(Visit(fs, ByName(excluded), Child(dir, names[0]), names[0]),
                  WalkNames(fs, ByName(excluded), dir, names[1..]));
    }
  }

  lemma {:induction false} PyWalkAgrees(fs: Fs, excluded: set<Path>, dir: Path)
    ensures PyWalk(fs, excluded, dir) == PyOfListing(Walk(fs, ByName(excluded), dir))
    decreases |BelowSet(fs, dir)|, 2, 0
  {
    PyNamesAgrees(fs, excluded, dir, DirNames(fs, dir));
  }

  // ---------------------------------------------------------------- the two serialisers agree

  function PyOne(p: Path, n: Node): PyEntry {
    PyEntry(p, EntryName(p, n), n.Dir?, EntryMode(n), EntryData(n))
  }

  function PyAt(order: seq<Path>, t: Tree): (es: seq<PyEntry>)
    requires forall p :: p in order ==> p in t
    ensures |es| == |order|
    ensures forall i :: 0 <= i < |order| ==> es[i] == PyOne(order[i], t[order[i]])
  {
    seq(|order|, i requires 0 <= i < |order| => PyOne(order[i], t[order[i]]))
  }

  lemma {:induction false} PySerializeAt(order: seq<Path>, t: Tree)
    requires forall p :: p in order ==> p in t
    ensures PySerialize(PyAt(order, t)) == Serialize(order, t)
  {
    if order != [] {
      assert PyAt(order, t)[1..] == PyAt(order[1..], t);
      PySerializeAt(order[1..], t);
    }
  }

  /** Sorting tuples by key is sorting their keys. */
  lemma {:induction false} PyInsertAt(p: Path, order: seq<Path>, t: Tree)
    requires p in t && forall q :: q in order ==> q in t
    ensures forall q :: q in Insert(p, order) ==> q in t
    ensures PyInsert(PyOne(p, t[p]), PyAt(order, t)) == PyAt(Insert(p, order), t)
  {
    forall q | q in Insert(p, order) ensures q in t { assert q in multiset(Insert(p, order)); }
    if order != [] {
      assert order == [order[0]] + order[1..];
      PyAtCons(order[0], order[1..], t);
      if Less(order[0], p) {
        PyInsertAt(p, order[1..], t);
        assert Insert(p, order) == [order[0]] + Insert(p, order[1..]);
        PyAtCons(order[0], Insert(p, order[1..]), t);
      } else {
        assert Insert(p, order) == [p] + order;
        PyAtCons(p, order, t);
      }
    }
  }

  lemma PyAtCons(p: Path, order: seq<Path>, t: Tree)
    requires p in t && forall q :: q in order ==> q in t
    ensures PyAt([p] + order, t) == [PyOne(p, t[p])] + PyAt(order, t)
  {
  }

  lemma {:induction false} PySortedAt(order: seq<Path>, t: Tree)
    requires forall q :: q in order ==> q in t
    ensures forall q :: q in Sort(order) ==> q in t
    ensures PySorted(PyAt(order, t)) == PyAt(Sort(order), t)
  {
    if order != [] {
      assert PyAt(order, t)[1..] == PyAt(order[1..], t);
      PySortedAt(order[1..], t);
      PyInsertAt(order[0], Sort(order[1..]), t);
    }
  }

  function Keys(xs: seq<TarInput>): (ks: seq<Path>)
    ensures |ks| == |xs| && forall i :: 0 <= i < |xs| ==> ks[i] == xs[i].path
  {
    seq(|xs|, i requires 0 <= i < |xs| => xs[i].path)
  }

  lemma PyListingAt(fs: Fs, xs: seq<TarInput>, s: set<Path>)
    requires Covers(fs, xs, s) && Archivable(fs, s)
    ensures Distinct(Keys(xs)) && forall p :: p in Keys(xs) <==> p in FsTree(fs, s)
    ensures PyOfAll(xs) == PyAt(Keys(xs), FsTree(fs, s))
  {
    var t := FsTree(fs, s);
    forall p ensures p in Keys(xs) <==> p in t {
      if p in s {
        var i :| 0 <= i < |xs| && xs[i].path == p;
        assert Keys(xs)[i] == p;
      }
    }
    forall i | 0 <= i < |xs| ensures PyOf(xs[i]) == PyAt(Keys(xs), t)[i] {
      assert InputNode(xs[i]) == t[xs[i].path];
    }
  }

  lemma PyKept(fs: Fs, xs: seq<TarInput>, s: set<Path>)
    requires Covers(fs, xs, s) && Archivable(fs, s)
    ensures OkOnly(PyFinish(PyOfAll(xs))) == OkOnly(TarBytes(FsTree(fs, s)))
  {
    var t := FsTree(fs, s);
    PyListingAt(fs, xs, s);
    PySortedAt(Keys(xs), t);
    PySerializeAt(Sort(Keys(xs)), t);
    SortIsSortedOf(Keys(xs), t.Keys);
  }

  lemma PyFromWalk(fs: Fs, excluded: set<Path>)
    ensures CanonicalTar(fs, excluded) == match Walk(fs, ByName(excluded), [])
                                          case Err(e) => Err(PyWalking(e))
                                          case Ok(xs) => PyFinish(PyOfAll(xs))
  {
    PyWalkAgrees(fs, excluded, []);
  }

  lemma KeptIsFsTree(fs: Fs, o: Options)
    ensures FsTree(fs, KeptSet(fs, o)) == KeptTree(fs, o)
  {
  }

  /** canonical_tar fails on links and special files; otherwise it writes the archive of what is kept. */
  lemma PyArchive(fs: Fs, excluded: set<Path>)
    requires ProperFs(fs)
    ensures OkOnly(CanonicalTar(fs, excluded))
         == if AllPlain(fs, ByName(excluded)) then OkOnly(TarBytes(KeptTree(fs, ByName(excluded)))) else None
  {
    var o := ByName(excluded);
    var walk := Walk(fs, o, []);
    WalkListsKept(fs, o);
    PyFromWalk(fs, excluded);
    if AllPlain(fs, o) {
      PyKept(fs, walk.value, KeptSet(fs, o));
      KeptIsFsTree(fs, o);
    }
  }

  // ---------------------------------------------------------------- main result

  /** Which directories digest.py archives: nothing kept is a link, a special file or beyond the header. */
  lemma PyAccepts(fs: Fs, excluded: set<Path>)
    requires ProperFs(fs)
    ensures CanonicalTar(fs, excluded).Ok? <==> AllPlain(fs, ByName(excluded)) && AllEncodable(fs, ByName(excluded))
  {
    PyArchive(fs, excluded);
    KeptTreeAccepts(fs, ByName(excluded));
  }

  /**
   * The two writers give the same outcome on a directory, bytes or failure, exactly when both have a
   * reason to fail (a kept place is a link or a special file, or its entry is not ASCII, does not fit
   * the 100 and 155 bytes of the name fields, or has 8^11 bytes or more), or no kept path holds a
   * backslash or starts with a drive letter: those names tar.ts refuses and digest.py archives.
   */
  lemma WritersAgree(fs: Fs, excluded: set<Path>)
    requires ProperFs(fs)
    ensures OkOnly(CanonicalTarOfDir(fs, ByName(excluded))) == OkOnly(CanonicalTar(fs, excluded))
       <==> !AllPlain(fs, ByName(excluded)) || !AllEncodable(fs, ByName(excluded)) || AllPortable(fs, ByName(excluded))
  {
    DirArchive(fs, ByName(excluded));
    PyArchive(fs, excluded);
    PyAccepts(fs, excluded);
  }

  const ODD_NAME: Path := [97, BACKSLASH, 98]
  const ODD_DIR: Fs := map[ODD_NAME := FsFile([], false)]

  lemma OddKept()
    ensures ProperFs(ODD_DIR) && AllPlain(ODD_DIR, ByName({})) && !AllPortable(ODD_DIR, ByName({}))
    ensures KeptTree(ODD_DIR, ByName({})) == map[ODD_NAME := File([], false)]
  {
    SplitNoSlash(ODD_NAME);
    forall a | Within(a, ODD_NAME) ensures a == ODD_NAME { assert SLASH !in ODD_NAME; }
    assert Kept(ODD_DIR, ByName({}), ODD_NAME) && !Portable(ODD_NAME);
  }

  lemma OddArchive()
    ensures TarBytes(map[ODD_NAME := File([], false)]).Ok?
  {
    var t: Tree := map[ODD_NAME := File([], false)];
    assert t.Keys == {ODD_NAME};
    SortedUnique(SortedOf(t.Keys), [ODD_NAME]);
    HeaderAccepts(ODD_NAME, false, MODE_FILE, 0);
    assert Shift(ODD_NAME, []) == Ok((ODD_NAME, []));
    assert Serialize([ODD_NAME][1..], t) == Ok([]);
  }

  /** They do disagree: on a single file named a\\b. */
  lemma WritersDisagree()
    ensures ProperFs(ODD_DIR)
    ensures CanonicalTar(ODD_DIR, {}).Ok? && CanonicalTarOfDir(ODD_DIR, ByName({})).Err?
  {
    OddKept();
    OddArchive();
    PyArchive(ODD_DIR, {});
    DirArchive(ODD_DIR, ByName({}));
  }
}
