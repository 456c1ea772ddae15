/**
 * Directory archives: what canonicalTarOfDir writes, when the two archive writers agree, and
 * extraction as the inverse of archiving.
 */
module TarDirLaws {
  import opened Base
  import opened Lex
  import opened TarPath
  import opened TarHeader
  import opened TarWriter
  import opened TarReader
  import opened TarLaws
  import opened TarDir

  // ---------------------------------------------------------------- archiving a directory

  datatype DirTarError = Walking(reason: DirError) | Writing(why: TarError)

  /** tar.ts: walk, then write. */
  ghost function CanonicalTarOfDir(fs: Fs, o: Options): Result<Bytes, DirTarError> {
    match Walk(fs, o, [])
    case Err(e) => Err(Walking(e))
    case Ok(inputs) =>
      match WriteTar(inputs)
      case Err(e) => Err(Writing(e))
      case Ok(b) => Ok(b)
  }

  /** An entry is archived when neither it nor any directory above it is excluded. */
  ghost predicate Kept(fs: Fs, o: Options, p: Path) {
    p in fs && forall a :: Within(a, p) && a != [] ==> a in fs && !ExcludedAt(fs, o, a)
  }

  function NodeOfFs(n: FsNode): Node {
    match n
    case FsFile(data, x) => File(data, x)
    case _ => Dir
  }

  ghost function KeptTree(fs: Fs, o: Options): Tree {
    map p | p in fs && Kept(fs, o, p) :: NodeOfFs(fs[p])
  }

  /**
   * What is archived of a directory: each place that is neither excluded by its own name or path nor
   * below one that is; a file with its contents and execute bit.
   */
  lemma KeptExactly(fs: Fs, o: Options, p: Path)
    ensures p in KeptTree(fs, o)
       <==> p in fs && forall a :: a != [] && (a == p || IsAncestor(a, p)) ==>
              a in fs && BaseName(a) !in o.names && !o.exclude(a, fs[a].FsDir?)
    ensures p in KeptTree(fs, o) ==>
              KeptTree(fs, o)[p] == if fs[p].FsFile? then File(fs[p].data, fs[p].executable) else Dir
  {
    var t := KeptTree(fs, o);
    assert p in t <==> p in fs && Kept(fs, o, p);
    assert forall a :: Within(a, p) <==> a == p || IsAncestor(a, p);
  }

  lemma KeptFromRoot(fs: Fs, o: Options, p: Path)
    requires ProperFs(fs)
    ensures p in KeptBelow(fs, o, []) <==> p in fs && Kept(fs, o, p)
  {
    if p in fs {
      TowardFacts(fs, [], p);
      var t := Toward([], p);
      forall a | Within(a, p) && a != [] ensures Within(t, a) {
        assert a == p[..|a|] && t == p[..|t|];
        HeadWithin(fs, p, a);
      }
      assert t != [];
    }
  }

  lemma HeadWithin(fs: Fs, p: Path, a: Path)
    requires ProperFs(fs) && p in fs && Within(a, p) && a != []
    ensures Within(Toward([], p), a)
  {
    var t := Toward([], p);
    var i := FindSlash(p);
    assert p[0..] == p;
    assert t == p[..i];
    TowardFacts(fs, [], p);
    if a != p {
      assert p[|a|] == SLASH;
      if i < |a| { assert a[i] == SLASH && a[..i] == t; }
    }
  }

  lemma KeptTreeIsProper(fs: Fs, o: Options)
    requires ProperFs(fs) && forall p :: p in fs && Kept(fs, o, p) ==> Safe(p)
    ensures ProperTree(KeptTree(fs, o))
  {
    var t := KeptTree(fs, o);
    forall p, a | p in t && IsAncestor(a, p) ensures a in t && t[a].Dir? {
      forall b | Within(b, a) && b != [] ensures b in fs && !ExcludedAt(fs, o, b) {
        if b != a { AncestorTransitive(b, a, p); }
        assert Within(b, p);
      }
    }
  }

  function EntriesFor(inputs: seq<TarInput>): (es: seq<Entry>)
    ensures |es| == |inputs| && forall i :: 0 <= i < |es| ==> es[i] == EntryOf(inputs[i].path, InputNode(inputs[i]))
  {
    seq(|inputs|, i requires 0 <= i < |inputs| => EntryOf(inputs[i].path, InputNode(inputs[i])))
  }

  function FsTree(fs: Fs, s: set<Path>): Tree {
    map p | p in s && p in fs :: NodeOfFs(fs[p])
  }

  lemma CoveredEntries(fs: Fs, inputs: seq<TarInput>, s: set<Path>)
    requires Covers(fs, inputs, s) && Archivable(fs, s) && forall p :: p in s ==> Safe(p)
    ensures Inputs(EntriesFor(inputs)) == inputs && Fresh(EntriesFor(inputs), map[])
    ensures forall i :: 0 <= i < |inputs| ==> NodeOf(EntriesFor(inputs)[i]) == NodeOfFs(fs[inputs[i].path])
  {
    forall i | 0 <= i < |inputs| ensures InputOf(EntriesFor(inputs)[i]) == inputs[i]
                                  && NodeOf(EntriesFor(inputs)[i]) == NodeOfFs(fs[inputs[i].path]) {
      NodeOfEntry(inputs[i].path, InputNode(inputs[i]));
    }
  }

  /** A list that covers a set of safe paths is collected into exactly those nodes. */
  lemma CollectCovers(fs: Fs, inputs: seq<TarInput>, s: set<Path>)
    requires Covers(fs, inputs, s) && Archivable(fs, s) && forall p :: p in s ==> Safe(p)
    ensures Collect(inputs, map[]) == Ok(FsTree(fs, s))
  {
    var es := EntriesFor(inputs);
    CoveredEntries(fs, inputs, s);
    CollectDistinct(es, map[]);
    var c := AddAll(es, map[]);
    forall p ensures p in c <==> p in FsTree(fs, s) {
      AddAllMember(es, map[], p);
      CoveredBy(fs, inputs, s, p);
    }
    forall p | p in c ensures c[p] == FsTree(fs, s)[p] {
      AddAllValue(es, map[], p);
      CoveredBy(fs, inputs, s, p);
      var i :| 0 <= i < |inputs| && inputs[i].path == p;
      assert es[i].path == p;
    }
    assert c == FsTree(fs, s);
  }

  lemma CoveredBy(fs: Fs, inputs: seq<TarInput>, s: set<Path>, p: Path)
    requires Covers(fs, inputs, s)
    ensures p in s <==> exists i :: 0 <= i < |inputs| && inputs[i].path == p
    ensures p in s <==> exists i :: 0 <= i < |inputs| && EntriesFor(inputs)[i].path == p
  {
    if p in s {
      var i :| 0 <= i < |inputs| && inputs[i].path == p;
      assert EntriesFor(inputs)[i].path == p;
    }
  }

  /** The path checks that a name on disk can fail. */
  predicate Portable(p: Path) {
    BACKSLASH !in p && !HasDriveLetter(p)
  }

  lemma PortableIsSafe(fs: Fs, p: Path)
    requires ProperFs(fs) && p in fs
    ensures Safe(p) <==> Portable(p)
    ensures NormalizeTarPath(p).Ok? <==> Portable(p)
  {
    NoNul(p);
    if Safe(p) { NormalizeExactly(p, p); }
  }

  lemma {:induction false} NoNul(p: Path)
    requires forall s :: s in Split(p) ==> 0 !in s
    ensures 0 !in p
  {
    if p != [] {
      var rest := Split(p[1..]);
      assert p == [p[0]] + p[1..];
      if p[0] == SLASH {
        forall s | s in rest ensures 0 !in s { assert s in [[]] + rest; }
      } else {
        var segs := [[p[0]] + rest[0]] + rest[1..];
        assert segs[0] in segs;
        forall s | s in rest ensures 0 !in s {
          if s == rest[0] {
            assert forall c :: c in s ==> c in segs[0];
          } else {
            assert s in rest[1..];
            assert s in segs;
          }
        }
        assert p[0] in segs[0];
      }
      NoNul(p[1..]);
    }
  }

  lemma CollectRejects(fs: Fs, inputs: seq<TarInput>, s: set<Path>, bad: Path)
    requires Covers(fs, inputs, s) && bad in s && NormalizeTarPath(bad).Err?
    ensures Collect(inputs, map[]).Err?
  {
    var i :| 0 <= i < |inputs| && inputs[i].path == bad;
    CollectAccepts(inputs, map[]);
    assert inputs[i] in multiset(inputs);
  }

  // ---------------------------------------------------------------- main result for tar.ts

  ghost predicate AllPortable(fs: Fs, o: Options) {
    forall p :: p in fs && Kept(fs, o, p) ==> Portable(p)
  }

  ghost predicate AllPlain(fs: Fs, o: Options) {
    forall p :: p in fs && Kept(fs, o, p) ==> !fs[p].FsLink? && !fs[p].FsSpecial?
  }

  function OkOnly<E>(r: Result<Bytes, E>): Option<Bytes> {
    if r.Ok? then Some(r.value) else None
  }

  ghost function KeptSet(fs: Fs, o: Options): set<Path> {
    set p | p in fs && Kept(fs, o, p)
  }

  lemma WalkListsKept(fs: Fs, o: Options)
    requires ProperFs(fs)
    ensures Walk(fs, o, []).Ok? <==> AllPlain(fs, o)
    ensures AllPlain(fs, o) ==> Covers(fs, Walk(fs, o, []).value, KeptSet(fs, o)) && Archivable(fs, KeptSet(fs, o))
  {
    var s := KeptBelow(fs, o, []);
    WalkLists(fs, o, []);
    forall p ensures p in s <==> p in KeptSet(fs, o) { KeptFromRoot(fs, o, p); }
    assert s == KeptSet(fs, o);
  }

  lemma WriteKept(fs: Fs, o: Options, inputs: seq<TarInput>)
    requires ProperFs(fs) && AllPortable(fs, o)
    requires Covers(fs, inputs, KeptSet(fs, o)) && Archivable(fs, KeptSet(fs, o))
    ensures OkOnly(WriteTar(inputs)) == OkOnly(TarBytes(KeptTree(fs, o)))
  {
    forall p | p in KeptSet(fs, o) ensures Safe(p) { PortableIsSafe(fs, p); }
    CollectCovers(fs, inputs, KeptSet(fs, o));
    KeptTreeIsProper(fs, o);
    assert FsTree(fs, KeptSet(fs, o)) == KeptTree(fs, o);
    ProperTreeIsClosed(KeptTree(fs, o));
  }

  /**
   * canonicalTarOfDir fails when a link, a special file or an unportable name is not excluded;
   * otherwise it writes the canonical archive of everything kept.
   */
  lemma DirArchive(fs: Fs, o: Options)
    requires ProperFs(fs)
    ensures OkOnly(CanonicalTarOfDir(fs, o))
         == if AllPlain(fs, o) && AllPortable(fs, o) then OkOnly(TarBytes(KeptTree(fs, o))) else None
  {
    WalkListsKept(fs, o);
    if AllPlain(fs, o) {
      var inputs := Walk(fs, o, []).value;
      if AllPortable(fs, o) {
        WriteKept(fs, o, inputs);
      } else {
        var bad :| bad in fs && Kept(fs, o, bad) && !Portable(bad);
        PortableIsSafe(fs, bad);
        CollectRejects(fs, inputs, KeptSet(fs, o), bad);
      }
    }
  }

  ghost predicate AllEncodable(fs: Fs, o: Options) {
    forall p :: p in fs && Kept(fs, o, p) ==> Encodable(p, NodeOfFs(fs[p]))
  }

  lemma KeptTreeAccepts(fs: Fs, o: Options)
    requires ProperFs(fs)
    ensures TarBytes(KeptTree(fs, o)).Ok? <==> AllEncodable(fs, o)
  {
    var t := KeptTree(fs, o);
    forall p | p in t ensures p != [] && p[0] != SLASH {
      SplitHead(p);
      assert Split(p)[0] in Split(p);
    }
    TarBytesAccepts(t);
  }

  /** Which directories tar.ts archives. */
  lemma DirAccepts(fs: Fs, o: Options)
    requires ProperFs(fs)
    ensures CanonicalTarOfDir(fs, o).Ok? <==> AllPlain(fs, o) && AllPortable(fs, o) && AllEncodable(fs, o)
  {
    DirArchive(fs, o);
    KeptTreeAccepts(fs, o);
  }
}
