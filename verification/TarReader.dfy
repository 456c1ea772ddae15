/** The strict in-memory archive reader. */
module TarReader {
  import opened Base
  import opened Lex
  import opened TarPath
  import opened TarHeader

  datatype Entry = Entry(path: Path, isDir: bool, mode: nat, data: Bytes)

  datatype ReadError =
    | NotUstar
    | BadChecksum
    | BadSize
    | LinkRejected
    | ExtensionRejected
    | UnsupportedType
    | BadEntryPath(why: PathError)
    | DuplicatePath
    | TruncatedData
    | MissingEnd
    | FileIsParent

  /** True for a directory, false for a regular (or contiguous) file. */
  function KindOf(flag: byte): Result<bool, ReadError> {
    if flag == 0x30 || flag == 0 || flag == 0x37 then Ok(false)
    else if flag == 0x35 then Ok(true)
    else if flag == 0x31 || flag == 0x32 then Err(LinkRejected)
    else if flag == 0x78 || flag == 0x67 || flag == 0x4B || flag == 0x4C then Err(ExtensionRejected)
    else Err(UnsupportedType)
  }

  predicate ZeroBlock(h: Bytes) {
    forall i :: 0 <= i < |h| ==> h[i] == 0
  }

  /** One header: the entry without its data, and how many data bytes follow. */
  function ReadHeader(h: Bytes, seen: set<Path>): Result<(Entry, nat), ReadError>
    requires |h| == BLOCK
  {
    if !HasMagic(h) then Err(NotUstar)
    else if !ChecksumOk(h) then Err(BadChecksum)
    else
      var d := Decode(h);
      if d.size.None? then Err(BadSize)
      else match KindOf(d.flag)
        case Err(e) => Err(e)
        case Ok(isDir) =>
          match NormalizeTarPath(d.name)
          case Err(why) => Err(BadEntryPath(why))
          case Ok(p) =>
            if p in seen then Err(DuplicatePath)
            else Ok((Entry(p, isDir, if d.mode.Some? then d.mode.value % MODE_MASK else 0, []),
                     if isDir then 0 else d.size.value))
  }

  function Prepend(e: Entry, rest: Result<seq<Entry>, ReadError>): Result<seq<Entry>, ReadError> {
    match rest
    case Err(x) => Err(x)
    case Ok(es) => Ok([e] + es)
  }

  datatype Step = End | Fail(error: ReadError) | More(entry: Entry, used: nat)

  /** The first header of `rest` and its data: an entry and how many bytes it takes up. */
  function FirstStep(rest: Bytes, seen: set<Path>): (s: Step)
    requires |rest| >= BLOCK
    ensures s.More? ==> s.used > 0
  {
    var h := rest[..BLOCK];
    if ZeroBlock(h) then End
    else match ReadHeader(h, seen)
      case Err(x) => Fail(x)
      case Ok((e, size)) =>
        if BLOCK + size > |rest| then Fail(TruncatedData)
        else More(e.(data := rest[BLOCK..BLOCK + size]), BLOCK + Padded(size))
  }

  function Drop(bytes: Bytes, n: nat): Bytes {
    if n <= |bytes| then bytes[n..] else []
  }

  /** The entries up to the first zero block. */
  function ReadEntries(rest: Bytes, seen: set<Path>): Result<seq<Entry>, ReadError>
    decreases |rest|
  {
    if |rest| < BLOCK then Err(MissingEnd)
    else match FirstStep(rest, seen)
      case End => Ok([])
      case Fail(x) => Err(x)
      case More(e, used) => Prepend(e, ReadEntries(Drop(rest, used), seen + {e.path}))
  }

  /** A file sits where some entry needs a directory. */
  ghost predicate FileAboveEntry(es: seq<Entry>) {
    exists i, j :: 0 <= i < |es| && 0 <= j < |es| && !es[i].isDir && IsAncestor(es[i].path, es[j].path)
  }

  ghost function ReadTar(bytes: Bytes): Result<seq<Entry>, ReadError> {
    match ReadEntries(bytes, {})
    case Err(x) => Err(x)
    case Ok(es) => if FileAboveEntry(es) then Err(FileIsParent) else Ok(es)
  }

  // ---------------------------------------------------------------- the reader as a program

  function PrependAll(done: seq<Entry>, rest: Result<seq<Entry>, ReadError>): Result<seq<Entry>, ReadError> {
    match rest
    case Err(x) => Err(x)
    case Ok(es) => Ok(done + es)
  }

  lemma PrependAllNext(done: seq<Entry>, e: Entry, rest: Result<seq<Entry>, ReadError>)
    ensures PrependAll(done, Prepend(e, rest)) == PrependAll(done + [e], rest)
  {
    if rest.Ok? { assert done + ([e] + rest.value) == done + [e] + rest.value; }
  }

  lemma PrependAllNothing(rest: Result<seq<Entry>, ReadError>)
    ensures PrependAll([], rest) == rest
  {
    if rest.Ok? { assert [] + rest.value == rest.value; }
  }

  method ReadOne(bytes: Bytes, off: nat, seen: set<Path>) returns (s: Step)
    requires off + BLOCK <= |bytes|
    ensures s == FirstStep(Drop(bytes, off), seen)
  {
    var h := bytes[off..off + BLOCK];
    ghost var rest := Drop(bytes, off);
    assert rest[..BLOCK] == h;
    if ZeroBlock(h) { return End; }
    var hdr := ReadHeader(h, seen);
    if hdr.Err? { return Fail(hdr.error); }
    var e, size := hdr.value.0, hdr.value.1;
    var dataStart := off + BLOCK;
    if dataStart + size > |bytes| { return Fail(TruncatedData); }
    assert rest[BLOCK..BLOCK + size] == bytes[dataStart..dataStart + size];
    return More(e.(data := bytes[dataStart..dataStart + size]), BLOCK + Padded(size));
  }

  method ReadBlocks(bytes: Bytes) returns (r: Result<seq<Entry>, ReadError>)
    ensures r == ReadEntries(bytes, {})
  {
    var entries: seq<Entry> := [];
    var seen: set<Path> := {};
    var off: nat := 0;
    PrependAllNothing(ReadEntries(bytes, {}));
    assert Drop(bytes, 0) == bytes;
    while off + BLOCK <= |bytes|
      invariant ReadEntries(bytes, {}) == PrependAll(entries, ReadEntries(Drop(bytes, off), seen))
      decreases |bytes| - off
    {
      var step := Advance(bytes, off, seen, entries);
      match step {
        case End => return Ok(entries);
        case Fail(x) => return Err(x);
        case More(e, used) =>
          seen := seen + {e.path};
          entries := entries + [e];
          off := off + used;
      }
    }
    return Err(MissingEnd);
  }

  /** One step on; the rest of the entries is what reading on from there gives. */
  method Advance(bytes: Bytes, off: nat, seen: set<Path>, ghost done: seq<Entry>) returns (s: Step)
    requires off + BLOCK <= |bytes|
    ensures s.More? ==> s.used > 0
    ensures PrependAll(done, ReadEntries(Drop(bytes, off), seen)) == Continue(s, done, Next(s, bytes, off, seen))
  {
    s := ReadOne(bytes, off, seen);
    ReadOn(bytes, off, seen, s);
    StepThenRest(done, s, Next(s, bytes, off, seen));
  }

  function Next(s: Step, bytes: Bytes, off: nat, seen: set<Path>): Result<seq<Entry>, ReadError> {
    if s.More? then ReadEntries(Drop(bytes, off + s.used), seen + {s.entry.path}) else Err(MissingEnd)
  }

  /** ReadEntries in terms of its first step, and the same behind what was read before. */
  function FromStep(s: Step, next: Result<seq<Entry>, ReadError>): Result<seq<Entry>, ReadError> {
    match s
    case End => Ok([])
    case Fail(x) => Err(x)
    case More(e, _) => Prepend(e, next)
  }

  function Continue(s: Step, done: seq<Entry>, next: Result<seq<Entry>, ReadError>): Result<seq<Entry>, ReadError> {
    match s
    case End => Ok(done)
    case Fail(x) => Err(x)
    case More(e, _) => PrependAll(done + [e], next)
  }

  lemma ReadOn(bytes: Bytes, off: nat, seen: set<Path>, s: Step)
    requires off + BLOCK <= |bytes| && s == FirstStep(Drop(bytes, off), seen)
    ensures ReadEntries(Drop(bytes, off), seen) == FromStep(s, Next(s, bytes, off, seen))
  {
    if s.More? { assert Drop(Drop(bytes, off), s.used) == Drop(bytes, off + s.used); }
  }

  lemma StepThenRest(done: seq<Entry>, s: Step, next: Result<seq<Entry>, ReadError>)
    ensures PrependAll(done, FromStep(s, next)) == Continue(s, done, next)
  {
    match s
    case End => assert done + [] == done;
    case Fail(x) =>
    case More(e, _) => PrependAllNext(done, e, next);
  }

  /** Looks every segment-wise prefix of every entry up among the entries. */
  method HasFileAbove(es: seq<Entry>) returns (found: bool)
    requires forall i :: 0 <= i < |es| ==> Safe(es[i].path)
    requires forall i, j :: 0 <= i < j < |es| ==> es[i].path != es[j].path
    ensures found <==> FileAboveEntry(es)
  {
    var types := KindsByPath(es);
    for j := 0 to |es|
      invariant forall l :: 0 <= l < j ==> !FileAbove(types, es[l].path)
    {
      var above := FindFileAbove(types, es[j].path);
      if above {
        AboveIsEntry(es, types, j);
        return true;
      }
    }
    NothingAbove(es, types);
    return false;
  }

  ghost predicate Kinds(es: seq<Entry>, types: map<Path, bool>) {
    && (forall i :: 0 <= i < |es| ==> es[i].path in types && types[es[i].path] == es[i].isDir)
    && forall a :: a in types ==> exists i :: 0 <= i < |es| && es[i].path == a
  }

  function KindsByPath(es: seq<Entry>): (types: map<Path, bool>)
    requires forall i, j :: 0 <= i < j < |es| ==> es[i].path != es[j].path
    ensures Kinds(es, types)
  {
    map i | 0 <= i < |es| :: es[i].path := es[i].isDir
  }

  lemma AboveIsEntry(es: seq<Entry>, types: map<Path, bool>, j: nat)
    requires Kinds(es, types) && j < |es| && FileAbove(types, es[j].path)
    ensures FileAboveEntry(es)
  {
    var a :| a in types && !types[a] && IsAncestor(a, es[j].path);
    var i :| 0 <= i < |es| && es[i].path == a;
    assert !es[i].isDir && IsAncestor(es[i].path, es[j].path);
  }

  lemma NothingAbove(es: seq<Entry>, types: map<Path, bool>)
    requires Kinds(es, types) && forall l :: 0 <= l < |es| ==> !FileAbove(types, es[l].path)
    ensures !FileAboveEntry(es)
  {
    if FileAboveEntry(es) {
      var l := EntryIsAbove(es, types);
    }
  }

  lemma EntryIsAbove(es: seq<Entry>, types: map<Path, bool>) returns (l: nat)
    requires Kinds(es, types) && FileAboveEntry(es)
    ensures l < |es| && FileAbove(types, es[l].path)
  {
    var i, j :| 0 <= i < |es| && 0 <= j < |es| && !es[i].isDir && IsAncestor(es[i].path, es[j].path);
    assert es[i].path in types && !types[es[i].path];
    l := j;
  }

  /** Some file among the entries is an ancestor of `p`. */
  ghost predicate FileAbove(types: map<Path, bool>, p: Path) {
    exists a :: a in types && !types[a] && IsAncestor(a, p)
  }

  method FindFileAbove(types: map<Path, bool>, p: Path) returns (found: bool)
    requires Safe(p)
    ensures found <==> FileAbove(types, p)
  {
    var segs := Split(p);
    for k := 1 to |segs|
      invariant forall l :: 0 < l < k ==> !(Join(segs[..l]) in types && !types[Join(segs[..l])])
    {
      var parent := Join(segs[..k]);
      if parent in types && !types[parent] {
        AncestorsAreSegmentPrefixes(p, parent);
        assert parent == Join(Split(p)[..k]) && IsAncestor(parent, p);
        return true;
      }
    }
    forall a | a in types && !types[a] ensures !IsAncestor(a, p) {
      AncestorsAreSegmentPrefixes(p, a);
      assert forall l :: 0 < l < |segs| ==> a != Join(segs[..l]);
    }
    return false;
  }

  ghost predicate GoodEntry(e: Entry, seen: set<Path>) {
    Safe(e.path) && e.path !in seen && (e.isDir ==> e.data == []) && e.mode < MODE_MASK
  }

  lemma FirstStepGood(rest: Bytes, seen: set<Path>)
    requires |rest| >= BLOCK && FirstStep(rest, seen).More?
    ensures GoodEntry(FirstStep(rest, seen).entry, seen)
  {
    NormalizeExactly(Decode(rest[..BLOCK]).name, FirstStep(rest, seen).entry.path);
  }

  /** Every path the reader returns is safe, and no path is returned twice. */
  ghost predicate GoodEntries(es: seq<Entry>, seen: set<Path>) {
    && (forall i :: 0 <= i < |es| ==> GoodEntry(es[i], seen))
    && (forall i, j :: 0 <= i < j < |es| ==> es[i].path != es[j].path)
  }

  lemma GoodEntriesCons(e: Entry, es: seq<Entry>, seen: set<Path>)
    requires GoodEntry(e, seen) && GoodEntries(es, seen + {e.path})
    ensures GoodEntries([e] + es, seen)
  {
    forall i | 0 <= i < |es| ensures GoodEntry(es[i], seen) && es[i].path != e.path {
      assert GoodEntry(es[i], seen + {e.path});
    }
  }

  lemma {:induction false} ReadPaths(rest: Bytes, seen: set<Path>)
    requires ReadEntries(rest, seen).Ok?
    ensures GoodEntries(ReadEntries(rest, seen).value, seen)
    decreases |rest|
  {
    match FirstStep(rest, seen) {
      case End =>
      case More(e, used) =>
        FirstStepGood(rest, seen);
        ReadPaths(Drop(rest, used), seen + {e.path});
        GoodEntriesCons(e, ReadEntries(Drop(rest, used), seen + {e.path}).value, seen);
    }
  }

  method ReadTarProgram(bytes: Bytes) returns (r: Result<seq<Entry>, ReadError>)
    ensures r == ReadTar(bytes)
  {
    r := ReadBlocks(bytes);
    if r.Err? { return; }
    ReadPaths(bytes, {});
    assert forall i :: 0 <= i < |r.value| ==> GoodEntry(r.value[i], {});
    var bad := HasFileAbove(r.value);
    if bad { return Err(FileIsParent); }
  }
}
