/** The deterministic archive writer: what tree a list of inputs denotes, and the bytes of a tree. */
module TarWriter {
  import opened Base
  import opened Lex
  import opened TarPath
  import opened TarHeader

  datatype Node = File(data: Bytes, executable: bool) | Dir

  /** A directory tree, flat: every file and directory below the root by its path. */
  type Tree = map<Path, Node>

  datatype TarInput =
    | FileInput(path: Path, data: Option<Bytes>, executable: bool)
    | DirInput(path: Path)
    | OtherInput(path: Path)

  datatype TarError =
    | BadPath(why: PathError)
    | DuplicateEntry
    | NoData
    | BadType
    | FileAndDirectory
    | BadHeader(reason: HeaderError)

  // ---------------------------------------------------------------- the tree of an input list

  /** The first pass: normalise each path, reject duplicates except repeated directories. */
  function Collect(inputs: seq<TarInput>, m: Tree): Result<Tree, TarError> {
    if inputs == [] then Ok(m)
    else
      var e := inputs[0];
      match NormalizeTarPath(e.path)
      case Err(why) => Err(BadPath(why))
      case Ok(p) =>
        if p in m then
          if m[p].Dir? && e.DirInput? then Collect(inputs[1..], m) else Err(DuplicateEntry)
        else match e
          case FileInput(_, None, _) => Err(NoData)
          case FileInput(_, Some(data), x) => Collect(inputs[1..], m[p := File(data, x)])
          case DirInput(_) => Collect(inputs[1..], m[p := Dir])
          case OtherInput(_) => Err(BadType)
  }

  /** Some file sits where a directory is needed. */
  ghost predicate FileAsParent(m: Tree) {
    exists a, p :: a in m && p in m && m[a].File? && IsAncestor(a, p)
  }

  ghost function Ancestors(keys: set<Path>): set<Path> {
    set p, i | p in keys && 0 < i < |p| && p[i] == SLASH :: p[..i]
  }

  lemma AncestorsMember(keys: set<Path>, a: Path)
    ensures a in Ancestors(keys) <==> exists p :: p in keys && IsAncestor(a, p)
  {
    if p :| p in keys && IsAncestor(a, p) { assert p[..|a|] == a; }
  }

  /** The second pass: implied parent directories are added. */
  ghost function Close(m: Tree): Tree {
    map p | p in m.Keys + Ancestors(m.Keys) :: if p in m then m[p] else Dir
  }

  // ---------------------------------------------------------------- the bytes of a tree

  function EntryName(p: Path, n: Node): Path {
    if n.Dir? then p + [SLASH] else p
  }

  function EntryMode(n: Node): nat {
    if n.Dir? || n.executable then MODE_EXEC else MODE_FILE
  }

  function EntryData(n: Node): Bytes {
    if n.Dir? then [] else n.data
  }

  function EntryHeader(p: Path, n: Node): Result<Bytes, HeaderError> {
    Header(EntryName(p, n), n.Dir?, EntryMode(n), |EntryData(n)|)
  }

  function PaddedData(data: Bytes): (r: Bytes)
    ensures |r| == Padded(|data|) && r[..|data|] == data
  {
    data + Zeros(Padded(|data|) - |data|)
  }

  /** One header and padded body per entry, in order; the first unencodable entry is an error. */
  function Serialize(order: seq<Path>, t: Tree): Result<Bytes, HeaderError>
    requires forall p :: p in order ==> p in t
  {
    if order == [] then Ok([])
    else
      var p := order[0];
      match EntryHeader(p, t[p])
      case Err(e) => Err(e)
      case Ok(h) =>
        match Serialize(order[1..], t)
        case Err(e) => Err(e)
        case Ok(rest) => Ok(h + PaddedData(EntryData(t[p])) + rest)
  }

  const END_OF_ARCHIVE: Bytes := Zeros(2 * BLOCK)

  /** The canonical archive of a tree. */
  ghost function TarBytes(t: Tree): Result<Bytes, HeaderError> {
    match Serialize(SortedOf(t.Keys), t)
    case Err(e) => Err(e)
    case Ok(body) => Ok(body + END_OF_ARCHIVE)
  }

  /** What the writer returns. */
  ghost function WriteTar(inputs: seq<TarInput>): Result<Bytes, TarError> {
    match Collect(inputs, map[])
    case Err(e) => Err(e)
    case Ok(m) =>
      if FileAsParent(m) then Err(FileAndDirectory)
      else match TarBytes(Close(m))
        case Err(e) => Err(BadHeader(e))
        case Ok(b) => Ok(b)
  }

  // ---------------------------------------------------------------- the writer as a program

  method CollectInputs(inputs: seq<TarInput>) returns (r: Result<Tree, TarError>, keys: seq<Path>)
    ensures r == Collect(inputs, map[])
    ensures r.Ok? ==> Lists(keys, r.value)
  {
    var m: Tree := map[];
    keys := [];
    for k := 0 to |inputs|
      invariant Collect(inputs, map[]) == Collect(inputs[k..], m)
      invariant Lists(keys, m)
    {
      var e := inputs[k];
      assert inputs[k..][1..] == inputs[k + 1..];
      var np := NormalizeTarPath(e.path);
      if np.Err? { return Err(BadPath(np.error)), keys; }
      var p := np.value;
      if p in m {
        if !(m[p].Dir? && e.DirInput?) { return Err(DuplicateEntry), keys; }
      } else {
        match e {
          case FileInput(_, None, _) => return Err(NoData), keys;
          case FileInput(_, Some(data), x) => m := m[p := File(data, x)];
          case DirInput(_) => m := m[p := Dir];
          case OtherInput(_) => return Err(BadType), keys;
        }
        keys := keys + [p];
      }
    }
    return Ok(m), keys;
  }

  lemma {:induction false} CollectSafe(inputs: seq<TarInput>, m: Tree)
    requires forall p :: p in m ==> Safe(p)
    requires Collect(inputs, m).Ok?
    ensures forall p :: p in Collect(inputs, m).value ==> Safe(p)
  {
    if inputs != [] {
      var e := inputs[0];
      var p := NormalizeTarPath(e.path).value;
      NormalizeExactly(e.path, p);
      match e {
        case FileInput(_, Some(data), x) => if p !in m { CollectSafe(inputs[1..], m[p := File(data, x)]); }
        case DirInput(_) => CollectSafe(inputs[1..], if p in m then m else m[p := Dir]);
        case _ =>
      }
    }
  }

  /** `keys` lists the keys of `m`, each once: the insertion-ordered view of a map. */
  ghost predicate Lists(keys: seq<Path>, m: Tree) {
    Distinct(keys) && forall p :: p in keys <==> p in m
  }

  lemma ListsAppend(keys: seq<Path>, m: Tree, p: Path, n: Node)
    requires Lists(keys, m) && p !in m
    ensures Lists(keys + [p], m[p := n])
  {
    assert p !in keys;
  }

  /** `c` is `m` with the directories `added`, none of which `m` has as a file. */
  ghost predicate ClosedWith(m: Tree, c: Tree, added: set<Path>) {
    && c.Keys == m.Keys + added
    && (forall p :: p in c ==> c[p] == if p in m then m[p] else Dir)
    && (forall p :: p in m && p in added ==> m[p].Dir?)
  }

  lemma ClosedWithOneMore(m: Tree, c: Tree, added: set<Path>, a: Path)
    requires ClosedWith(m, c, added)
    requires a in c ==> c[a].Dir?
    ensures ClosedWith(m, if a in c then c else c[a := Dir], added + {a})
  {
  }

  ghost function Prefixes(segs: seq<Path>, i: nat): set<Path>
    requires i <= |segs| + 1
  {
    set l | 0 < l < i :: Join(segs[..l])
  }

  lemma PrefixesNext(segs: seq<Path>, i: nat)
    requires 0 < i <= |segs|
    ensures Prefixes(segs, i + 1) == Prefixes(segs, i) + {Join(segs[..i])}
  {
  }

  lemma AncestorsUnion(a: set<Path>, b: set<Path>)
    ensures Ancestors(a + b) == Ancestors(a) + Ancestors(b)
  {
  }

  lemma PrefixesAreAncestors(p: Path)
    requires Safe(p)
    ensures Prefixes(Split(p), |Split(p)|) == Ancestors({p})
  {
    forall a ensures a in Prefixes(Split(p), |Split(p)|) <==> a in Ancestors({p}) {
      AncestorsMember({p}, a);
      AncestorsAreSegmentPrefixes(p, a);
    }
  }

  /** Adds the parents of one path, or finds one of them to be a file. */
  method AddParentsOf(m: Tree, c0: Tree, all0: seq<Path>, p: Path, ghost added: set<Path>)
    returns (ok: bool, c: Tree, all: seq<Path>)
    requires ClosedWith(m, c0, added) && p in m && Safe(p)
    requires Lists(all0, c0)
    ensures !ok ==> FileAsParent(m)
    ensures ok ==> ClosedWith(m, c, added + Ancestors({p})) && Lists(all, c)
  {
    c, all := c0, all0;
    var segs := Split(p);
    assert added + Prefixes(segs, 1) == added;
    for i := 1 to |segs|
      invariant ClosedWith(m, c, added + Prefixes(segs, i))
      invariant Lists(all, c)
    {
      var parent := Join(segs[..i]);
      AncestorsAreSegmentPrefixes(p, parent);
      if parent in c && !c[parent].Dir? { return false, c, all; }
      ClosedWithOneMore(m, c, added + Prefixes(segs, i), parent);
      PrefixesNext(segs, i);
      assert added + Prefixes(segs, i + 1) == added + Prefixes(segs, i) + {parent};
      if parent !in c {
        ListsAppend(all, c, parent, Dir);
        c := c[parent := Dir];
        all := all + [parent];
      }
    }
    PrefixesAreAncestors(p);
    ok := true;
  }

  /** Adds all implied parents, or reports a file used as a directory. */
  method AddParents(m: Tree, keys: seq<Path>) returns (ok: bool, c: Tree, all: seq<Path>)
    requires Lists(keys, m)
    requires forall p :: p in m ==> Safe(p)
    ensures ok <==> !FileAsParent(m)
    ensures ok ==> c == Close(m) && Lists(all, c)
  {
    c, all := m, keys;
    for k := 0 to |keys|
      invariant ClosedWith(m, c, Ancestors(Elems(keys[..k])))
      invariant Lists(all, c)
    {
      assert keys[k] in m;
      ok, c, all := AddParentsOf(m, c, all, keys[k], Ancestors(Elems(keys[..k])));
      if !ok { return; }
      assert Elems(keys[..k + 1]) == Elems(keys[..k]) + {keys[k]};
      AncestorsUnion(Elems(keys[..k]), {keys[k]});
    }
    assert Elems(keys[..|keys|]) == m.Keys;
    CloseIsClosedWith(m, c);
    ok := true;
  }

  lemma CloseIsClosedWith(m: Tree, c: Tree)
    requires ClosedWith(m, c, Ancestors(m.Keys))
    ensures c == Close(m) && !FileAsParent(m)
  {
    if a, p :| a in m && p in m && m[a].File? && IsAncestor(a, p) {
      AncestorsMember(m.Keys, a);
    }
  }

  function Then(done: Bytes, rest: Result<Bytes, HeaderError>): Result<Bytes, HeaderError> {
    match rest
    case Err(e) => Err(e)
    case Ok(b) => Ok(done + b)
  }

  lemma ThenNothing(rest: Result<Bytes, HeaderError>)
    ensures Then([], rest) == rest
  {
    if rest.Ok? { assert [] + rest.value == rest.value; }
  }

  lemma SerializeNext(order: seq<Path>, t: Tree, k: nat, done: Bytes)
    requires k < |order| && forall p :: p in order ==> p in t
    ensures match EntryHeader(order[k], t[order[k]])
            case Err(e) => Then(done, Serialize(order[k..], t)) == Err(e)
            case Ok(h) => Then(done, Serialize(order[k..], t))
                          == Then(done + h + PaddedData(EntryData(t[order[k]])), Serialize(order[k + 1..], t))
  {
    assert order[k..][1..] == order[k + 1..];
    var e := EntryHeader(order[k], t[order[k]]);
    var rest := Serialize(order[k + 1..], t);
    if e.Ok? && rest.Ok? {
      var d := PaddedData(EntryData(t[order[k]]));
      assert done + (e.value + d + rest.value) == done + e.value + d + rest.value;
    }
  }

  lemma FlattenPush(chunks: seq<Bytes>, c: Bytes)
    ensures Flatten(chunks + [c]) == Flatten(chunks) + c
  {
    FlattenAppend(chunks, [c]);
    assert Flatten([c]) == c + Flatten([][..]);
  }

  /** Pushes one entry: its header, and its padded body when there is one. */
  method PushEntry(p: Path, n: Node, chunks: seq<Bytes>, total: nat)
    returns (error: Option<HeaderError>, chunks': seq<Bytes>, total': nat)
    requires total == |Flatten(chunks)|
    ensures error.Some? ==> EntryHeader(p, n) == Err(error.value)
    ensures error.None? ==> EntryHeader(p, n).Ok? && total' == |Flatten(chunks')|
                            && Flatten(chunks') == Flatten(chunks) + EntryHeader(p, n).value + PaddedData(EntryData(n))
  {
    var header := EncodeHeader(EntryName(p, n), n.Dir?, EntryMode(n), |EntryData(n)|);
    if header.Err? { return Some(header.error), chunks, total; }
    FlattenPush(chunks, header.value);
    chunks' := chunks + [header.value];
    total' := total + BLOCK;
    error := None;
    if n.File? && |n.data| > 0 {
      FlattenPush(chunks', PaddedData(n.data));
      chunks' := chunks' + [PaddedData(n.data)];
      total' := total' + |PaddedData(n.data)|;
    }
  }

  /** Headers and padded bodies as a list of chunks, with their total length. */
  method Chunks(order: seq<Path>, t: Tree) returns (r: Result<seq<Bytes>, HeaderError>, total: nat)
    requires forall p :: p in order ==> p in t
    ensures r.Err? ==> Serialize(order, t) == Err(r.error)
    ensures r.Ok? ==> Serialize(order, t) == Ok(Flatten(r.value)) && total == |Flatten(r.value)|
  {
    var chunks: seq<Bytes> := [];
    total := 0;
    assert order[0..] == order;
    ThenNothing(Serialize(order, t));
    for k := 0 to |order|
      invariant total == |Flatten(chunks)|
      invariant Serialize(order, t) == Then(Flatten(chunks), Serialize(order[k..], t))
    {
      SerializeNext(order, t, k, Flatten(chunks));
      var error;
      error, chunks, total := PushEntry(order[k], t[order[k]], chunks, total);
      if error.Some? { return Err(error.value), total; }
    }
    assert order[|order|..] == [];
    assert Flatten(chunks) + [] == Flatten(chunks);
    r := Ok(chunks);
  }

  /** Copies the chunks into one buffer of the computed length, the end marker left zero. */
  method Assemble(chunks: seq<Bytes>, total: nat) returns (bytes: Bytes)
    requires total == |Flatten(chunks)|
    ensures bytes == Flatten(chunks) + END_OF_ARCHIVE
  {
    var out := new byte[total + 2 * BLOCK](_ => 0);
    var off: nat := 0;
    assert chunks[0..] == chunks;
    for k := 0 to |chunks|
      invariant off + |Flatten(chunks[k..])| == total && out.Length == total + 2 * BLOCK
      invariant out[..] == out[..off] + Zeros(out.Length - off)
      invariant out[..off] + Flatten(chunks[k..]) == Flatten(chunks)
    {
      var c := chunks[k];
      assert chunks[k..][1..] == chunks[k + 1..];
      ghost var done := out[..off];
      Put(out, off, c);
      assert out[..off + |c|] == done + c;
      assert out[..] == done + c + Zeros(out.Length - off - |c|);
      assert done + (c + Flatten(chunks[k + 1..])) == done + c + Flatten(chunks[k + 1..]);
      off := off + |c|;
    }
    assert chunks[|chunks|..] == [];
    return out[..];
  }

  method WriteTarProgram(inputs: seq<TarInput>) returns (r: Result<Bytes, TarError>)
    ensures r == WriteTar(inputs)
  {
    var collected, keys := CollectInputs(inputs);
    if collected.Err? { return Err(collected.error); }
    var m := collected.value;
    CollectSafe(inputs, map[]);
    var ok, closed, all := AddParents(m, keys);
    if !ok { return Err(FileAndDirectory); }
    SortIsSortedOf(all, closed.Keys);
    var sorted := Sort(all);
    assert forall p :: p in sorted ==> p in closed;
    var chunks, total := Chunks(sorted, closed);
    if chunks.Err? { return Err(BadHeader(chunks.error)); }
    var bytes := Assemble(chunks.value, total);
    return Ok(bytes);
  }
}
