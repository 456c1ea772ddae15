/**
 * What the archive format is for: writing and reading are inverse, the bytes do not depend on the
 * order of the inputs, and re-serialisation recognises exactly the writer's own output.
 */
module TarLaws {
  import opened Base
  import opened Lex
  import opened TarPath
  import opened TarHeader
  import opened TarWriter
  import opened TarReader

  // ---------------------------------------------------------------- one entry

  /** What the reader reports for a node: kind, normalised mode, contents. */
  function EntryOf(p: Path, n: Node): Entry {
    Entry(p, n.Dir?, EntryMode(n), EntryData(n))
  }

  function EntriesIn(order: seq<Path>, t: Tree): (es: seq<Entry>)
    requires forall p :: p in order ==> p in t
    ensures |es| == |order| && forall i :: 0 <= i < |order| ==> es[i] == EntryOf(order[i], t[order[i]])
  {
    seq(|order|, i requires 0 <= i < |order| => EntryOf(order[i], t[order[i]]))
  }

  /** The entries of a tree in archive order. */
  ghost function Entries(t: Tree): seq<Entry> {
    EntriesIn(SortedOf(t.Keys), t)
  }

  lemma EntryNameFacts(p: Path, n: Node)
    requires Safe(p)
    ensures var name := EntryName(p, n);
            && name != [] && name[0] != SLASH && 0 !in name && NormalizeTarPath(name) == Ok(p)
  {
    SafeEnds(p);
    NormalizeExactly(EntryName(p, n), p);
  }

  lemma WrittenHeader(p: Path, n: Node, seen: set<Path>)
    requires Safe(p) && p !in seen && EntryHeader(p, n).Ok?
    ensures var h := EntryHeader(p, n).value;
            && !ZeroBlock(h)
            && ReadHeader(h, seen) == Ok((EntryOf(p, n).(data := []), |EntryData(n)|))
  {
    EntryNameFacts(p, n);
    HeaderRoundTrip(EntryName(p, n), n.Dir?, EntryMode(n), |EntryData(n)|);
    MagicIsNotZero(EntryHeader(p, n).value);
    DecodedIsRead(EntryHeader(p, n).value, p, n, seen);
  }

  lemma MagicIsNotZero(h: Bytes)
    requires |h| == BLOCK && HasMagic(h)
    ensures !ZeroBlock(h)
  {
    assert h[257] == h[257..263][0] == 0x75;
  }

  lemma DecodedIsRead(h: Bytes, p: Path, n: Node, seen: set<Path>)
    requires Safe(p) && p !in seen && |h| == BLOCK && HasMagic(h) && ChecksumOk(h)
    requires Decode(h) == Decoded(EntryName(p, n), Flag(n.Dir?), Some(EntryMode(n) % MODE_MASK), Some(|EntryData(n)|))
    ensures ReadHeader(h, seen) == Ok((EntryOf(p, n).(data := []), |EntryData(n)|))
  {
    EntryNameFacts(p, n);
  }

  /** A readable header followed by its padded data and anything else. */
  lemma StepFromHeader(h: Bytes, e: Entry, data: Bytes, rest: Bytes, seen: set<Path>)
    requires |h| == BLOCK && !ZeroBlock(h) && ReadHeader(h, seen) == Ok((e, |data|))
    ensures var b := h + PaddedData(data) + rest;
            && FirstStep(b, seen) == More(e.(data := data), BLOCK + Padded(|data|))
            && Drop(b, BLOCK + Padded(|data|)) == rest
  {
    var body := PaddedData(data);
    var b := h + body + rest;
    assert b[..BLOCK] == h;
    assert b[BLOCK..BLOCK + |data|] == body[..|data|];
  }

  lemma EndIsEmpty(seen: set<Path>)
    ensures ReadEntries(END_OF_ARCHIVE, seen) == Ok([])
  {
    assert ZeroBlock(END_OF_ARCHIVE[..BLOCK]);
    assert FirstStep(END_OF_ARCHIVE, seen) == End;
  }

  lemma SerializeCons(order: seq<Path>, t: Tree, tail: Bytes)
    requires order != [] && (forall p :: p in order ==> p in t) && Serialize(order, t).Ok?
    ensures EntryHeader(order[0], t[order[0]]).Ok? && Serialize(order[1..], t).Ok?
    ensures Serialize(order, t).value + tail
         == EntryHeader(order[0], t[order[0]]).value + PaddedData(EntryData(t[order[0]]))
             + (Serialize(order[1..], t).value + tail)
  {
  }

  lemma ReadOneMore(b: Bytes, seen: set<Path>, e: Entry, used: nat, es: seq<Entry>)
    requires |b| >= BLOCK && FirstStep(b, seen) == More(e, used)
    requires ReadEntries(Drop(b, used), seen + {e.path}) == Ok(es)
    ensures ReadEntries(b, seen) == Ok([e] + es)
  {
  }

  lemma EntriesInCons(order: seq<Path>, t: Tree)
    requires order != [] && forall p :: p in order ==> p in t
    ensures EntriesIn(order, t) == [EntryOf(order[0], t[order[0]])] + EntriesIn(order[1..], t)
  {
  }

  /** Reading a serialised list of entries gives the list back. */
  lemma {:induction false} ReadSerialized(order: seq<Path>, t: Tree, seen: set<Path>)
    requires forall p :: p in order ==> p in t && Safe(p) && p !in seen
    requires Distinct(order) && Serialize(order, t).Ok?
    ensures ReadEntries(Serialize(order, t).value + END_OF_ARCHIVE, seen) == Ok(EntriesIn(order, t))
  {
    if order == [] {
      EndIsEmpty(seen);
      assert [] + END_OF_ARCHIVE == END_OF_ARCHIVE;
    } else {
      var p, n := order[0], t[order[0]];
      SerializeCons(order, t, END_OF_ARCHIVE);
      var rest := Serialize(order[1..], t).value + END_OF_ARCHIVE;
      assert p !in order[1..];
      ReadSerialized(order[1..], t, seen + {p});
      ReadWritten(p, n, seen, rest, EntriesIn(order[1..], t));
      EntriesInCons(order, t);
    }
  }

  lemma ReadWritten(p: Path, n: Node, seen: set<Path>, rest: Bytes, es: seq<Entry>)
    requires Safe(p) && p !in seen && EntryHeader(p, n).Ok?
    requires ReadEntries(rest, seen + {p}) == Ok(es)
    ensures ReadEntries(EntryHeader(p, n).value + PaddedData(EntryData(n)) + rest, seen) == Ok([EntryOf(p, n)] + es)
  {
    var h := EntryHeader(p, n).value;
    var b := h + PaddedData(EntryData(n)) + rest;
    WrittenHeader(p, n, seen);
    StepFromHeader(h, EntryOf(p, n).(data := []), EntryData(n), rest, seen);
    ReadOneMore(b, seen, EntryOf(p, n), BLOCK + Padded(|EntryData(n)|), es);
  }

  // ---------------------------------------------------------------- trees

  /** A tree as a directory holds it: safe paths, every ancestor present and a directory. */
  ghost predicate ProperTree(t: Tree) {
    && (forall p :: p in t ==> Safe(p))
    && (forall p, a :: p in t && IsAncestor(a, p) ==> a in t && t[a].Dir?)
  }

  /** The tree a list of inputs denotes. */
  ghost function TreeOf(inputs: seq<TarInput>): Tree
    requires Collect(inputs, map[]).Ok?
  {
    Close(Collect(inputs, map[]).value)
  }

  lemma WrittenTreeIsProper(inputs: seq<TarInput>)
    requires WriteTar(inputs).Ok?
    ensures ProperTree(TreeOf(inputs)) && TarBytes(TreeOf(inputs)) == Ok(WriteTar(inputs).value)
  {
    var m := Collect(inputs, map[]).value;
    CollectSafe(inputs, map[]);
    CloseIsProper(m);
  }

  lemma CloseIsProper(m: Tree)
    requires !FileAsParent(m) && forall p :: p in m ==> Safe(p)
    ensures ProperTree(Close(m))
  {
    var t := Close(m);
    forall p | p in t ensures Safe(p) {
      if p !in m {
        AncestorsMember(m.Keys, p);
        var q :| q in m && IsAncestor(p, q);
        AncestorSafe(p, q);
      }
    }
    forall p, a | p in t && IsAncestor(a, p) ensures a in t && t[a].Dir? {
      AncestorsMember(m.Keys, a);
      if p !in m {
        AncestorsMember(m.Keys, p);
        var q :| q in m && IsAncestor(p, q);
        AncestorTransitive(a, p, q);
      }
    }
  }

  lemma ProperTreeIsClosed(t: Tree)
    requires ProperTree(t)
    ensures Close(t) == t && !FileAsParent(t)
  {
    forall a | a in Ancestors(t.Keys) ensures a in t { AncestorsMember(t.Keys, a); }
  }

  lemma EntriesNotBelowFiles(t: Tree)
    requires ProperTree(t)
    ensures !FileAboveEntry(Entries(t))
  {
    var order := SortedOf(t.Keys);
    forall i, j | 0 <= i < |order| && 0 <= j < |order| && IsAncestor(order[i], order[j])
      ensures t[order[i]].Dir?
    {
      assert order[i] in order && order[j] in order;
    }
  }

  /** Reading the canonical archive of a tree returns the tree, sorted, with normal modes. */
  lemma ReadTarBytes(t: Tree)
    requires ProperTree(t) && TarBytes(t).Ok?
    ensures ReadTar(TarBytes(t).value) == Ok(Entries(t))
  {
    SortedDistinct(SortedOf(t.Keys));
    ReadSerialized(SortedOf(t.Keys), t, {});
    EntriesNotBelowFiles(t);
  }

  // ---------------------------------------------------------------- back to inputs

  predicate AnyExecuteBit(mode: nat) {
    mode % 2 == 1 || mode / 8 % 2 == 1 || mode / 64 % 2 == 1
  }

  function NodeOf(e: Entry): Node {
    if e.isDir then Dir else File(e.data, AnyExecuteBit(e.mode))
  }

  function InputOf(e: Entry): TarInput {
    if e.isDir then DirInput(e.path) else FileInput(e.path, Some(e.data), AnyExecuteBit(e.mode))
  }

  function Inputs(es: seq<Entry>): (r: seq<TarInput>)
    ensures |r| == |es| && forall i :: 0 <= i < |es| ==> r[i] == InputOf(es[i])
  {
    seq(|es|, i requires 0 <= i < |es| => InputOf(es[i]))
  }

  lemma NodeOfEntry(p: Path, n: Node)
    ensures NodeOf(EntryOf(p, n)) == n
  {
  }

  function AddAll(es: seq<Entry>, m: Tree): Tree {
    if es == [] then m else AddAll(es[1..], m[es[0].path := NodeOf(es[0])])
  }

  ghost predicate Fresh(es: seq<Entry>, m: Tree) {
    && (forall i :: 0 <= i < |es| ==> Safe(es[i].path) && es[i].path !in m)
    && (forall i, j :: 0 <= i < j < |es| ==> es[i].path != es[j].path)
  }

  /** Distinct safe paths are collected as they are. */
  lemma {:induction false} CollectDistinct(es: seq<Entry>, m: Tree)
    requires Fresh(es, m)
    ensures Collect(Inputs(es), m) == Ok(AddAll(es, m))
  {
    if es != [] {
      NormalizeExactly(es[0].path, es[0].path);
      assert Inputs(es)[1..] == Inputs(es[1..]);
      CollectDistinct(es[1..], m[es[0].path := NodeOf(es[0])]);
    }
  }

  lemma {:induction false} AddAllMember(es: seq<Entry>, m: Tree, p: Path)
    ensures p in AddAll(es, m) <==> p in m || exists i :: 0 <= i < |es| && es[i].path == p
  {
    if es != [] {
      AddAllMember(es[1..], m[es[0].path := NodeOf(es[0])], p);
      if i :| 0 < i < |es| && es[i].path == p { assert es[1..][i - 1].path == p; }
    }
  }

  lemma {:induction false} AddAllValue(es: seq<Entry>, m: Tree, p: Path)
    requires Fresh(es, m)
    ensures p in m ==> p in AddAll(es, m) && AddAll(es, m)[p] == m[p]
    ensures forall i :: 0 <= i < |es| && es[i].path == p ==> p in AddAll(es, m) && AddAll(es, m)[p] == NodeOf(es[i])
  {
    if es != [] {
      AddAllValue(es[1..], m[es[0].path := NodeOf(es[0])], p);
      forall i | 1 <= i < |es| ensures es[i] == es[1..][i - 1] {}
    }
  }

  lemma EntriesLookup(t: Tree, p: Path)
    ensures p in t <==> exists i :: 0 <= i < |Entries(t)| && Entries(t)[i].path == p
    ensures forall i :: 0 <= i < |Entries(t)| && Entries(t)[i].path == p ==> p in t && NodeOf(Entries(t)[i]) == t[p]
  {
    var order := SortedOf(t.Keys);
    if p in t {
      assert p in order;
      var i :| 0 <= i < |order| && order[i] == p;
      assert Entries(t)[i].path == p;
    }
    forall i | 0 <= i < |order| ensures order[i] in t && NodeOf(Entries(t)[i]) == t[order[i]] {
      assert order[i] in order;
      NodeOfEntry(order[i], t[order[i]]);
    }
  }

  lemma EntriesFresh(t: Tree)
    requires ProperTree(t)
    ensures Fresh(Entries(t), map[])
  {
    var order := SortedOf(t.Keys);
    SortedDistinct(order);
    forall i | 0 <= i < |order| ensures Safe(order[i]) { assert order[i] in order; }
  }

  /** Feeding a tree's entries back to the writer denotes the same tree. */
  lemma CollectEntries(t: Tree)
    requires ProperTree(t)
    ensures Collect(Inputs(Entries(t)), map[]) == Ok(t)
  {
    EntriesFresh(t);
    CollectDistinct(Entries(t), map[]);
    var c := AddAll(Entries(t), map[]);
    forall p ensures p in c <==> p in t {
      AddAllMember(Entries(t), map[], p);
      EntriesLookup(t, p);
    }
    forall p | p in t ensures c[p] == t[p] {
      EntriesLookup(t, p);
      var i :| 0 <= i < |Entries(t)| && Entries(t)[i].path == p;
      AddAllValue(Entries(t), map[], p);
    }
    assert c == t;
  }

  lemma RewriteTree(t: Tree)
    requires ProperTree(t)
    ensures WriteTar(Inputs(Entries(t))) == match TarBytes(t) case Err(e) => Err(BadHeader(e)) case Ok(b) => Ok(b)
  {
    CollectEntries(t);
    ProperTreeIsClosed(t);
  }

  // ---------------------------------------------------------------- main results

  /**
   * Round trip: for every input list the writer accepts, the reader returns exactly the sorted,
   * parent-closed, mode-normalised tree the list denotes; writing that back gives the same bytes.
   */
  lemma RoundTrip(inputs: seq<TarInput>)
    requires WriteTar(inputs).Ok?
    ensures var b := WriteTar(inputs).value;
            && ReadTar(b) == Ok(Entries(TreeOf(inputs)))
            && WriteTar(Inputs(Entries(TreeOf(inputs)))) == Ok(b)
  {
    WrittenTreeIsProper(inputs);
    ReadTarBytes(TreeOf(inputs));
    RewriteTree(TreeOf(inputs));
  }

  /** The re-serialisation check a buyer makes on a received archive. */
  ghost predicate IsCanonical(b: Bytes) {
    ReadTar(b).Ok? && WriteTar(Inputs(ReadTar(b).value)) == Ok(b)
  }

  /** The check accepts exactly what the writer can produce. */
  lemma CanonicalExactly(b: Bytes)
    ensures IsCanonical(b) <==> exists inputs :: WriteTar(inputs) == Ok(b)
  {
    if IsCanonical(b) {
      assert WriteTar(Inputs(ReadTar(b).value)) == Ok(b);
    }
    if inputs :| WriteTar(inputs) == Ok(b) {
      RoundTrip(inputs);
    }
  }

  lemma EntriesDetermineTree(s: Tree, t: Tree)
    requires Entries(s) == Entries(t)
    ensures s == t
  {
    forall p { SameEntryAt(s, t, Entries(s), p); }
    SameTree(s, t);
  }

  lemma SameTree(s: Tree, t: Tree)
    requires forall p :: (p in s <==> p in t) && (p in s ==> s[p] == t[p])
    ensures s == t
  {
  }

  lemma SameEntryAt(s: Tree, t: Tree, es: seq<Entry>, p: Path)
    requires es == Entries(s) == Entries(t)
    ensures (p in s <==> p in t) && (p in s ==> s[p] == t[p])
  {
    EntriesLookup(s, p);
    EntriesLookup(t, p);
  }

  /** Two input lists with the same archive denote the same tree. */
  lemma WriterInjective(xs: seq<TarInput>, ys: seq<TarInput>)
    requires WriteTar(xs).Ok? && WriteTar(xs) == WriteTar(ys)
    ensures TreeOf(xs) == TreeOf(ys)
  {
    RoundTrip(xs);
    RoundTrip(ys);
    EntriesDetermineTree(TreeOf(xs), TreeOf(ys));
  }

  // ---------------------------------------------------------------- which trees have an archive

  /** A header can say the entry's name, with the '/' of a directory, and its size. */
  ghost predicate Encodable(p: Path, n: Node) {
    FitsFields(EntryName(p, n)) && |EntryData(n)| < SIZE_LIMIT
  }

  lemma {:induction false} SerializeAccepts(order: seq<Path>, t: Tree)
    requires forall p :: p in order ==> p in t && p != [] && p[0] != SLASH
    ensures Serialize(order, t).Ok? <==> forall p :: p in order ==> Encodable(p, t[p])
  {
    if order != [] {
      var p, n := order[0], t[order[0]];
      HeaderAcceptsExactly(EntryName(p, n), n.Dir?, EntryMode(n), |EntryData(n)|);
      SerializeAccepts(order[1..], t);
      assert order == [p] + order[1..];
    }
  }

  /** A tree has an archive exactly when every entry can be encoded. */
  lemma TarBytesAccepts(t: Tree)
    requires forall p :: p in t ==> p != [] && p[0] != SLASH
    ensures TarBytes(t).Ok? <==> forall p :: p in t ==> Encodable(p, t[p])
  {
    SerializeAccepts(SortedOf(t.Keys), t);
  }

  // ---------------------------------------------------------------- input order

  ghost predicate GoodInput(x: TarInput) {
    NormalizeTarPath(x.path).Ok? && !x.OtherInput? && (x.FileInput? ==> x.data.Some?)
  }

  function InputNode(x: TarInput): Node {
    match x
    case FileInput(_, Some(data), exec) => File(data, exec)
    case _ => Dir
  }

  /** What must hold of the bag of inputs: each is well formed, and only directories may repeat a path. */
  ghost predicate Consistent(ms: multiset<TarInput>) {
    && (forall x :: x in ms ==> GoodInput(x))
    && (forall x, y :: x in ms && y in ms && NormalizeTarPath(x.path) == NormalizeTarPath(y.path)
          ==> (x.DirInput? && y.DirInput?) || (x == y && ms[x] == 1))
  }

  ghost predicate FitsOn(ms: multiset<TarInput>, m: Tree) {
    forall x :: x in ms && GoodInput(x) && NormalizeTarPath(x.path).value in m
      ==> m[NormalizeTarPath(x.path).value].Dir? && x.DirInput?
  }

  lemma ConsistentCons(x: TarInput, rest: multiset<TarInput>)
    ensures Consistent(multiset{x} + rest) <==>
            && GoodInput(x) && Consistent(rest)
            && forall y :: y in rest && NormalizeTarPath(x.path) == NormalizeTarPath(y.path)
                ==> x.DirInput? && y.DirInput?
  {
    var ms := multiset{x} + rest;
    assert forall y :: y in ms <==> y == x || y in rest;
    assert forall y :: ms[y] == rest[y] + if y == x then 1 else 0;
  }

  /** Whether collecting succeeds depends on the bag of inputs alone. */
  lemma {:induction false} CollectAccepts(inputs: seq<TarInput>, m: Tree)
    ensures Collect(inputs, m).Ok? <==> Consistent(multiset(inputs)) && FitsOn(multiset(inputs), m)
  {
    if inputs == [] {
    } else {
      var x := inputs[0];
      var rest := multiset(inputs[1..]);
      assert inputs == [x] + inputs[1..];
      assert multiset(inputs) == multiset{x} + rest;
      ConsistentCons(x, rest);
      if GoodInput(x) {
        var p := NormalizeTarPath(x.path).value;
        if p in m {
          CollectAccepts(inputs[1..], m);
        } else {
          var m' := m[p := InputNode(x)];
          CollectAccepts(inputs[1..], m');
          FitsOnPut(rest, m, x);
        }
      }
    }
  }

  lemma FitsOnPut(rest: multiset<TarInput>, m: Tree, x: TarInput)
    requires GoodInput(x) && NormalizeTarPath(x.path).value !in m
    ensures Consistent(rest) && FitsOn(rest, m[NormalizeTarPath(x.path).value := InputNode(x)])
        <==> Consistent(multiset{x} + rest) && FitsOn(multiset{x} + rest, m)
  {
    ConsistentCons(x, rest);
  }

  lemma CollectStep(inputs: seq<TarInput>, m: Tree)
    requires inputs != [] && Collect(inputs, m).Ok?
    ensures GoodInput(inputs[0])
    ensures var q := NormalizeTarPath(inputs[0].path).value;
            && (q in m ==> m[q].Dir? && inputs[0].DirInput?)
            && Collect(inputs, m) == Collect(inputs[1..], if q in m then m else m[q := InputNode(inputs[0])])
  {
  }

  /** What is collected: the inputs' own nodes on top of `m`. */
  lemma {:induction false} CollectKeys(inputs: seq<TarInput>, m: Tree, p: Path)
    requires Collect(inputs, m).Ok?
    ensures p in Collect(inputs, m).value
            <==> p in m || exists i :: 0 <= i < |inputs| && NormalizeTarPath(inputs[i].path) == Ok(p)
    ensures p in m ==> Collect(inputs, m).value[p] == m[p]
  {
    if inputs != [] {
      CollectStep(inputs, m);
      var q := NormalizeTarPath(inputs[0].path).value;
      CollectKeys(inputs[1..], if q in m then m else m[q := InputNode(inputs[0])], p);
      if i :| 0 < i < |inputs| && NormalizeTarPath(inputs[i].path) == Ok(p) {
        assert inputs[1..][i - 1] == inputs[i];
      }
    }
  }

  lemma {:induction false} CollectValue(inputs: seq<TarInput>, m: Tree, i: nat)
    requires Collect(inputs, m).Ok? && i < |inputs|
    ensures GoodInput(inputs[i])
    ensures var p := NormalizeTarPath(inputs[i].path).value;
            p in Collect(inputs, m).value && Collect(inputs, m).value[p] == InputNode(inputs[i])
  {
    CollectStep(inputs, m);
    var q := NormalizeTarPath(inputs[0].path).value;
    var m' := if q in m then m else m[q := InputNode(inputs[0])];
    if i == 0 {
      CollectKeys(inputs[1..], m', q);
    } else {
      assert inputs[1..][i - 1] == inputs[i];
      CollectValue(inputs[1..], m', i - 1);
    }
  }

  /**
   * What the writer accepts: well-formed inputs among which only directories repeat a path, no file
   * where a directory is needed, and only names and sizes the header can say, implied parents included.
   */
  lemma WriterAccepts(inputs: seq<TarInput>)
    ensures Collect(inputs, map[]).Ok? <==> Consistent(multiset(inputs))
    ensures WriteTar(inputs).Ok? <==>
              && Consistent(multiset(inputs))
              && !FileAsParent(Collect(inputs, map[]).value)
              && forall p :: p in TreeOf(inputs) ==> Encodable(p, TreeOf(inputs)[p])
  {
    CollectAccepts(inputs, map[]);
    if Consistent(multiset(inputs)) && !FileAsParent(Collect(inputs, map[]).value) {
      CollectSafe(inputs, map[]);
      CloseIsProper(Collect(inputs, map[]).value);
      forall p | p in TreeOf(inputs) ensures p != [] && p[0] != SLASH { SafeEnds(p); }
      TarBytesAccepts(TreeOf(inputs));
    }
  }

  /** The archive, and whether there is one, do not depend on the order of the inputs. */
  lemma OrderIrrelevant(xs: seq<TarInput>, ys: seq<TarInput>)
    requires multiset(xs) == multiset(ys)
    ensures WriteTar(xs).Ok? == WriteTar(ys).Ok?
    ensures WriteTar(xs).Ok? ==> WriteTar(xs) == WriteTar(ys)
  {
    CollectAccepts(xs, map[]);
    CollectAccepts(ys, map[]);
    if Collect(xs, map[]).Ok? {
      var c, d := Collect(xs, map[]).value, Collect(ys, map[]).value;
      forall p ensures p in c <==> p in d {
        CollectKeys(xs, map[], p);
        CollectKeys(ys, map[], p);
        SameMembers(xs, ys);
        SameMembers(ys, xs);
      }
      forall p | p in c ensures c[p] == d[p] {
        CollectKeys(xs, map[], p);
        var i :| 0 <= i < |xs| && NormalizeTarPath(xs[i].path) == Ok(p);
        SameMembers(xs, ys);
        var j :| 0 <= j < |ys| && ys[j] == xs[i];
        CollectValue(xs, map[], i);
        CollectValue(ys, map[], j);
      }
      assert c == d;
    }
  }

  lemma SameMembers<T>(xs: seq<T>, ys: seq<T>)
    requires multiset(xs) == multiset(ys)
    ensures forall i :: 0 <= i < |xs| ==> exists j :: 0 <= j < |ys| && ys[j] == xs[i]
  {
    forall i | 0 <= i < |xs| ensures exists j :: 0 <= j < |ys| && ys[j] == xs[i] {
      assert xs[i] in multiset(xs);
      assert xs[i] in multiset(ys);
    }
  }
}
