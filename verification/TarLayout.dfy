/**
 * The bytes of an archive, field by field and block by block, with the constants written out: what a
 * header says is fixed here without the encoder, the decoder or each other's conventions.
 */
module TarLayout {
  import opened Base
  import opened Lex
  import opened TarPath
  import opened TarHeader
  import opened TarWriter
  import opened TarLaws

  // ---------------------------------------------------------------- fields

  /** "000644 " and "000755 ", each ended by a NUL. */
  const PLAIN_MODE: Bytes := [48, 48, 48, 54, 52, 52, 32, 0]
  const EXEC_MODE: Bytes := [48, 48, 48, 55, 53, 53, 32, 0]

  /** Six zeros, a space, a NUL: owner, group and device numbers. */
  const NO_NUMBER: Bytes := [48, 48, 48, 48, 48, 48, 32, 0]

  /** Eleven zeros and a space: the modification time. */
  const NO_TIME: Bytes := [48, 48, 48, 48, 48, 48, 48, 48, 48, 48, 48, 32]

  /** "ustar", NUL, "00". */
  const MAGIC: Bytes := [117, 115, 116, 97, 114, 0, 48, 48]

  predicate AllZero(b: Bytes) {
    forall i :: 0 <= i < |b| ==> b[i] == 0
  }

  /** The field begins with the text, and NULs fill it up. */
  predicate HoldsText(field: Bytes, text: Path) {
    |text| <= |field| && field[..|text|] == text && AllZero(field[|text|..])
  }

  /** Digit i of v in a field of n octal digits, counted from the left. */
  function OctalDigit(v: nat, n: nat, i: nat): int
    requires i < n
  {
    48 + v / Pow8(n - 1 - i) % 8
  }

  /** n octal digits of v, then a space. */
  predicate HoldsNumber(field: Bytes, v: nat, n: nat) {
    |field| == n + 1 && field[n] == 32 && forall i :: 0 <= i < n ==> field[i] == OctalDigit(v, n, i)
  }

  lemma {:induction false} OctalDigits(v: nat, i: nat)
    requires i < |Octal(v)|
    ensures Octal(v)[i] == 48 + v / Pow8(|Octal(v)| - 1 - i) % 8
  {
    if v >= 8 {
      var n := |Octal(v)|;
      if i == n - 1 {
        assert Pow8(0) == 1;
      } else {
        OctalDigits(v / 8, i);
        Shrink(v, n - 2 - i);
      }
    } else {
      assert Pow8(0) == 1;
    }
  }

  lemma Shrink(v: nat, k: nat)
    ensures v / 8 / Pow8(k) == v / Pow8(k + 1)
  {
    var b := Pow8(k);
    var q := v / 8 / b;
    var r := 8 * (v / 8 % b) + v % 8;
    assert v == 8 * (v / 8) + v % 8 && v / 8 == b * q + v / 8 % b;
    assert 8 * (b * q) == (8 * b) * q;
    QuotientIs(v, 8 * b, q, r);
  }

  lemma SmallDigit(v: nat, k: nat)
    requires v < Pow8(k)
    ensures v / Pow8(k) % 8 == 0
  {
    QuotientIs(v, Pow8(k), 0, v);
  }

  /** A field of n digits holds the number that was put into it. */
  lemma NumberHeld(v: nat, n: nat)
    requires Oct(v, n).Ok?
    ensures HoldsNumber(Oct(v, n).value, v, n)
  {
    var s := Octal(v);
    var f := Oct(v, n).value;
    assert |f| == n + 1 && f[n] == 32;
    forall i | 0 <= i < n ensures f[i] == OctalDigit(v, n, i) {
      if i >= n - |s| {
        OctalDigits(v, i - (n - |s|));
        assert f[i] == s[i - (n - |s|)];
      } else {
        LeadingZero(v, n, i);
        assert f[i] == 48;
      }
    }
  }

  lemma LeadingZero(v: nat, n: nat, i: nat)
    requires i < n - |Octal(v)|
    ensures OctalDigit(v, n, i) == 48
  {
    OctalLength(v, |Octal(v)|);
    Pow8Grows(|Octal(v)|, n - 1 - i);
    SmallDigit(v, n - 1 - i);
  }

  lemma {:induction false} Pow8Grows(a: nat, b: nat)
    requires a <= b
    ensures Pow8(a) <= Pow8(b)
    decreases b
  {
    if a < b { Pow8Grows(a, b - 1); }
  }

  // ---------------------------------------------------------------- name and prefix

  /** The first '/' behind which at most 100 bytes are left. */
  predicate FirstCut(name: Path, i: nat) {
    && i < |name| && name[i] == 47 && |name| - i - 1 <= 100
    && forall k: nat :: k < i && name[k] == 47 ==> |name| - k - 1 > 100
  }

  /** A name of at most 100 bytes stands whole; a longer one is cut at the first '/' that leaves so little. */
  ghost predicate NameParts(name: Path, n: Path, prefix: Path) {
    if |name| <= 100 then n == name && prefix == []
    else exists i: nat :: FirstCut(name, i) && prefix == name[..i] && n == name[i + 1..]
  }

  lemma {:induction false} ShiftFirst(name: Path, prefix: Path)
    requires |name| > 100 && Shift(name, prefix).Ok?
    ensures exists i: nat :: FirstCut(name, i) && Shift(name, prefix).value.0 == name[i + 1..]
    decreases |name|
  {
    var j := FindSlash(name);
    var rest := name[j + 1..];
    assert forall k :: 0 <= k < j ==> name[k] == name[..j][k] && name[k] != 47;
    if |rest| <= 100 {
      assert FirstCut(name, j);
    } else {
      ShiftFirst(rest, if prefix == [] then name[..j] else prefix + [SLASH] + name[..j]);
      var i: nat :| FirstCut(rest, i) && Shift(name, prefix).value.0 == rest[i + 1..];
      CutLater(name, j, i);
    }
  }

  lemma CutLater(name: Path, j: nat, i: nat)
    requires j < |name| && name[j] == 47 && |name| - j - 1 > 100 && FirstCut(name[j + 1..], i)
    requires forall k: nat :: k < j ==> name[k] != 47
    ensures FirstCut(name, j + 1 + i) && name[j + 1..][i + 1..] == name[j + 1 + i + 1..]
  {
    var rest := name[j + 1..];
    forall k: nat | k < j + 1 + i && name[k] == 47 ensures |name| - k - 1 > 100 {
      if k > j { assert rest[k - j - 1] == 47; }
    }
  }

  lemma SplitParts(name: Path)
    requires name != [] && name[0] != SLASH && SplitName(name).Ok?
    ensures NameParts(name, SplitName(name).value.0, SplitName(name).value.1)
  {
    var (n, q) := SplitName(name).value;
    if |name| > 100 {
      ShiftFirst(name, []);
      ShiftRejoins(name, []);
      var i: nat :| FirstCut(name, i) && n == name[i + 1..];
      assert q != [];
      assert |q| == i;
      assert q == JoinName(n, q)[..i];
    }
  }

  // ---------------------------------------------------------------- the header

  /** The checksum of a header: the sum of its bytes, the eight of its own field taken as spaces. */
  function SumWithSpaces(h: Bytes): nat
    requires |h| == 512
  {
    Sum(h[..148] + [32, 32, 32, 32, 32, 32, 32, 32] + h[156..])
  }

  /** Every byte counts once. */
  lemma SumGrows(b: Bytes, x: byte)
    ensures Sum([]) == 0 && Sum(b + [x]) == Sum(b) + x as int
  {
    SumConcat(b, [x]);
    assert [x][1..] == [];
  }

  /** All 512 bytes, field by field. */
  ghost predicate HeaderSays(h: Bytes, name: Path, isDir: bool, exec: bool, size: nat) {
    && |h| == 512
    && (exists n, prefix :: NameParts(name, n, prefix) && HoldsText(h[0..100], n) && HoldsText(h[345..500], prefix))
    && h[100..108] == (if isDir || exec then EXEC_MODE else PLAIN_MODE)
    && h[108..116] == NO_NUMBER && h[116..124] == NO_NUMBER
    && HoldsNumber(h[124..136], size, 11)
    && h[136..148] == NO_TIME
    && HoldsNumber(h[148..155], SumWithSpaces(h), 6) && h[155] == 0
    && h[156] == (if isDir then 53 else 48)
    && AllZero(h[157..257])
    && h[257..265] == MAGIC
    && AllZero(h[265..329])
    && h[329..337] == NO_NUMBER && h[337..345] == NO_NUMBER
    && AllZero(h[500..512])
  }

  lemma ModeText()
    ensures ModeField(493) + [0] == EXEC_MODE && ModeField(420) + [0] == PLAIN_MODE
  {
    assert Octal(7) == [55] && Octal(61) == [55, 53] && Octal(493) == [55, 53, 53];
    assert Octal(6) == [54] && Octal(52) == [54, 52] && Octal(420) == [54, 52, 52];
    var zeros: Bytes := seq(3, _ => ZERO);
    assert zeros == [48, 48, 48];
  }

  lemma FrontSays(name: Bytes, mode: Bytes, size: Bytes)
    requires |name| <= 100 && |mode| == 7 && |size| == 12
    ensures var h := Front(name, mode, size);
            && HoldsText(h[0..100], name) && h[100..108] == mode + [0]
            && h[108..116] == NO_NUMBER && h[116..124] == NO_NUMBER
            && h[124..136] == size && h[136..148] == NO_TIME
  {
  }

  lemma BackSays(flag: byte, prefix: Bytes)
    requires |prefix| <= 155
    ensures var h := Back(flag, prefix);
            && h[0] == flag && AllZero(h[1..101]) && h[101..109] == MAGIC && AllZero(h[109..173])
            && h[173..181] == NO_NUMBER && h[181..189] == NO_NUMBER
            && HoldsText(h[189..344], prefix) && AllZero(h[344..356])
  {
  }

  lemma SealSays(front: Bytes, back: Bytes)
    requires |front| == 148 && |back| == 356
    ensures var h := Seal(front, back);
            && h[..148] == front && h[156..] == back
            && HoldsNumber(h[148..155], SumWithSpaces(h), 6) && h[155] == 0
  {
    var h := Seal(front, back);
    SealFields(front, back);
    var blank: Bytes := [32, 32, 32, 32, 32, 32, 32, 32];
    SumConcat(front + blank, back);
    SumConcat(front, blank);
    EightSpaces();
    assert front + blank + back == h[..148] + blank + h[156..];
    assert Checksum(front, back) == SumWithSpaces(h);
    Pow8Six();
    OctalLength(Checksum(front, back), 6);
    NumberHeld(Checksum(front, back), 6);
    OctRoundTrip(Checksum(front, back), 6, [0]);
    var field := ChecksumField(Checksum(front, back));
    assert h[148..155] == h[148..156][..7] == field[..7] == Oct(Checksum(front, back), 6).value;
    assert h[155] == h[148..156][7];
  }

  lemma EightSpaces()
    ensures Sum([32, 32, 32, 32, 32, 32, 32, 32]) == 256
  {
    SumConcat([32, 32, 32, 32], [32, 32, 32, 32]);
    SumConcat([32, 32], [32, 32]);
    assert Sum([32]) == 32 && [32, 32][1..] == [32];
    assert [32, 32] + [32, 32] == [32, 32, 32, 32];
    assert [32, 32, 32, 32] + [32, 32, 32, 32] == [32, 32, 32, 32, 32, 32, 32, 32];
  }

  /** The header of a node says its name, kind, mode and size, and everything else is fixed. */
  lemma HeaderIs(p: Path, n: Node)
    requires p != [] && p[0] != SLASH && EntryHeader(p, n).Ok?
    ensures HeaderSays(EntryHeader(p, n).value, EntryName(p, n), n.Dir?, n.File? && n.executable, |EntryData(n)|)
  {
    var name := EntryName(p, n);
    var size := |EntryData(n)|;
    var (short, prefix) := SplitName(name).value;
    SplitNameBounds(name);
    SplitParts(name);
    ModeText();
    NumberHeld(size, 11);
    OctRoundTrip(size, 11, []);
    var front := Front(AsBytes(short), ModeField(EntryMode(n)), Oct(size, 11).value);
    var back := Back(Flag(n.Dir?), AsBytes(prefix));
    FrontSays(AsBytes(short), ModeField(EntryMode(n)), Oct(size, 11).value);
    BackSays(Flag(n.Dir?), AsBytes(prefix));
    SealSays(front, back);
    Assembled(Seal(front, back), front, back);
  }

  lemma Assembled(h: Bytes, front: Bytes, back: Bytes)
    requires |h| == 512 && |front| == 148 && |back| == 356 && h[..148] == front && h[156..] == back
    ensures forall i, j :: 0 <= i <= j <= 148 ==> h[i..j] == front[i..j]
    ensures forall i, j :: 156 <= i <= j <= 512 ==> h[i..j] == back[i - 156..j - 156]
    ensures h[156] == back[0]
  {
    forall i, j | 0 <= i <= j <= 148 ensures h[i..j] == front[i..j] { assert h[..148][i..j] == h[i..j]; }
    forall i, j | 156 <= i <= j <= 512 ensures h[i..j] == back[i - 156..j - 156] {
      assert h[156..][i - 156..j - 156] == h[i..j];
    }
  }

  // ---------------------------------------------------------------- the archive

  /** Where entry k begins: each entry before it took a header and its data, filled up to whole blocks. */
  function Offset(order: seq<Path>, t: Tree, k: nat): nat
    requires k <= |order| && forall p :: p in order ==> p in t
  {
    if k == 0 then 0 else Width(t, order[0]) + Offset(order[1..], t, k - 1)
  }

  function Width(t: Tree, p: Path): nat
    requires p in t
  {
    512 + Padded(|EntryData(t[p])|)
  }

  /** At this place stands the entry of a node: its header, its data, zeros up to the next block. */
  ghost predicate EntryAt(b: Bytes, off: nat, p: Path, n: Node) {
    var data := if n.File? then n.data else [];
    && off + 512 + Padded(|data|) <= |b|
    && NodeSays(b[off..off + 512], p, n)
    && DataAt(b, off + 512, data)
  }

  ghost predicate NodeSays(h: Bytes, p: Path, n: Node) {
    HeaderSays(h, if n.Dir? then p + [47] else p, n.Dir?, n.File? && n.executable, if n.File? then |n.data| else 0)
  }

  /** The data, and zeros up to the next block. */
  predicate DataAt(b: Bytes, off: nat, data: Bytes) {
    && off + Padded(|data|) <= |b|
    && b[off..off + |data|] == data && AllZero(b[off + |data|..off + Padded(|data|)])
  }

  lemma SaysThere(b: Bytes, off: nat, h: Bytes, p: Path, n: Node)
    requires off + 512 <= |b| && b[off..off + 512] == h && NodeSays(h, p, n)
    requires DataAt(b, off + 512, EntryData(n))
    ensures EntryAt(b, off, p, n)
  {
  }

  lemma EntryStands(b: Bytes, off: nat, p: Path, n: Node, h: Bytes, rest: Bytes)
    requires |h| == 512 && NodeSays(h, p, n)
    requires off <= |b| && b[off..] == h + PaddedData(EntryData(n)) + rest
    ensures EntryAt(b, off, p, n) && off + 512 + Padded(|EntryData(n)|) <= |b|
    ensures b[off + 512 + Padded(|EntryData(n)|)..] == rest
  {
    PiecesStand(b, off, h, EntryData(n), rest);
    SaysThere(b, off, h, p, n);
  }

  lemma PiecesStand(b: Bytes, off: nat, h: Bytes, data: Bytes, rest: Bytes)
    requires |h| == 512 && off <= |b| && b[off..] == h + PaddedData(data) + rest
    ensures off + 512 + Padded(|data|) <= |b| && b[off..off + 512] == h && DataAt(b, off + 512, data)
    ensures b[off + 512 + Padded(|data|)..] == rest
  {
    var d, n := PaddedData(data), |data|;
    var tail := b[off..];
    assert b[off..off + 512] == tail[..512] == h;
    assert b[off + 512..off + 512 + n] == tail[512..512 + n] == d[..n];
    assert b[off + 512 + n..off + 512 + |d|] == tail[512 + n..512 + |d|] == d[n..];
    assert b[off + 512 + |d|..] == tail[512 + |d|..] == rest;
  }

  ghost predicate EntriesAt(b: Bytes, order: seq<Path>, t: Tree, k: nat)
    requires k <= |order| && forall p :: p in order ==> p in t
  {
    forall i :: 0 <= i < k ==> EntryAt(b, Offset(order, t, i), order[i], t[order[i]])
  }

  /** What stands in front is not changed by what follows. */
  lemma EntryStays(b: Bytes, more: Bytes, off: nat, p: Path, n: Node)
    requires EntryAt(b, off, p, n)
    ensures EntryAt(b + more, off, p, n)
  {
    var c := b + more;
    assert c[off..off + 512] == b[off..off + 512];
    DataStays(b, more, off + 512, EntryData(n));
    SaysThere(c, off, b[off..off + 512], p, n);
  }

  lemma DataStays(b: Bytes, more: Bytes, off: nat, data: Bytes)
    requires DataAt(b, off, data)
    ensures DataAt(b + more, off, data)
  {
    var c := b + more;
    assert c[off..off + |data|] == b[off..off + |data|];
    assert c[off + |data|..off + Padded(|data|)] == b[off + |data|..off + Padded(|data|)];
  }

  lemma SerializeFirst(order: seq<Path>, t: Tree)
    requires order != [] && (forall p :: p in order ==> p in t) && Serialize(order, t).Ok?
    ensures EntryHeader(order[0], t[order[0]]).Ok? && Serialize(order[1..], t).Ok?
    ensures Serialize(order, t).value
            == EntryHeader(order[0], t[order[0]]).value + PaddedData(EntryData(t[order[0]]))
               + Serialize(order[1..], t).value
  {
  }

  /** The first entry of what is left to be written, and what is left then. */
  lemma NextStands(b: Bytes, off: nat, order: seq<Path>, t: Tree)
    requires order != [] && (forall p :: p in order ==> p in t) && order[0] != [] && order[0][0] != SLASH
    requires Serialize(order, t).Ok? && off <= |b| && b[off..] == Serialize(order, t).value
    ensures EntryAt(b, off, order[0], t[order[0]])
    ensures var next := off + 512 + Padded(|EntryData(t[order[0]])|);
            next <= |b| && Serialize(order[1..], t).Ok? && b[next..] == Serialize(order[1..], t).value
  {
    SerializeFirst(order, t);
    var p, n := order[0], t[order[0]];
    HeaderIs(p, n);
    EntryStands(b, off, p, n, EntryHeader(p, n).value, Serialize(order[1..], t).value);
  }

  /** What may be left to write at a place: each time an entry stands there, and the rest is left behind it. */
  ghost predicate Leaves(t: Tree, left: (nat, seq<Path>) -> bool, at: (nat, Path) -> bool, end: nat) {
    && (forall off: nat :: left(off, []) ==> off == end)
    && (forall off: nat, order :: left(off, order) ==> forall p :: p in order ==> p in t)
    && GoesOn(t, left, at)
  }

  ghost predicate GoesOn(t: Tree, left: (nat, seq<Path>) -> bool, at: (nat, Path) -> bool)
    requires forall off: nat, order :: left(off, order) ==> forall p :: p in order ==> p in t
  {
    forall off: nat, order :: order != [] && left(off, order) ==>
      at(off, order[0]) && left(off + Width(t, order[0]), order[1..])
  }

  lemma {:induction false} StandAt(t: Tree, left: (nat, seq<Path>) -> bool, at: (nat, Path) -> bool, end: nat,
                                   off: nat, order: seq<Path>, k: nat)
    requires Leaves(t, left, at, end) && k < |order| && left(off, order)
    ensures at(off + Offset(order, t, k), order[k])
    decreases |order|
  {
    if k > 0 { StandAt(t, left, at, end, off + Width(t, order[0]), order[1..], k - 1); }
  }

  lemma {:induction false} StandToEnd(t: Tree, left: (nat, seq<Path>) -> bool, at: (nat, Path) -> bool, end: nat,
                                      off: nat, order: seq<Path>)
    requires Leaves(t, left, at, end) && left(off, order)
    ensures end == off + Offset(order, t, |order|)
    decreases |order|
  {
    if order != [] { StandToEnd(t, left, at, end, off + Width(t, order[0]), order[1..]); }
  }

  ghost function Standing(b: Bytes, t: Tree): (nat, Path) -> bool {
    (off, p) => p in t && off >= 0 && EntryAt(b, off, p, t[p])
  }

  ghost predicate LeftAt(b: Bytes, t: Tree, off: nat, order: seq<Path>) {
    && (forall p :: p in order ==> p in t && p != [] && p[0] != SLASH)
    && Serialize(order, t).Ok? && off <= |b| && b[off..] == Serialize(order, t).value
  }

  lemma NextLeft(b: Bytes, t: Tree, off: nat, order: seq<Path>)
    requires order != [] && LeftAt(b, t, off, order)
    ensures EntryAt(b, off, order[0], t[order[0]]) && LeftAt(b, t, off + Width(t, order[0]), order[1..])
  {
    NextStands(b, off, order, t);
  }

  ghost function Left(b: Bytes, t: Tree): (nat, seq<Path>) -> bool {
    (off, order) => off >= 0 && LeftAt(b, t, off, order)
  }

  lemma BodyGoesOn(b: Bytes, t: Tree)
    ensures GoesOn(t, Left(b, t), Standing(b, t))
  {
    forall off: nat, order | order != [] && LeftAt(b, t, off, order)
      ensures EntryAt(b, off, order[0], t[order[0]]) && LeftAt(b, t, off + Width(t, order[0]), order[1..])
    {
      NextLeft(b, t, off, order);
    }
  }

  lemma BodyLeaves(b: Bytes, t: Tree)
    ensures Leaves(t, Left(b, t), Standing(b, t), |b|)
  {
    forall off: nat | LeftAt(b, t, off, []) ensures off == |b| { assert |b[off..]| == 0; }
    BodyGoesOn(b, t);
  }

  /** Whatever is left at the first place stands in order from there. */
  lemma InOrder(t: Tree, left: (nat, seq<Path>) -> bool, at: (nat, Path) -> bool, end: nat, order: seq<Path>)
    requires Leaves(t, left, at, end) && left(0, order)
    ensures end == Offset(order, t, |order|)
    ensures forall i :: 0 <= i < |order| ==> at(Offset(order, t, i), order[i])
  {
    StandToEnd(t, left, at, end, 0, order);
    forall i | 0 <= i < |order| ensures at(Offset(order, t, i), order[i]) { StandAt(t, left, at, end, 0, order, i); }
  }

  lemma AllLeft(body: Bytes, order: seq<Path>, t: Tree)
    requires (forall p :: p in order ==> p in t && p != [] && p[0] != SLASH) && Serialize(order, t) == Ok(body)
    ensures Left(body, t)(0, order)
  {
    assert body[0..] == body;
  }

  lemma BodyInOrder(body: Bytes, order: seq<Path>, t: Tree)
    requires (forall p :: p in order ==> p in t && p != [] && p[0] != SLASH) && Serialize(order, t) == Ok(body)
    ensures |body| == Offset(order, t, |order|)
    ensures forall i :: 0 <= i < |order| ==> Standing(body, t)(Offset(order, t, i), order[i])
  {
    BodyLeaves(body, t);
    AllLeft(body, order, t);
    InOrder(t, Left(body, t), Standing(body, t), |body|, order);
  }

  lemma ArchiveInOrder(body: Bytes, order: seq<Path>, t: Tree)
    requires (forall p :: p in order ==> p in t) && |body| == Offset(order, t, |order|)
    requires forall i :: 0 <= i < |order| ==> Standing(body, t)(Offset(order, t, i), order[i])
    ensures var b := body + END_OF_ARCHIVE;
            var end := Offset(order, t, |order|);
            EntriesAt(b, order, t, |order|) && |b| == end + 1024 && AllZero(b[end..])
  {
    forall i | 0 <= i < |order| ensures EntryAt(body + END_OF_ARCHIVE, Offset(order, t, i), order[i], t[order[i]]) {
      assert Standing(body, t)(Offset(order, t, i), order[i]);
      EntryStays(body, END_OF_ARCHIVE, Offset(order, t, i), order[i], t[order[i]]);
    }
    assert (body + END_OF_ARCHIVE)[|body|..] == END_OF_ARCHIVE;
  }

  /**
   * The archive of a tree, byte for byte: the entries in ascending order of their paths, one after the
   * other, and 1024 zeros.
   */
  lemma ArchiveIs(t: Tree)
    requires ProperTree(t) && TarBytes(t).Ok?
    ensures var b := TarBytes(t).value;
            var order := SortedOf(t.Keys);
            var end := Offset(order, t, |order|);
            EntriesAt(b, order, t, |order|) && |b| == end + 1024 && AllZero(b[end..])
  {
    var order := SortedOf(t.Keys);
    forall p | p in order ensures p != [] && p[0] != SLASH { SafeEnds(p); }
    BodyInOrder(Serialize(order, t).value, order, t);
    ArchiveInOrder(Serialize(order, t).value, order, t);
  }

  /** Input i is a file given for this path. */
  predicate GivesFile(inputs: seq<TarInput>, i: nat, p: Path) {
    i < |inputs| && inputs[i].FileInput? && NormalizeTarPath(inputs[i].path) == Ok(p)
  }

  ghost predicate Given(inputs: seq<TarInput>, p: Path) {
    exists i :: 0 <= i < |inputs| && NormalizeTarPath(inputs[i].path) == Ok(p)
  }

  /**
   * The tree that is written: the given paths and the directories above them; a path is a file with the
   * given contents and execute bit when a file was given for it, and a directory otherwise.
   */
  lemma TreeIs(inputs: seq<TarInput>, p: Path)
    requires Collect(inputs, map[]).Ok?
    ensures p in TreeOf(inputs) <==> Given(inputs, p) || exists q :: Given(inputs, q) && IsAncestor(p, q)
    ensures forall i: nat :: GivesFile(inputs, i, p) ==>
              p in TreeOf(inputs) && inputs[i].data.Some?
              && TreeOf(inputs)[p] == File(inputs[i].data.value, inputs[i].executable)
    ensures p in TreeOf(inputs) && (forall i: nat :: !GivesFile(inputs, i, p)) ==> TreeOf(inputs)[p] == Dir
  {
    var m := Collect(inputs, map[]).value;
    CollectKeys(inputs, map[], p);
    forall q ensures q in m <==> Given(inputs, q) { CollectKeys(inputs, map[], q); }
    AncestorsMember(m.Keys, p);
    forall i: nat | GivesFile(inputs, i, p)
      ensures p in m && inputs[i].data.Some? && m[p] == File(inputs[i].data.value, inputs[i].executable)
    {
      CollectValue(inputs, map[], i);
    }
    if p in m && forall i: nat :: !GivesFile(inputs, i, p) {
      var i :| 0 <= i < |inputs| && NormalizeTarPath(inputs[i].path) == Ok(p);
      CollectValue(inputs, map[], i);
      assert !GivesFile(inputs, i, p);
    }
  }

  /** Everything the writer puts out: the tree of TreeIs, laid out as ArchiveIs says. */
  lemma WrittenBytes(inputs: seq<TarInput>)
    requires WriteTar(inputs).Ok?
    ensures var b := WriteTar(inputs).value;
            var t := TreeOf(inputs);
            var order := SortedOf(t.Keys);
            && EntriesAt(b, order, t, |order|)
            && |b| == Offset(order, t, |order|) + 1024 && AllZero(b[Offset(order, t, |order|)..])
  {
    WrittenTreeIsProper(inputs);
    ArchiveIs(TreeOf(inputs));
  }
}
