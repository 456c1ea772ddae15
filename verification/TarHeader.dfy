/**
 * The 512-byte ustar header: the encoder spelled out in digest.py, and a decoder following the
 * "ustar Interchange Format" section of the pax utility in POSIX.1-2017.
 */
module TarHeader {
  import opened Base
  import opened Lex
  import opened TarPath

  const SPACE := 32
  const ZERO := 48
  const MODE_FILE := 420       // 0644
  const MODE_EXEC := 493       // 0755
  const MODE_MASK := 4096      // mode & 07777
  const NAME_SIZE: nat := 100
  const PREFIX_SIZE: nat := 155
  const USTAR: Bytes := [0x75, 0x73, 0x74, 0x61, 0x72, 0]

  datatype HeaderError = NonAsciiName | NameTooLong | FieldOverflow

  // ---------------------------------------------------------------- octal fields

  function Pow8(n: nat): (r: nat)
    ensures r > 0
  {
    if n == 0 then 1 else 8 * Pow8(n - 1)
  }

  /** The octal numeral of v, without leading zeros. */
  function Octal(v: nat): (r: Bytes)
    ensures r != [] && forall c :: c in r ==> ZERO <= c < ZERO + 8
  {
    if v < 8 then [ZERO + v] else Octal(v / 8) + [ZERO + v % 8]
  }

  /** A numeric field: `digits` zero-padded octal digits and one space. */
  function Oct(v: nat, digits: nat): Result<Bytes, HeaderError> {
    var s := Octal(v);
    if |s| > digits then Err(FieldOverflow)
    else Ok(seq(digits - |s|, _ => ZERO) + s + [SPACE])
  }

  lemma {:induction false} OctalLength(v: nat, n: nat)
    requires n > 0
    ensures |Octal(v)| <= n <==> v < Pow8(n)
  {
    if v >= 8 {
      if n == 1 { assert Pow8(1) == 8; }
      else { OctalLength(v / 8, n - 1); }
    } else {
      Pow8AtLeast(n);
    }
  }

  lemma {:induction false} Pow8AtLeast(n: nat)
    requires n > 0
    ensures Pow8(n) >= 8
  {
    if n > 1 { Pow8AtLeast(n - 1); }
  }

  /** Octal digits up to the first space or NUL; anything else is malformed. */
  function ParseOct(f: Bytes, acc: nat): Option<nat> {
    if f == [] || f[0] == SPACE || f[0] == 0 then Some(acc)
    else if ZERO <= f[0] < ZERO + 8 then ParseOct(f[1..], 8 * acc + (f[0] - ZERO))
    else None
  }

  lemma {:induction false} ParseZeros(n: nat, rest: Bytes)
    ensures ParseOct(seq(n, _ => ZERO) + rest, 0) == ParseOct(rest, 0)
  {
    var f: Bytes := seq(n, _ => ZERO) + rest;
    if n == 0 {
      assert f == rest;
    } else {
      assert f[1..] == seq(n - 1, _ => ZERO) + rest;
      ParseZeros(n - 1, rest);
    }
  }

  /** Reading digits most significant first. */
  lemma {:induction false} ParseDigits(v: nat, rest: Bytes)
    ensures ParseOct(Octal(v) + rest, 0) == ParseOct(rest, v)
  {
    if v < 8 {
      assert (Octal(v) + rest)[1..] == rest;
    } else {
      var d: byte := ZERO + v % 8;
      assert Octal(v) + rest == Octal(v / 8) + ([d] + rest);
      ParseDigits(v / 8, [d] + rest);
      assert ([d] + rest)[1..] == rest;
    }
  }

  /** A written numeric field reads back, whatever NULs follow it. */
  lemma OctRoundTrip(v: nat, digits: nat, tail: Bytes)
    requires Oct(v, digits).Ok?
    ensures |Oct(v, digits).value| == digits + 1
    ensures ParseOct(Oct(v, digits).value + tail, 0) == Some(v)
  {
    var s := Octal(v);
    var f := Oct(v, digits).value;
    assert f + tail == seq(digits - |s|, _ => ZERO) + (s + ([SPACE] + tail));
    ParseZeros(digits - |s|, s + ([SPACE] + tail));
    ParseDigits(v, [SPACE] + tail);
  }

  // ---------------------------------------------------------------- name split

  predicate Ascii(p: Path) {
    forall c :: c in p ==> 0 <= c < 128
  }

  /** Position of the first '/', or the length when there is none. */
  function FindSlash(p: Path): (i: nat)
    ensures i <= |p| && SLASH !in p[..i] && (i < |p| ==> p[i] == SLASH)
  {
    if p == [] || p[0] == SLASH then 0
    else
      var i := FindSlash(p[1..]);
      assert p[..i + 1] == [p[0]] + p[1..][..i];
      i + 1
  }

  /** Leading segments move into the prefix until the name fits. */
  function Shift(name: Path, prefix: Path): Result<(Path, Path), HeaderError>
    decreases |name|
  {
    if |name| <= NAME_SIZE then Ok((name, prefix))
    else
      var i := FindSlash(name);
      if i == |name| then Err(NameTooLong)
      else Shift(name[i + 1..], if prefix == [] then name[..i] else prefix + [SLASH] + name[..i])
  }

  function SplitName(name: Path): Result<(Path, Path), HeaderError> {
    if !Ascii(name) then Err(NonAsciiName)
    else match Shift(name, [])
      case Err(e) => Err(e)
      case Ok((n, prefix)) => if |prefix| > PREFIX_SIZE then Err(NameTooLong) else Ok((n, prefix))
  }

  /** What the reader makes of the two fields. */
  function JoinName(name: Path, prefix: Path): Path {
    if prefix == [] then name else prefix + [SLASH] + name
  }

  /** No path the programs encode has an empty leading segment. */
  lemma {:induction false} ShiftRejoins(name: Path, prefix: Path)
    requires Shift(name, prefix).Ok?
    requires prefix == [] ==> name != [] && name[0] != SLASH
    ensures var (n, q) := Shift(name, prefix).value;
            |n| <= NAME_SIZE && JoinName(n, q) == JoinName(name, prefix)
    decreases |name|
  {
    if |name| > NAME_SIZE {
      var i := FindSlash(name);
      var q := if prefix == [] then name[..i] else prefix + [SLASH] + name[..i];
      ShiftRejoins(name[i + 1..], q);
      OneShiftRejoins(name, prefix, i);
    }
  }

  lemma OneShiftRejoins(name: Path, prefix: Path, i: nat)
    requires i < |name| && name[i] == SLASH && (prefix == [] ==> i > 0)
    ensures var q := if prefix == [] then name[..i] else prefix + [SLASH] + name[..i];
            q != [] && JoinName(name[i + 1..], q) == JoinName(name, prefix)
  {
    assert name == name[..i] + [SLASH] + name[i + 1..];
    if prefix != [] {
      assert prefix + [SLASH] + name[..i] + [SLASH] + name[i + 1..] == prefix + [SLASH] + name;
    }
  }

  lemma {:induction false} ShiftElements(name: Path, prefix: Path)
    requires Shift(name, prefix).Ok?
    ensures var (n, q) := Shift(name, prefix).value;
            forall c :: c in n || c in q ==> c in name || c in prefix || c == SLASH
    decreases |name|
  {
    if |name| > NAME_SIZE {
      var i := FindSlash(name);
      var q := if prefix == [] then name[..i] else prefix + [SLASH] + name[..i];
      ShiftElements(name[i + 1..], q);
    }
  }

  method SplitNameLoop(name: Path) returns (r: Result<(Path, Path), HeaderError>)
    ensures r == SplitName(name)
  {
    if !Ascii(name) { return Err(NonAsciiName); }
    var n, prefix := name, [];
    while |n| > NAME_SIZE
      invariant Shift(n, prefix) == Shift(name, [])
      decreases |n|
    {
      var i := FindSlash(n);
      if i == |n| { return Err(NameTooLong); }
      prefix := if prefix == [] then n[..i] else prefix + [SLASH] + n[..i];
      n := n[i + 1..];
    }
    if |prefix| > PREFIX_SIZE { return Err(NameTooLong); }
    return Ok((n, prefix));
  }

  /** Cut at this '/', the name falls into at most 155 bytes before and at most 100 after. */
  predicate CutsAt(name: Path, i: nat) {
    i < |name| && name[i] == SLASH && i <= PREFIX_SIZE && |name| - i - 1 <= NAME_SIZE
  }

  /** A name the two text fields can hold. */
  ghost predicate FitsFields(name: Path) {
    Ascii(name) && (|name| <= NAME_SIZE || exists i: nat :: CutsAt(name, i))
  }

  /** The split takes the first '/' after which the rest fits: it leaves no less than any other such cut. */
  lemma {:induction false} ShiftLeast(name: Path, prefix: Path, i: nat)
    requires i < |name| && name[i] == SLASH && |name| - i - 1 <= NAME_SIZE
    ensures Shift(name, prefix).Ok? && |Shift(name, prefix).value.0| >= |name| - i - 1
    decreases |name|
  {
    if |name| > NAME_SIZE {
      var j := FindSlash(name);
      assert j <= i by { assert forall k :: 0 <= k < j ==> name[k] == name[..j][k] && name[k] != SLASH; }
      if j < i {
        assert name[j + 1..][i - j - 1] == SLASH;
        ShiftLeast(name[j + 1..], if prefix == [] then name[..j] else prefix + [SLASH] + name[..j], i - j - 1);
      }
    }
  }

  /** Which names the encoder can split, said without the loop. */
  lemma SplitsExactly(name: Path)
    requires name != [] && name[0] != SLASH
    ensures SplitName(name).Ok? <==> FitsFields(name)
  {
    if Ascii(name) && |name| > NAME_SIZE {
      if i: nat :| CutsAt(name, i) { ShiftLeast(name, [], i); }
      if Shift(name, []).Ok? {
        var (n, q) := Shift(name, []).value;
        ShiftRejoins(name, []);
        assert name[|q|] == SLASH;
        if |q| <= PREFIX_SIZE { assert CutsAt(name, |q|); }
      }
    }
  }

  // ---------------------------------------------------------------- layout

  const ZERO6: Bytes := [ZERO, ZERO, ZERO, ZERO, ZERO, ZERO, SPACE, 0]
  const ZERO11: Bytes := [ZERO, ZERO, ZERO, ZERO, ZERO, ZERO, ZERO, ZERO, ZERO, ZERO, ZERO, SPACE]

  /** Bytes 0 to 147: name, mode, uid, gid, size, mtime. */
  function Front(name: Bytes, mode: Bytes, size: Bytes): (h: Bytes)
    requires |name| <= NAME_SIZE && |mode| == 7 && |size| == 12
    ensures |h| == 148
  {
    name + Zeros(NAME_SIZE - |name|) + mode + [0] + ZERO6 + ZERO6 + size + ZERO11
  }

  /** Bytes 156 to 511: typeflag, linkname, magic, version, owner names, device numbers, prefix. */
  function Back(flag: byte, prefix: Bytes): (h: Bytes)
    requires |prefix| <= PREFIX_SIZE
    ensures |h| == 356
  {
    [flag] + Zeros(100) + USTAR + [ZERO, ZERO] + Zeros(64) + ZERO6 + ZERO6
    + prefix + Zeros(PREFIX_SIZE - |prefix|) + Zeros(12)
  }

  function AsBytes(p: Path): (b: Bytes)
    requires forall c :: c in p ==> 0 <= c < 256
    ensures b == p
  {
    assert forall i :: 0 <= i < |p| ==> p[i] in p;
    p
  }

  function Flag(isDir: bool): byte {
    if isDir then 0x35 else 0x30
  }

  function ModeField(mode: nat): (f: Bytes)
    ensures |f| == 7
  {
    Pow8Six();
    OctalLength(mode % MODE_MASK, 6);
    OctRoundTrip(mode % MODE_MASK, 6, []);
    Oct(mode % MODE_MASK, 6).value
  }

  function ChecksumField(sum: nat): (f: Bytes)
    requires sum <= 255 * BLOCK
    ensures |f| == 8
  {
    Pow8Six();
    OctalLength(sum, 6);
    OctRoundTrip(sum, 6, [0]);
    Oct(sum, 6).value + [0]
  }

  /** The checksum counts its own field as eight spaces. */
  function Checksum(front: Bytes, back: Bytes): nat {
    8 * SPACE + Sum(front) + Sum(back)
  }

  function Seal(front: Bytes, back: Bytes): (h: Bytes)
    requires |front| == 148 && |back| == 356
    ensures |h| == BLOCK
  {
    front + ChecksumField(Checksum(front, back)) + back
  }

  function Header(name: Path, isDir: bool, mode: nat, size: nat): (r: Result<Bytes, HeaderError>)
    ensures r.Ok? ==> |r.value| == BLOCK
  {
    if SplitName(name).Err? then Err(SplitName(name).error)
    else if Oct(size, 11).Err? then Err(Oct(size, 11).error)
    else
      SplitNameBounds(name);
      OctRoundTrip(size, 11, []);
      var n, prefix := AsBytes(SplitName(name).value.0), AsBytes(SplitName(name).value.1);
      Ok(Seal(Front(n, ModeField(mode), Oct(size, 11).value), Back(Flag(isDir), prefix)))
  }

  lemma Pow8Six()
    ensures Pow8(6) == 262144 && Pow8(11) == 8589934592
  {
    assert Pow8(3) == 512;
    assert Pow8(6) == 512 * Pow8(3);
    assert Pow8(9) == 512 * Pow8(6);
    assert Pow8(11) == 64 * Pow8(9);
  }

  lemma SplitNameBounds(name: Path)
    requires SplitName(name).Ok?
    ensures var (n, prefix) := SplitName(name).value;
            && |n| <= NAME_SIZE && |prefix| <= PREFIX_SIZE
            && (forall c :: c in n ==> 0 <= c < 128)
            && (forall c :: c in prefix ==> 0 <= c < 128)
  {
    ShiftFits(name, []);
    ShiftElements(name, []);
  }

  lemma {:induction false} ShiftFits(name: Path, prefix: Path)
    requires Shift(name, prefix).Ok?
    ensures |Shift(name, prefix).value.0| <= NAME_SIZE
    decreases |name|
  {
    if |name| > NAME_SIZE {
      var i := FindSlash(name);
      ShiftFits(name[i + 1..], if prefix == [] then name[..i] else prefix + [SLASH] + name[..i]);
    }
  }

  // ---------------------------------------------------------------- decoder

  /** A text field ends at its first NUL, or fills its width. */
  function CString(f: Bytes): (r: Bytes)
    ensures 0 !in r
  {
    if f == [] || f[0] == 0 then [] else [f[0]] + CString(f[1..])
  }

  lemma {:induction false} CStringPadded(s: Bytes, tail: Bytes)
    requires 0 !in s && (tail == [] || tail[0] == 0)
    ensures CString(s + tail) == s
  {
    if s == [] {
      assert s + tail == tail;
    } else {
      assert (s + tail)[1..] == s[1..] + tail;
      CStringPadded(s[1..], tail);
    }
  }

  datatype Decoded = Decoded(name: Path, flag: byte, mode: Option<nat>, size: Option<nat>)

  /** The stored checksum equals the sum of all bytes, its own field counted as spaces. */
  predicate ChecksumOk(h: Bytes)
    requires |h| == BLOCK
  {
    ParseOct(h[148..156], 0) == Some(Checksum(h[..148], h[156..]))
  }

  predicate HasMagic(h: Bytes)
    requires |h| == BLOCK
  {
    h[257..263] == USTAR
  }

  function Decode(h: Bytes): Decoded
    requires |h| == BLOCK
  {
    var prefix := CString(h[345..500]);
    var name := CString(h[..100]);
    Decoded(if prefix == [] then name else prefix + [SLASH] + name, h[156],
            ParseOct(h[100..108], 0), ParseOct(h[124..136], 0))
  }

  lemma SealFields(front: Bytes, back: Bytes)
    requires |front| == 148 && |back| == 356
    ensures var h := Seal(front, back);
            && h[..148] == front && h[148..156] == ChecksumField(Checksum(front, back)) && h[156..] == back
  {
  }

  /** Where the parts of the two halves end up in the block. */
  lemma SealSlices(front: Bytes, back: Bytes)
    requires |front| == 148 && |back| == 356
    ensures var h := Seal(front, back);
            && h[..100] == front[..100] && h[100..108] == front[100..108] && h[124..136] == front[124..136]
            && h[156] == back[0] && h[257..263] == back[101..107] && h[345..500] == back[189..344]
  {
    var h := Seal(front, back);
    SealFields(front, back);
    assert h[..148][..100] == h[..100] && h[..148][100..108] == h[100..108] && h[..148][124..136] == h[124..136];
    assert h[156..][0] == h[156] && h[156..][101..107] == h[257..263] && h[156..][189..344] == h[345..500];
  }

  lemma SealedChecksum(front: Bytes, back: Bytes)
    requires |front| == 148 && |back| == 356
    ensures ChecksumOk(Seal(front, back))
  {
    SealFields(front, back);
    Pow8Six();
    OctalLength(Checksum(front, back), 6);
    OctRoundTrip(Checksum(front, back), 6, [0]);
  }

  lemma FrontFields(name: Bytes, mode: Bytes, size: Bytes)
    requires |name| <= NAME_SIZE && |mode| == 7 && |size| == 12
    ensures var h := Front(name, mode, size);
            && h[..100] == name + Zeros(NAME_SIZE - |name|)
            && h[100..108] == mode + [0]
            && h[124..136] == size
  {
  }

  lemma BackFields(flag: byte, prefix: Bytes)
    requires |prefix| <= PREFIX_SIZE
    ensures var h := Back(flag, prefix);
            && h[0] == flag
            && h[101..107] == USTAR
            && h[189..344] == prefix + Zeros(PREFIX_SIZE - |prefix|)
  {
  }

  /**
   * The header round trip: for every name, kind, mode and size the encoder accepts, the header has
   * the ustar magic and a correct checksum, is not a zero block, and decodes to the same name (the
   * prefix split undone), kind, permission bits and size.
   */
  lemma HeaderRoundTrip(name: Path, isDir: bool, mode: nat, size: nat)
    requires name != [] && name[0] != SLASH && 0 !in name
    requires Header(name, isDir, mode, size).Ok?
    ensures var h := Header(name, isDir, mode, size).value;
            && HasMagic(h) && ChecksumOk(h)
            && Decode(h) == Decoded(name, Flag(isDir), Some(mode % MODE_MASK), Some(size))
  {
    var (n, prefix) := SplitName(name).value;
    SplitNameBounds(name);
    ShiftRejoins(name, []);
    ShiftElements(name, []);
    var sizeField := Oct(size, 11).value;
    OctRoundTrip(size, 11, []);
    assert sizeField + [] == sizeField;
    var front := Front(AsBytes(n), ModeField(mode), sizeField);
    var back := Back(Flag(isDir), AsBytes(prefix));
    var h := Seal(front, back);
    SealedChecksum(front, back);
    SealSlices(front, back);
    FrontFields(AsBytes(n), ModeField(mode), sizeField);
    BackFields(Flag(isDir), AsBytes(prefix));
    CStringPadded(n, Zeros(NAME_SIZE - |n|));
    CStringPadded(prefix, Zeros(PREFIX_SIZE - |prefix|));
    Pow8Six();
    OctalLength(mode % MODE_MASK, 6);
    OctRoundTrip(mode % MODE_MASK, 6, [0]);
  }

  lemma HeaderAccepts(name: Path, isDir: bool, mode: nat, size: nat)
    ensures Header(name, isDir, mode, size).Ok? <==> SplitName(name).Ok? && size < Pow8(11)
  {
    OctalLength(size, 11);
  }

  /** 8^11: the first size that no longer has eleven octal digits. */
  const SIZE_LIMIT := 8589934592

  /** When there is a header, in terms a caller can check: the name fits its fields, and so does the size. */
  lemma HeaderAcceptsExactly(name: Path, isDir: bool, mode: nat, size: nat)
    requires name != [] && name[0] != SLASH
    ensures Header(name, isDir, mode, size).Ok? <==> FitsFields(name) && size < SIZE_LIMIT
  {
    HeaderAccepts(name, isDir, mode, size);
    SplitsExactly(name);
    Pow8Six();
  }

  // ---------------------------------------------------------------- the encoder as a program

  method Put(h: array<byte>, off: nat, data: Bytes)
    requires off + |data| <= h.Length
    modifies h
    ensures h[..] == old(h[..off]) + data + old(h[off + |data|..])
  {
    for i := 0 to |data|
      invariant h[..off] == old(h[..off])
      invariant h[off..off + i] == data[..i]
      invariant h[off + i..] == old(h[off + i..])
    {
      h[off + i] := data[i];
      assert h[off..off + i + 1] == h[off..off + i] + [data[i]];
      assert data[..i + 1] == data[..i] + [data[i]];
      assert h[off + i + 1..] == h[off + i..][1..];
    }
    assert h[..] == h[..off] + h[off..off + |data|] + h[off + |data|..];
  }

  /** Writing a field into the all-zero rest of the header, some zeros after what is there. */
  method PutField(h: array<byte>, ghost base: Bytes, ghost before: Bytes, off: nat, data: Bytes)
    returns (ghost after: Bytes)
    requires |base| + |before| <= off && off + |data| <= h.Length
    requires h[..] == base + before + Zeros(h.Length - |base| - |before|)
    modifies h
    ensures after == before + Zeros(off - |base| - |before|) + data
    ensures h[..] == base + after + Zeros(h.Length - |base| - |after|)
  {
    after := before + Zeros(off - |base| - |before|) + data;
    Put(h, off, data);
    assert base + after == base + before + Zeros(off - |base| - |before|) + data;
  }

  const NUMBER6: Bytes := [ZERO, ZERO, ZERO, ZERO, ZERO, ZERO, SPACE]

  method EncodeFront(h: array<byte>, name: Bytes, mode: Bytes, size: Bytes)
    requires h.Length == BLOCK && h[..] == Zeros(BLOCK)
    requires |name| <= NAME_SIZE && |mode| == 7 && |size| == 12
    modifies h
    ensures h[..] == Front(name, mode, size) + Zeros(BLOCK - 148)
  {
    assert [] + [] + Zeros(BLOCK) == Zeros(BLOCK);
    ghost var b0 := PutField(h, [], [], 0, name);
    ghost var b1 := PutField(h, [], b0, 100, mode);
    ghost var b5 := EncodeNumbers(h, b1, size);
    FrontAssembled(name, mode, size, b0, b1, b5);
  }

  method EncodeNumbers(h: array<byte>, ghost b1: Bytes, size: Bytes) returns (ghost b5: Bytes)
    requires h.Length == BLOCK && |b1| == 107 && |size| == 12 && h[..] == [] + b1 + Zeros(BLOCK - 107)
    modifies h
    ensures b5 == b1 + Zeros(1) + NUMBER6 + Zeros(1) + NUMBER6 + Zeros(1) + size + ZERO11
    ensures h[..] == b5 + Zeros(BLOCK - 148)
  {
    ghost var b2 := PutField(h, [], b1, 108, NUMBER6);
    ghost var b3 := PutField(h, [], b2, 116, NUMBER6);
    ghost var b4 := PutField(h, [], b3, 124, size);
    b5 := PutField(h, [], b4, 136, ZERO11);
    assert b4 + Zeros(0) == b4;
    assert [] + b5 == b5;
  }

  lemma FrontAssembled(name: Bytes, mode: Bytes, size: Bytes, b0: Bytes, b1: Bytes, b5: Bytes)
    requires |name| <= NAME_SIZE && |mode| == 7 && |size| == 12
    requires b0 == [] + Zeros(0) + name && b1 == b0 + Zeros(100 - |b0|) + mode
    requires b5 == b1 + Zeros(1) + NUMBER6 + Zeros(1) + NUMBER6 + Zeros(1) + size + ZERO11
    ensures b5 == Front(name, mode, size)
  {
    assert b1 == name + Zeros(NAME_SIZE - |name|) + mode;
    assert b1 + Zeros(1) + NUMBER6 + Zeros(1) == b1 + [0] + ZERO6;
    assert b1 + [0] + ZERO6 + NUMBER6 + Zeros(1) == b1 + [0] + ZERO6 + ZERO6;
  }

  method EncodeBack(h: array<byte>, ghost front: Bytes, flag: byte, prefix: Bytes)
    requires h.Length == BLOCK && |front| == 148 && h[..] == front + Zeros(BLOCK - 148)
    requires |prefix| <= PREFIX_SIZE
    modifies h
    ensures h[..] == front + Zeros(8) + Back(flag, prefix)
  {
    ghost var base := front + Zeros(8);
    assert h[..] == base + [] + Zeros(BLOCK - 156);
    ghost var b0 := PutField(h, base, [], 156, [flag]);
    ghost var b1 := PutField(h, base, b0, 257, USTAR);
    ghost var b2 := PutField(h, base, b1, 263, [ZERO, ZERO]);
    ghost var b3 := PutField(h, base, b2, 329, NUMBER6);
    ghost var b4 := PutField(h, base, b3, 337, NUMBER6);
    ghost var b5 := PutField(h, base, b4, 345, prefix);
    BackAssembled(flag, prefix, b0, b1, b2, b3, b4, b5);
    assert base + (b5 + Zeros(PREFIX_SIZE - |prefix| + 12)) == base + b5 + Zeros(PREFIX_SIZE - |prefix| + 12);
  }

  lemma BackAssembled(flag: byte, prefix: Bytes, b0: Bytes, b1: Bytes, b2: Bytes, b3: Bytes, b4: Bytes, b5: Bytes)
    requires |prefix| <= PREFIX_SIZE
    requires b0 == [] + Zeros(0) + [flag] && b1 == b0 + Zeros(100) + USTAR && b2 == b1 + Zeros(0) + [ZERO, ZERO]
    requires b3 == b2 + Zeros(64) + NUMBER6 && b4 == b3 + Zeros(1) + NUMBER6 && b5 == b4 + Zeros(1) + prefix
    ensures b5 + Zeros(PREFIX_SIZE - |prefix| + 12) == Back(flag, prefix)
  {
    assert b2 == [flag] + Zeros(100) + USTAR + [ZERO, ZERO];
    assert b3 + Zeros(1) == b2 + Zeros(64) + ZERO6;
    assert b4 + Zeros(1) == b2 + Zeros(64) + ZERO6 + ZERO6;
    assert Zeros(PREFIX_SIZE - |prefix| + 12) == Zeros(PREFIX_SIZE - |prefix|) + Zeros(12);
  }

  /** The checksum goes into the eight bytes left free: seven of it, its last is zero already. */
  method PutChecksum(h: array<byte>, ghost front: Bytes, ghost back: Bytes)
    requires h.Length == BLOCK && |front| == 148 && |back| == 356 && h[..] == front + Zeros(8) + back
    modifies h
    ensures h[..] == Seal(front, back)
  {
    assert h[..148] == front && h[156..] == back;
    var sum := 8 * SPACE + Sum(h[..148]) + Sum(h[156..]);
    assert h[155..] == h[..][155..] == [0] + back;
    Put(h, 148, ChecksumField(sum)[..7]);
    assert h[..] == front + ChecksumField(sum)[..7] + ([0] + back);
    assert ChecksumField(sum) == ChecksumField(sum)[..7] + [0];
  }

  method EncodeHeader(name: Path, isDir: bool, mode: nat, size: nat) returns (r: Result<Bytes, HeaderError>)
    ensures r == Header(name, isDir, mode, size)
  {
    var split := SplitNameLoop(name);
    if split.Err? { return Err(split.error); }
    SplitNameBounds(name);
    var n, prefix := AsBytes(split.value.0), AsBytes(split.value.1);
    var sizeField := Oct(size, 11);
    if sizeField.Err? { return Err(sizeField.error); }
    OctRoundTrip(size, 11, []);
    var h := new byte[BLOCK](_ => 0);
    EncodeFront(h, n, ModeField(mode), sizeField.value);
    ghost var front := Front(n, ModeField(mode), sizeField.value);
    EncodeBack(h, front, Flag(isDir), prefix);
    PutChecksum(h, front, Back(Flag(isDir), prefix));
    return Ok(h[..]);
  }
}
