/**
 * What the strict reader accepts, and what it returns, said over the bytes of the archive: for every
 * sequence of bytes, whoever wrote it.
 */
module TarReading {
  import opened Base
  import opened Lex
  import opened TarPath
  import opened TarHeader
  import opened TarReader
  import TarLayout

  // ---------------------------------------------------------------- fields

  /** The value of octal digits, most significant first. */
  function OctalValue(digits: Bytes): int {
    if digits == [] then 0 else 8 * OctalValue(digits[..|digits| - 1]) + digits[|digits| - 1] - 48
  }

  /** The field's digits end at its first space or NUL, or fill it. */
  predicate DigitsEnd(field: Bytes, n: nat) {
    && n <= |field| && (forall i :: 0 <= i < n ==> 48 <= field[i] <= 55)
    && (n == |field| || field[n] == 32 || field[n] == 0)
  }

  ghost predicate NumberIn(field: Bytes, v: int) {
    exists n: nat :: DigitsEnd(field, n) && v == OctalValue(field[..n])
  }

  lemma DigitsEndOnce(field: Bytes, n: nat, k: nat)
    requires DigitsEnd(field, n) && DigitsEnd(field, k)
    ensures n == k
  {
  }

  /** The digits read so far, then the rest. */
  lemma {:induction false} ParseFrom(field: Bytes, k: nat, n: nat)
    requires k <= n && DigitsEnd(field, n)
    ensures OctalValue(field[..k]) >= 0
    ensures ParseOct(field[k..], OctalValue(field[..k])) == Some(OctalValue(field[..n]))
    decreases n - k
  {
    ValueIsNat(field[..k]);
    if k == n {
      ValueIsNat(field[..n]);
    } else {
      assert field[..k + 1][..k] == field[..k] && field[k..][1..] == field[k + 1..];
      ParseFrom(field, k + 1, n);
    }
  }

  lemma {:induction false} ValueIsNat(digits: Bytes)
    requires forall i :: 0 <= i < |digits| ==> 48 <= digits[i] <= 55
    ensures OctalValue(digits) >= 0
  {
    if digits != [] { ValueIsNat(digits[..|digits| - 1]); }
  }

  lemma {:induction false} ParsedEnds(field: Bytes, acc: nat) returns (n: nat)
    requires ParseOct(field, acc).Some?
    ensures DigitsEnd(field, n)
  {
    if field == [] || field[0] == SPACE || field[0] == 0 {
      n := 0;
    } else {
      n := ParsedEnds(field[1..], 8 * acc + (field[0] - ZERO));
      assert forall i :: 0 < i < n + 1 ==> field[i] == field[1..][i - 1];
      n := n + 1;
    }
  }

  /** What a numeric field reads as. */
  lemma ParseExactly(field: Bytes, v: nat)
    ensures ParseOct(field, 0) == Some(v) <==> NumberIn(field, v)
    ensures ParseOct(field, 0).None? <==> forall w :: !NumberIn(field, w)
  {
    assert field[..0] == [] && field[0..] == field;
    if n: nat :| DigitsEnd(field, n) {
      ParseFrom(field, 0, n);
      assert NumberIn(field, OctalValue(field[..n]));
      forall w ensures NumberIn(field, w) <==> w == OctalValue(field[..n]) {
        if k: nat :| DigitsEnd(field, k) && w == OctalValue(field[..k]) { DigitsEndOnce(field, n, k); }
      }
    } else if ParseOct(field, 0).Some? {
      var n := ParsedEnds(field, 0);
    }
  }

  /** Text up to the first NUL, or the whole field. */
  predicate TextIn(field: Bytes, text: Bytes) {
    |text| <= |field| && field[..|text|] == text && 0 !in text && (|text| == |field| || field[|text|] == 0)
  }

  lemma {:induction false} CStringExactly(field: Bytes, text: Bytes)
    ensures CString(field) == text <==> TextIn(field, text)
  {
    if field == [] || field[0] == 0 {
      assert 0 < |text| <= |field| && field[..|text|] == text ==> text[0] == field[0] && text[0] in text;
    } else {
      if text != [] {
        CStringExactly(field[1..], text[1..]);
        if TextIn(field, text) {
          assert text[0] == field[..|text|][0] && field[1..][..|text| - 1] == field[..|text|][1..];
          assert forall c :: c in text[1..] ==> c in text;
          assert text == [text[0]] + text[1..];
        }
        if CString(field) == text {
          assert text[1..] == CString(field[1..]);
          assert field[..|text|] == [field[0]] + field[1..][..|text| - 1];
        }
      }
    }
  }

  // ---------------------------------------------------------------- one entry

  /** The type flag of a file is '0', NUL or '7', that of a directory '5'. */
  predicate FlagOf(flag: int, isDir: bool) {
    if isDir then flag == 53 else flag == 48 || flag == 0 || flag == 55
  }

  ghost predicate NameIn(h: Bytes, name: Path)
    requires |h| == 512
  {
    exists n, prefix :: TextIn(h[0..100], n) && TextIn(h[345..500], prefix)
      && name == if prefix == [] then n else prefix + [47] + n
  }

  /** The header is one the reader takes: magic, checksum, size, a known flag, a name that normalises to the path. */
  ghost predicate HeaderOf(h: Bytes, e: Entry, size: nat) {
    && |h| == 512
    && h[257..263] == [117, 115, 116, 97, 114, 0]
    && NumberIn(h[148..156], TarLayout.SumWithSpaces(h))
    && NumberIn(h[124..136], size)
    && FlagOf(h[156], e.isDir)
    && (exists name :: NameIn(h, name) && NormalizeTarPath(name) == Ok(e.path))
    && (if exists v :: NumberIn(h[100..108], v) then exists v: nat :: NumberIn(h[100..108], v) && e.mode == v % 4096
        else e.mode == 0)
  }

  /** The header, and how many bytes of data it says follow: none for a directory, whatever its size field. */
  ghost predicate Announces(h: Bytes, e: Entry, size: nat, used: nat) {
    HeaderOf(h, e, size) && used == if e.isDir then 0 else size
  }

  lemma SumIs(h: Bytes)
    requires |h| == 512
    ensures Checksum(h[..148], h[156..]) == TarLayout.SumWithSpaces(h)
  {
    var blank: Bytes := [32, 32, 32, 32, 32, 32, 32, 32];
    SumConcat(h[..148] + blank, h[156..]);
    SumConcat(h[..148], blank);
    TarLayout.EightSpaces();
  }

  lemma NameIs(h: Bytes, name: Path)
    requires |h| == 512
    ensures NameIn(h, name) <==> name == Decode(h).name
  {
    var n, prefix := CString(h[..100]), CString(h[345..500]);
    assert h[..100] == h[0..100];
    CStringExactly(h[0..100], n);
    CStringExactly(h[345..500], prefix);
    if NameIn(h, name) {
      var n', prefix' :| TextIn(h[0..100], n') && TextIn(h[345..500], prefix')
        && name == if prefix' == [] then n' else prefix' + [47] + n';
      CStringExactly(h[0..100], n');
      CStringExactly(h[345..500], prefix');
    }
  }

  lemma ModeIs(h: Bytes, mode: nat)
    requires |h| == 512
    ensures (if exists v :: NumberIn(h[100..108], v) then exists v: nat :: NumberIn(h[100..108], v) && mode == v % 4096
             else mode == 0)
            <==> mode == if Decode(h).mode.Some? then Decode(h).mode.value % MODE_MASK else 0
  {
    var p := ParseOct(h[100..108], 0);
    if p.Some? { ParseExactly(h[100..108], p.value); }
    else { ParseExactly(h[100..108], 0); }
    forall v: nat ensures p == Some(v) <==> NumberIn(h[100..108], v) { ParseExactly(h[100..108], v); }
  }

  lemma ChecksumIs(h: Bytes)
    requires |h| == 512
    ensures ChecksumOk(h) <==> NumberIn(h[148..156], TarLayout.SumWithSpaces(h))
  {
    SumIs(h);
    ParseExactly(h[148..156], Checksum(h[..148], h[156..]));
  }

  lemma SizeIs(h: Bytes, size: nat)
    requires |h| == 512
    ensures Decode(h).size == Some(size) <==> NumberIn(h[124..136], size)
  {
    ParseExactly(h[124..136], size);
  }

  /** The reader's tests, gathered. */
  ghost predicate Taken(h: Bytes, d: Decoded, e: Entry, size: nat, used: nat) {
    && |h| == 512 && HasMagic(h) && ChecksumOk(h) && d.size == Some(size) && FlagOf(d.flag as int, e.isDir)
    && NormalizeTarPath(d.name) == Ok(e.path)
    && e.mode == (if d.mode.Some? then d.mode.value % MODE_MASK else 0)
    && used == if e.isDir then 0 else size
  }

  lemma HeaderTaken(h: Bytes, seen: set<Path>, e: Entry, used: nat)
    requires |h| == 512 && e.data == []
    ensures ReadHeader(h, seen) == Ok((e, used))
       <==> e.path !in seen && exists size: nat :: Taken(h, Decode(h), e, size, used)
  {
    if ReadHeader(h, seen) == Ok((e, used)) { assert Taken(h, Decode(h), e, Decode(h).size.value, used); }
  }

  lemma TakenIs(h: Bytes, e: Entry, size: nat, used: nat)
    requires |h| == 512
    ensures Taken(h, Decode(h), e, size, used) <==> Announces(h, e, size, used)
  {
    ChecksumIs(h);
    ModeIs(h, e.mode);
    SizeIs(h, size);
    forall name ensures NameIn(h, name) <==> name == Decode(h).name { NameIs(h, name); }
  }

  /** One header: what the reader makes of it, exactly. A directory's size is not its data's. */
  lemma HeaderExactly(h: Bytes, seen: set<Path>, e: Entry, used: nat)
    requires |h| == 512 && e.data == []
    ensures ReadHeader(h, seen) == Ok((e, used))
       <==> e.path !in seen && exists size: nat :: Announces(h, e, size, used)
  {
    HeaderTaken(h, seen, e, used);
    forall size: nat ensures Taken(h, Decode(h), e, size, used) <==> Announces(h, e, size, used) {
      TakenIs(h, e, size, used);
    }
  }

  // ---------------------------------------------------------------- the archive

  predicate AllZero(b: Bytes) {
    forall i :: 0 <= i < |b| ==> b[i] == 0
  }

  ghost predicate Describes(h: Bytes, e: Entry) {
    exists size: nat :: Announces(h, e, size, |e.data|)
  }

  /** At this place stands an entry: a header for it, and its data right behind. */
  ghost predicate EntryAt(b: Bytes, off: nat, e: Entry) {
    && off + 512 + |e.data| <= |b|
    && b[off + 512..off + 512 + |e.data|] == e.data
    && Describes(b[off..off + 512], e)
  }

  /** From this place on the archive holds these entries, none of a path seen before, and then a block of zeros. */
  ghost predicate ArchiveFrom(b: Bytes, off: nat, es: seq<Entry>, seen: set<Path>)
    decreases |es|
  {
    if es == [] then off + 512 <= |b| && AllZero(b[off..off + 512])
    else
      && EntryAt(b, off, es[0]) && es[0].path !in seen
      && ArchiveFrom(b, off + 512 + Padded(|es[0].data|), es[1..], seen + {es[0].path})
  }

  lemma HeaderForAnyData(h: Bytes, e: Entry, data: Bytes, size: nat, used: nat)
    ensures Announces(h, e, size, used) <==> Announces(h, e.(data := data), size, used)
  {
  }

  lemma MagicStands(h: Bytes, e: Entry, size: nat)
    requires HeaderOf(h, e, size)
    ensures !AllZero(h)
  {
    assert h[257] == h[257..263][0];
  }

  lemma ReadHeaderOf(h: Bytes, seen: set<Path>, e: Entry)
    requires |h| == 512
    ensures ReadHeader(h, seen) == Ok((e.(data := []), |e.data|))
       <==> e.path !in seen && Describes(h, e)
    ensures Describes(h, e) ==> !AllZero(h)
  {
    var bare := e.(data := []);
    HeaderExactly(h, seen, bare, |e.data|);
    forall size: nat ensures Announces(h, e, size, |e.data|) <==> Announces(h, bare, size, |e.data|) {
      HeaderForAnyData(h, e, [], size, |e.data|);
    }
    if size: nat :| Announces(h, e, size, |e.data|) { MagicStands(h, e, size); }
  }

  lemma HeaderHasNoData(h: Bytes, seen: set<Path>)
    requires |h| == 512 && ReadHeader(h, seen).Ok?
    ensures ReadHeader(h, seen).value.0.data == []
  {
  }

  lemma ZeroStep(b: Bytes, off: nat, seen: set<Path>)
    requires off + 512 <= |b|
    ensures FirstStep(b[off..], seen) == End <==> AllZero(b[off..off + 512])
  {
    assert b[off..][..512] == b[off..off + 512];
  }

  /** The first step of the reader, at any place of the bytes. */
  lemma StepExactly(b: Bytes, off: nat, seen: set<Path>, e: Entry)
    requires off + 512 <= |b|
    ensures FirstStep(b[off..], seen) == More(e, 512 + Padded(|e.data|)) <==> EntryAt(b, off, e) && e.path !in seen
  {
    var rest, h := b[off..], b[off..off + 512];
    assert rest[..512] == h;
    ReadHeaderOf(h, seen, e);
    if 512 + |e.data| <= |rest| { SliceOfSlice(b, off, |e.data|); }
    StepOf(rest, h, seen, e);
  }

  lemma SliceOfSlice(b: Bytes, off: nat, n: nat)
    requires off + 512 + n <= |b|
    ensures b[off..][512..512 + n] == b[off + 512..off + 512 + n]
  {
  }

  lemma StepOf(rest: Bytes, h: Bytes, seen: set<Path>, e: Entry)
    requires |rest| >= 512 && h == rest[..512]
    ensures FirstStep(rest, seen) == More(e, 512 + Padded(|e.data|))
       <==> && !AllZero(h) && ReadHeader(h, seen) == Ok((e.(data := []), |e.data|))
            && 512 + |e.data| <= |rest| && rest[512..512 + |e.data|] == e.data
  {
    if ReadHeader(h, seen).Ok? { HeaderHasNoData(h, seen); }
  }

  lemma UsedIsPadded(rest: Bytes, seen: set<Path>)
    requires |rest| >= 512 && FirstStep(rest, seen).More?
    ensures FirstStep(rest, seen).used == 512 + Padded(|FirstStep(rest, seen).entry.data|)
  {
  }

  /** Reading on from a place, in terms of the first step taken there. */
  lemma ReadsAt(rest: Bytes, seen: set<Path>, es: seq<Entry>, first: bool, behind: bool)
    requires |rest| >= 512 && es != []
    requires first <==> FirstStep(rest, seen) == More(es[0], 512 + Padded(|es[0].data|))
    requires behind <==> ReadEntries(Drop(rest, 512 + Padded(|es[0].data|)), seen + {es[0].path}) == Ok(es[1..])
    ensures ReadEntries(rest, seen) == Ok(es) <==> first && behind
  {
    if FirstStep(rest, seen).More? {
      UsedIsPadded(rest, seen);
      var got := FirstStep(rest, seen).entry;
      var tail := ReadEntries(Drop(rest, 512 + Padded(|got.data|)), seen + {got.path});
      assert ReadEntries(rest, seen) == Prepend(got, tail);
      if tail.Ok? { SameHead(got, tail.value, es); }
    }
  }

  lemma SameHead(a: Entry, xs: seq<Entry>, es: seq<Entry>)
    requires es != []
    ensures [a] + xs == es <==> a == es[0] && xs == es[1..]
  {
    assert ([a] + xs)[1..] == xs && es == [es[0]] + es[1..];
  }

  lemma DropTwice(b: Bytes, off: nat, used: nat)
    requires off <= |b|
    ensures Drop(b, off) == b[off..] && Drop(b[off..], used) == Drop(b, off + used)
  {
  }

  /** One entry and the rest, by the reader. */
  lemma ReadsOne(b: Bytes, off: nat, seen: set<Path>, es: seq<Entry>, here: bool, behind: bool)
    requires off + 512 <= |b| && es != [] && (here <==> EntryAt(b, off, es[0]) && es[0].path !in seen)
    requires behind <==> ReadEntries(Drop(b, off + (512 + Padded(|es[0].data|))), seen + {es[0].path}) == Ok(es[1..])
    ensures ReadEntries(Drop(b, off), seen) == Ok(es) <==> here && behind
  {
    DropTwice(b, off, 512 + Padded(|es[0].data|));
    StepExactly(b, off, seen, es[0]);
    ReadsAt(b[off..], seen, es, here, behind);
  }

  lemma ReadsNone(b: Bytes, off: nat, seen: set<Path>)
    requires off + 512 <= |b|
    ensures ReadEntries(Drop(b, off), seen) == Ok([]) <==> AllZero(b[off..off + 512])
  {
    ZeroStep(b, off, seen);
  }

  lemma ShortEnds(b: Bytes, off: nat, seen: set<Path>, es: seq<Entry>)
    requires off + 512 > |b|
    ensures ReadEntries(Drop(b, off), seen) != Ok(es) && !ArchiveFrom(b, off, es, seen)
  {
    assert |Drop(b, off)| < 512;
  }

  /** One entry and the rest, by the layout. */
  lemma LaidOne(b: Bytes, off: nat, seen: set<Path>, es: seq<Entry>, here: bool, behind: bool)
    requires es != [] && (here <==> EntryAt(b, off, es[0]) && es[0].path !in seen)
    requires behind <==> ArchiveFrom(b, off + 512 + Padded(|es[0].data|), es[1..], seen + {es[0].path})
    ensures ArchiveFrom(b, off, es, seen) <==> here && behind
  {
  }

  /** What is read from a place on is what is laid out there. */
  lemma {:induction false} ReadsFrom(b: Bytes, off: nat, seen: set<Path>, es: seq<Entry>)
    ensures ReadEntries(Drop(b, off), seen) == Ok(es) <==> ArchiveFrom(b, off, es, seen)
    decreases |es|
  {
    if off + 512 > |b| {
      ShortEnds(b, off, seen, es);
    } else if es == [] {
      ReadsNone(b, off, seen);
    } else {
      var here, behind := ReadsRest(b, off, seen, es);
      ReadsOne(b, off, seen, es, here, behind);
      LaidOne(b, off, seen, es, here, behind);
    }
  }

  lemma {:induction false} ReadsRest(b: Bytes, off: nat, seen: set<Path>, es: seq<Entry>)
    returns (here: bool, behind: bool)
    requires es != []
    ensures here <==> EntryAt(b, off, es[0]) && es[0].path !in seen
    ensures behind <==> ReadEntries(Drop(b, off + (512 + Padded(|es[0].data|))), seen + {es[0].path}) == Ok(es[1..])
    ensures behind <==> ArchiveFrom(b, off + 512 + Padded(|es[0].data|), es[1..], seen + {es[0].path})
    decreases |es|, 0
  {
    here := EntryAt(b, off, es[0]) && es[0].path !in seen;
    behind := ArchiveFrom(b, off + 512 + Padded(|es[0].data|), es[1..], seen + {es[0].path});
    ReadsFrom(b, off + 512 + Padded(|es[0].data|), seen + {es[0].path}, es[1..]);
  }

  /**
   * The reader accepts exactly the archives whose entries follow one another from the first byte, with
   * distinct paths, up to a block of zeros, and none of whose files stands above another entry; it returns
   * those entries.
   */
  lemma ReadsExactly(b: Bytes, es: seq<Entry>)
    ensures ReadTar(b) == Ok(es) <==> ArchiveFrom(b, 0, es, {}) && !FileAboveEntry(es)
  {
    ReadsFrom(b, 0, {}, es);
    assert Drop(b, 0) == b;
  }
}
