/**
 * The text the printer writes, said without the printer: what stands for each code unit, how arrays and
 * objects grow by one element, in which order members stand, and that nothing blank is put in between.
 */
module JsonText {
  import opened Base
  import opened Lex
  import opened Json
  import opened JsonParser
  import opened JsonLaws

  // ---------------------------------------------------------------- strings

  /** The lower-case hexadecimal digit of k. */
  predicate LowerHex(x: int, k: int) {
    (0 <= k <= 9 && x == 48 + k) || (10 <= k <= 15 && x == 97 + (k - 10))
  }

  /** A control character or surrogate as backslash, u and its four digits, most significant first. */
  ghost predicate Numeric(t: Text, c: int) {
    && |t| == 8 && t[0] == 34 && t[1] == 92 && t[2] == 117 && t[7] == 34
    && exists k0, k1, k2, k3 ::
         && LowerHex(t[3], k0) && LowerHex(t[4], k1) && LowerHex(t[5], k2) && LowerHex(t[6], k3)
         && c == k0 * 4096 + k1 * 256 + k2 * 16 + k3
  }

  /** What stands for a code unit on its own: seven have a two-character form, the rest four digits or themselves. */
  lemma UnitText(c: CodeUnit)
    ensures c == 8 ==> Quote([c]) == [34, 92, 98, 34]
    ensures c == 9 ==> Quote([c]) == [34, 92, 116, 34]
    ensures c == 10 ==> Quote([c]) == [34, 92, 110, 34]
    ensures c == 12 ==> Quote([c]) == [34, 92, 102, 34]
    ensures c == 13 ==> Quote([c]) == [34, 92, 114, 34]
    ensures c == 34 ==> Quote([c]) == [34, 92, 34, 34]
    ensures c == 92 ==> Quote([c]) == [34, 92, 92, 34]
    ensures (c < 32 && c !in {8, 9, 10, 12, 13}) || 0xD800 <= c <= 0xDFFF ==> Numeric(Quote([c]), c)
    ensures c >= 32 && c != 34 && c != 92 && !(0xD800 <= c <= 0xDFFF) ==> Quote([c]) == [34, c, 34]
  {
    EscapeFirst([c]);
    assert [c][1..] == [] && EscapeUnit(c) + [] == EscapeUnit(c);
    if ShortEscape(c).Some? {
      assert [34] + [92, ShortEscape(c).value] + [34] == [34, 92, ShortEscape(c).value, 34];
    } else if c < 32 || IsHigh(c) || IsLow(c) {
      HexText(c);
    } else {
      assert [34] + [c] + [34] == [34, c, 34];
    }
  }

  lemma HexSum(c: CodeUnit)
    ensures c == c / 4096 * 4096 + c / 256 % 16 * 256 + c / 16 % 16 * 16 + c % 16
    ensures 0 <= c / 4096 < 16
  {
    var a := c / 16;
    var b := a / 16;
    assert b == c / 256 && b / 16 == c / 4096;
    assert c == 16 * a + c % 16 && a == 16 * b + a % 16 && b == 16 * (b / 16) + b % 16;
  }

  lemma HexText(c: CodeUnit)
    ensures Numeric([34] + ([92, 117] + Hex4(c)) + [34], c)
  {
    var h := Hex4(c);
    var t: Text := [34] + ([92, 117] + h) + [34];
    HexSum(c);
    assert t[3] == h[0] && t[4] == h[1] && t[5] == h[2] && t[6] == h[3];
    assert LowerHex(h[0], c / 4096) && LowerHex(h[1], c / 256 % 16);
    assert LowerHex(h[2], c / 16 % 16) && LowerHex(h[3], c % 16);
  }

  lemma EscapeFirst(s: Text)
    requires s != [] && !(|s| >= 2 && IsHigh(s[0]) && IsLow(s[1]))
    ensures Escape(s) == EscapeUnit(s[0]) + Escape(s[1..])
  {
  }

  lemma EscapePair(s: Text)
    requires |s| >= 2 && IsHigh(s[0]) && IsLow(s[1])
    ensures Escape(s) == [s[0], s[1]] + Escape(s[2..])
  {
  }

  /** A surrogate pair stands for itself. */
  lemma PairText(h: CodeUnit, l: CodeUnit)
    requires 0xD800 <= h < 0xDC00 <= l < 0xE000
    ensures Quote([h, l]) == [34, h, l, 34]
  {
    assert [h, l][2..] == [];
    assert [h, l] + Escape([]) == [h, l];
    assert [34] + [h, l] + [34] == [34, h, l, 34];
  }

  /** A text is printed piece by piece, wherever it is cut, except through a surrogate pair. */
  lemma {:induction false} EscapeConcat(a: Text, b: Text)
    requires a == [] || b == [] || !(0xD800 <= a[|a| - 1] < 0xDC00 <= b[0] < 0xE000)
    ensures Escape(a + b) == Escape(a) + Escape(b)
    decreases |a|
  {
    if a == [] {
      assert a + b == b && Escape(a) + Escape(b) == Escape(b);
    } else if b == [] {
      assert a + b == a && Escape(a) + [] == Escape(a);
    } else if |a| >= 2 && IsHigh(a[0]) && IsLow(a[1]) {
      assert (a + b)[2..] == a[2..] + b;
      EscapePair(a);
      EscapePair(a + b);
      EscapeConcat(a[2..], b);
      Regroup([a[0], a[1]], Escape(a[2..]), Escape(b));
    } else {
      assert (a + b)[1..] == a[1..] + b;
      EscapeFirst(a);
      EscapeFirst(a + b);
      EscapeConcat(a[1..], b);
      Regroup(EscapeUnit(a[0]), Escape(a[1..]), Escape(b));
    }
  }

  lemma Regroup(a: Text, b: Text, c: Text)
    ensures a + (b + c) == a + b + c
  {
  }

  lemma QuoteConcat(a: Text, b: Text)
    requires a == [] || b == [] || !(0xD800 <= a[|a| - 1] < 0xDC00 <= b[0] < 0xE000)
    ensures Quote(a + b) == Quote(a)[..|Quote(a)| - 1] + Quote(b)[1..]
  {
    EscapeConcat(a, b);
    QuotedConcat(Escape(a), Escape(b));
  }

  lemma QuotedConcat(x: Text, y: Text)
    ensures var q := [QUOTE];
            q + (x + y) + q == (q + x + q)[..|q + x + q| - 1] + (q + y + q)[1..]
  {
    var q := [QUOTE];
    assert (q + x + q)[..|q + x + q| - 1] == q + x;
    assert (q + y + q)[1..] == y + q;
  }

  // ---------------------------------------------------------------- arrays and objects

  lemma AtomsText(s: Text)
    ensures Canonical(Null) == Codes("null")
    ensures Canonical(Bool(true)) == Codes("true") && Canonical(Bool(false)) == Codes("false")
    ensures Canonical(Str(s)) == Quote(s)
    ensures Canonical(Arr([])) == Codes("[]") && Canonical(Obj([])) == Codes("{}")
  {
  }

  lemma {:induction false} JoinPush(parts: seq<Text>, p: Text)
    ensures Join(parts + [p]) == if parts == [] then p else Join(parts) + [COMMA] + p
  {
    if |parts| == 0 {
      assert parts + [p] == [p];
    } else if |parts| == 1 {
      assert (parts + [p])[1..] == [p];
    } else {
      assert (parts + [p])[1..] == parts[1..] + [p];
      JoinPush(parts[1..], p);
      var h := parts[0] + [COMMA];
      assert h + (Join(parts[1..]) + [COMMA] + p) == h + Join(parts[1..]) + [COMMA] + p;
    }
  }

  lemma {:induction false} ItemsPush(items: seq<Json>, x: Json)
    requires ValidItems(items) && Valid(x)
    ensures ValidItems(items + [x]) && CanonicalItems(items + [x]) == CanonicalItems(items) + [Canonical(x)]
  {
    if items == [] {
      assert items + [x] == [x];
    } else {
      assert (items + [x])[1..] == items[1..] + [x];
      ItemsPush(items[1..], x);
    }
  }

  /** One more item: the closing bracket makes way for a comma, if there was an item, and the item's text. */
  lemma ArrayGrows(items: seq<Json>, x: Json)
    requires ValidItems(items) && Valid(x)
    ensures Valid(Arr(items + [x]))
    ensures var before := Canonical(Arr(items));
            Canonical(Arr(items + [x]))
            == before[..|before| - 1] + (if items == [] then [] else [44]) + Canonical(x) + [93]
  {
    ItemsPush(items, x);
    JoinPush(CanonicalItems(items), Canonical(x));
    Bracketed(LBRACKET, RBRACKET, Canonical(Arr(items)), Join(CanonicalItems(items)), Canonical(x), items == []);
  }

  /** The key stands after every other. */
  ghost predicate Last(ms: seq<Member>, key: Text) {
    forall i :: 0 <= i < |ms| ==> Less(ms[i].key, key)
  }

  lemma {:induction false} MembersPush(ms: seq<Member>, key: Text, v: Json)
    requires ValidMembers(ms) && Valid(v)
    ensures ValidMembers(ms + [Member(key, Some(v))])
    ensures CanonicalMembers(ms + [Member(key, Some(v))]) == CanonicalMembers(ms) + [(key, Canonical(v))]
  {
    var m := Member(key, Some(v));
    if ms == [] {
      assert ms + [m] == [m] && [m][1..] == [];
    } else {
      assert (ms + [m])[1..] == ms[1..] + [m];
      MembersPush(ms[1..], key, v);
    }
  }

  lemma {:induction false} SortPush<T>(xs: seq<(Text, T)>, x: (Text, T))
    requires forall i :: 0 <= i < |xs| ==> Less(xs[i].0, x.0)
    ensures SortKeyed(xs + [x]) == SortKeyed(xs) + [x]
  {
    if xs == [] {
      assert xs + [x] == [x] && [x][1..] == xs;
    } else {
      assert (xs + [x])[1..] == xs[1..] + [x];
      SortPush(xs[1..], x);
      InsertBefore(xs[0], SortKeyed(xs[1..]), x);
    }
  }

  lemma {:induction false} InsertBefore<T>(y: (Text, T), xs: seq<(Text, T)>, x: (Text, T))
    requires Less(y.0, x.0)
    ensures InsertKeyed(y, xs + [x]) == InsertKeyed(y, xs) + [x]
  {
    if xs == [] {
      LessAsymmetric(y.0, x.0);
      assert xs + [x] == [x];
    } else {
      assert (xs + [x])[1..] == xs[1..] + [x];
      InsertBefore(y, xs[1..], x);
    }
  }

  lemma {:induction false} FieldsPush(ps: seq<(Text, Text)>, p: (Text, Text))
    ensures Fields(ps + [p]) == Fields(ps) + [Field(p)]
  {
    if ps == [] {
      assert ps + [p] == [p] && [p][1..] == [];
    } else {
      assert (ps + [p])[1..] == ps[1..] + [p];
      FieldsPush(ps[1..], p);
    }
  }

  lemma PrintedBefore(ms: seq<Member>, key: Text)
    requires ValidMembers(ms) && Last(ms, key)
    ensures forall i :: 0 <= i < |CanonicalMembers(ms)| ==> Less(CanonicalMembers(ms)[i].0, key)
  {
    forall i | 0 <= i < |CanonicalMembers(ms)| ensures Less(CanonicalMembers(ms)[i].0, key) {
      PrintedMember(ms, CanonicalMembers(ms)[i]);
    }
  }

  lemma KeysPush(ms: seq<Member>, m: Member)
    requires Distinct(KeysOf(ms)) && Last(ms, m.key)
    ensures Distinct(KeysOf(ms + [m]))
  {
    forall i, j | 0 <= i < j < |ms| + 1 ensures KeysOf(ms + [m])[i] != KeysOf(ms + [m])[j] {
      if j < |ms| { assert KeysOf(ms)[i] != KeysOf(ms)[j]; } else { LessIrreflexive(m.key); }
    }
  }

  ghost predicate NoneDefined(ms: seq<Member>) {
    forall i :: 0 <= i < |ms| ==> ms[i].value.None?
  }

  lemma {:induction false} NothingPrinted(ms: seq<Member>)
    requires ValidMembers(ms)
    ensures CanonicalMembers(ms) == [] <==> NoneDefined(ms)
  {
    if ms != [] {
      NothingPrinted(ms[1..]);
      assert NoneDefined(ms) <==> ms[0].value.None? && NoneDefined(ms[1..]) by {
        assert forall i :: 0 <= i < |ms[1..]| ==> ms[1..][i] == ms[i + 1];
        assert forall i :: 0 < i < |ms| ==> ms[i] == ms[1..][i - 1];
      }
    }
  }

  /** One more member, with the last key: a comma, if a member was printed before, then key, colon and value. */
  lemma ObjectGrows(ms: seq<Member>, key: Text, v: Json)
    requires Valid(Obj(ms)) && Valid(v) && Last(ms, key)
    ensures Valid(Obj(ms + [Member(key, Some(v))]))
    ensures var before := Canonical(Obj(ms));
            Canonical(Obj(ms + [Member(key, Some(v))]))
            == before[..|before| - 1]
               + (if NoneDefined(ms) then [] else [44]) + (Quote(key) + [58] + Canonical(v)) + [125]
  {
    var ps := SortKeyed(CanonicalMembers(ms));
    var p := (key, Canonical(v));
    KeysPush(ms, Member(key, Some(v)));
    MembersPush(ms, key, v);
    PrintedBefore(ms, key);
    SortPush(CanonicalMembers(ms), p);
    FieldsPush(ps, p);
    JoinPush(Fields(ps), Field(p));
    NothingPrinted(ms);
    SortedEmpty(CanonicalMembers(ms));
    Bracketed(LBRACE, RBRACE, Canonical(Obj(ms)), Join(Fields(ps)), Field(p), ps == []);
  }

  lemma SortedFrom<T>(xs: seq<(Text, T)>, i: nat)
    requires i < |SortKeyed(xs)|
    ensures SortKeyed(xs)[i] in xs
  {
    SortKeyedElements(xs);
    assert SortKeyed(xs)[i] in multiset(SortKeyed(xs));
  }

  lemma SortedEmpty<T>(xs: seq<(Text, T)>)
    ensures SortKeyed(xs) == [] <==> xs == []
  {
    SortKeyedElements(xs);
    if xs != [] { assert xs[0] in multiset(xs) && xs[0] in multiset(SortKeyed(xs)); }
  }

  lemma Bracketed(open: CodeUnit, close: CodeUnit, before: Text, inner: Text, more: Text, first: bool)
    requires before == [open] + inner + [close] && (first ==> inner == [])
    ensures [open] + (if first then more else inner + [COMMA] + more) + [close]
            == before[..|before| - 1] + (if first then [] else [44]) + more + [close]
  {
    assert before[..|before| - 1] == [open] + inner;
    if first {
      assert [open] + inner + [] + more == [open] + more;
    } else {
      assert [open] + (inner + [COMMA] + more) == [open] + inner + [COMMA] + more;
    }
  }

  // ---------------------------------------------------------------- the order of members

  /** Everywhere in the value, members are defined and stand in ascending order of their keys. */
  ghost predicate Ordered(v: Json)
    decreases v
  {
    match v
    case Arr(items) => forall i :: 0 <= i < |items| ==> Ordered(items[i])
    case Obj(ms) =>
      && (forall i :: 0 <= i < |ms| ==> ms[i].value.Some? && Ordered(ms[i].value.value))
      && forall i, j :: 0 <= i < j < |ms| ==> Less(ms[i].key, ms[j].key)
    case _ => true
  }

  /** So the printed text has its members in order, by ParsePrinted, and says the same value. */
  lemma {:induction false} NormIsOrdered(v: Json)
    requires Valid(v)
    ensures Ordered(Norm(v))
    decreases v
  {
    match v
    case Arr(items) =>
      forall i | 0 <= i < |items| ensures Ordered(NormItems(items)[i]) {
        NormItemAt(items, i);
        ItemValid(items, i);
        NormIsOrdered(items[i]);
      }
    case Obj(ms) =>
      var xs := SortKeyed(NormMembers(ms));
      NormedKeys(ms);
      SortKeyedFacts(NormMembers(ms));
      forall i | 0 <= i < |xs| ensures Ordered(xs[i].1) {
        SortedFrom(NormMembers(ms), i);
        NormedMember(ms, xs[i]);
        var k :| 0 <= k < |ms| && ms[k].key == xs[i].0 && ms[k].value.Some? && Norm(ms[k].value.value) == xs[i].1;
        MemberValid(ms, k);
        NormIsOrdered(ms[k].value.value);
      }
      forall i, j | 0 <= i < j < |Members(xs)| ensures Less(Members(xs)[i].key, Members(xs)[j].key) {
        assert Less(xs[i].0, xs[j].0);
      }
    case _ =>
  }

  // ---------------------------------------------------------------- nothing blank outside strings

  predicate Blank(c: int) {
    c == 9 || c == 10 || c == 13 || c == 32
  }

  /** No blank stands outside a string; `inStr` and `esc` say where the text begins. */
  predicate Tight(s: Text, inStr: bool, esc: bool) {
    if s == [] then true
    else if inStr then
      if esc then Tight(s[1..], true, false)
      else if s[0] == BACKSLASH then Tight(s[1..], true, true)
      else Tight(s[1..], s[0] != QUOTE, false)
    else if s[0] == QUOTE then Tight(s[1..], true, false)
    else !Blank(s[0]) && Tight(s[1..], false, false)
  }

  /** The piece neither puts a blank outside a string nor leaves one open. */
  ghost predicate Solid(p: Text) {
    forall rest: Text :: Tight(p + rest, false, false) <==> Tight(rest, false, false)
  }

  lemma SolidOne(c: CodeUnit)
    requires c != QUOTE && !Blank(c)
    ensures Solid([c])
  {
    forall rest: Text ensures Tight([c] + rest, false, false) <==> Tight(rest, false, false) {
      assert ([c] + rest)[1..] == rest;
    }
  }

  lemma SolidConcat(a: Text, b: Text)
    requires Solid(a) && Solid(b)
    ensures Solid(a + b)
  {
    forall rest: Text ensures Tight(a + b + rest, false, false) <==> Tight(rest, false, false) {
      assert a + b + rest == a + (b + rest);
    }
  }

  lemma SolidNothing()
    ensures Solid([])
  {
    forall rest: Text ensures Tight([] + rest, false, false) <==> Tight(rest, false, false) {
      assert [] + rest == rest;
    }
  }

  lemma {:induction false} SolidRun(s: Text)
    requires forall c :: c in s ==> c != QUOTE && !Blank(c)
    ensures Solid(s)
  {
    if s == [] {
      SolidNothing();
    } else {
      assert s[0] in s && forall c :: c in s[1..] ==> c in s;
      SolidOne(s[0]);
      SolidRun(s[1..]);
      SolidConcat([s[0]], s[1..]);
      assert s == [s[0]] + s[1..];
    }
  }

  /** One unit of an open string, however written, leaves it open. */
  lemma UnitInside(p: Text, rest: Text)
    requires || (|p| == 1 && p[0] != QUOTE && p[0] != BACKSLASH)
             || (|p| == 2 && p[0] == BACKSLASH)
    ensures Tight(p + rest, true, false) <==> Tight(rest, true, false)
  {
    assert (p + rest)[1..] == p[1..] + rest;
    if |p| == 2 { assert (p[1..] + rest)[1..] == rest; } else { assert p[1..] + rest == rest; }
  }

  lemma {:induction false} HexInside(h: Text, rest: Text)
    requires forall c :: c in h ==> c != QUOTE && c != BACKSLASH
    ensures Tight(h + rest, true, false) <==> Tight(rest, true, false)
  {
    if h == [] {
      assert h + rest == rest;
    } else {
      assert h + rest == [h[0]] + (h[1..] + rest);
      assert h[0] in h && forall c :: c in h[1..] ==> c in h;
      UnitInside([h[0]], h[1..] + rest);
      HexInside(h[1..], rest);
    }
  }

  lemma EscapedInside(c: CodeUnit, rest: Text)
    ensures Tight(EscapeUnit(c) + rest, true, false) <==> Tight(rest, true, false)
  {
    if ShortEscape(c).None? && (c < 32 || IsHigh(c) || IsLow(c)) {
      var h := Hex4(c);
      assert EscapeUnit(c) + rest == [BACKSLASH, 117] + (h + rest);
      UnitInside([BACKSLASH, 117], h + rest);
      forall x | x in h ensures x != QUOTE && x != BACKSLASH {}
      HexInside(h, rest);
    } else {
      UnitInside(EscapeUnit(c), rest);
    }
  }

  lemma {:induction false} StringInside(s: Text, rest: Text)
    ensures Tight(Escape(s) + rest, true, false) <==> Tight(rest, true, false)
    decreases |s|
  {
    if s == [] {
      assert Escape(s) + rest == rest;
    } else if |s| >= 2 && IsHigh(s[0]) && IsLow(s[1]) {
      assert Escape(s) + rest == [s[0], s[1]] + (Escape(s[2..]) + rest);
      HexInside([s[0], s[1]], Escape(s[2..]) + rest);
      StringInside(s[2..], rest);
    } else {
      assert Escape(s) + rest == EscapeUnit(s[0]) + (Escape(s[1..]) + rest);
      EscapedInside(s[0], Escape(s[1..]) + rest);
      StringInside(s[1..], rest);
    }
  }

  lemma SolidString(s: Text)
    ensures Solid(Quote(s))
  {
    forall rest: Text ensures Tight(Quote(s) + rest, false, false) <==> Tight(rest, false, false) {
      var inside := Escape(s) + ([QUOTE] + rest);
      assert Quote(s) + rest == [QUOTE] + inside;
      assert (Quote(s) + rest)[1..] == inside;
      StringInside(s, [QUOTE] + rest);
      assert ([QUOTE] + rest)[1..] == rest;
    }
  }

  lemma {:induction false} SolidJoin(parts: seq<Text>)
    requires forall i :: 0 <= i < |parts| ==> Solid(parts[i])
    ensures Solid(Join(parts))
  {
    if |parts| == 0 {
      SolidNothing();
    } else if |parts| > 1 {
      SolidJoin(parts[1..]);
      SolidOne(COMMA);
      SolidConcat(parts[0], [COMMA]);
      SolidConcat(parts[0] + [COMMA], Join(parts[1..]));
    }
  }

  lemma SolidBetween(open: CodeUnit, p: Text, close: CodeUnit)
    requires Solid(p) && open != QUOTE && !Blank(open) && close != QUOTE && !Blank(close)
    ensures Solid([open] + p + [close])
  {
    SolidOne(open);
    SolidOne(close);
    SolidConcat([open], p);
    SolidConcat([open] + p, [close]);
  }

  lemma SolidField(p: (Text, Text))
    requires Solid(p.1)
    ensures Solid(Field(p))
  {
    SolidString(p.0);
    SolidOne(COLON);
    SolidConcat(Quote(p.0), [COLON]);
    SolidConcat(Quote(p.0) + [COLON], p.1);
  }

  /** The printed value puts no blank outside its strings. */
  lemma {:induction false} SolidValue(v: Json)
    requires Valid(v)
    ensures Solid(Canonical(v))
    decreases v
  {
    match v
    case Null => SolidRun(NULL);
    case Bool(b) => SolidRun(TRUE); SolidRun(FALSE);
    case Num(n) => SolidRun(n);
    case Str(s) => SolidString(s);
    case Arr(items) =>
      forall i | 0 <= i < |items| ensures Solid(CanonicalItems(items)[i]) {
        ItemValid(items, i);
        SolidValue(items[i]);
      }
      SolidJoin(CanonicalItems(items));
      SolidBetween(LBRACKET, Join(CanonicalItems(items)), RBRACKET);
    case Obj(ms) =>
      var ps := SortKeyed(CanonicalMembers(ms));
      PrintedKeys(ms);
      SortKeyedFacts(CanonicalMembers(ms));
      forall i | 0 <= i < |ps| ensures Solid(Fields(ps)[i]) {
        SortedFrom(CanonicalMembers(ms), i);
        PrintedMember(ms, ps[i]);
        var k :| 0 <= k < |ms| && ms[k].key == ps[i].0 && ms[k].value.Some? && Valid(ms[k].value.value)
                 && Canonical(ms[k].value.value) == ps[i].1;
        SolidValue(ms[k].value.value);
        SolidField(ps[i]);
      }
      SolidJoin(Fields(ps));
      SolidBetween(LBRACE, Join(Fields(ps)), RBRACE);
  }

  lemma NoBlanks(v: Json)
    requires Valid(v)
    ensures Tight(Canonical(v), false, false)
  {
    SolidValue(v);
    assert Canonical(v) + [] == Canonical(v);
  }
}
