/** A JSON parser after RFC 8259, and the round trip through the printer. */
module JsonParser {
  import opened Base
  import opened Lex
  import opened Json

  predicate IsSpace(c: int) { c == 9 || c == 10 || c == 13 || c == 32 }

  function SkipSpace(s: Text): (r: Text)
    ensures |r| <= |s|
  {
    if s != [] && IsSpace(s[0]) then SkipSpace(s[1..]) else s
  }

  // ---------------------------------------------------------------- strings

  function HexValue(c: int): Option<int> {
    if IsDigit(c) then Some(c - 48)
    else if 97 <= c <= 102 then Some(c - 87)
    else if 65 <= c <= 70 then Some(c - 55)
    else None
  }

  function ParseHex4(s: Text): Option<CodeUnit> {
    if |s| < 4 || HexValue(s[0]).None? || HexValue(s[1]).None? || HexValue(s[2]).None? || HexValue(s[3]).None? then None
    else Some(HexValue(s[0]).value * 4096 + HexValue(s[1]).value * 256 + HexValue(s[2]).value * 16
              + HexValue(s[3]).value)
  }

  function Unescape(c: CodeUnit): Option<CodeUnit> {
    if c == 98 then Some(8) else if c == 116 then Some(9) else if c == 110 then Some(10)
    else if c == 102 then Some(12) else if c == 114 then Some(13)
    else if c == QUOTE || c == BACKSLASH || c == 47 then Some(c) else None
  }

  /** One character of a string, escaped or not. */
  function ParseUnit(s: Text): (r: Option<(CodeUnit, Text)>)
    ensures r.Some? ==> |r.value.1| < |s|
  {
    if s == [] || s[0] < 32 || s[0] == QUOTE then None
    else if s[0] != BACKSLASH then Some((s[0], s[1..]))
    else if |s| < 2 then None
    else if s[1] == 117 then
      match ParseHex4(s[2..])
      case None => None
      case Some(c) => Some((c, s[6..]))
    else
      match Unescape(s[1])
      case None => None
      case Some(c) => Some((c, s[2..]))
  }

  /** The rest of a string, after its opening quote. */
  function ParseString(s: Text): (r: Option<(Text, Text)>)
    ensures r.Some? ==> |r.value.1| < |s|
    decreases |s|
  {
    if s != [] && s[0] == QUOTE then Some(([], s[1..]))
    else
      match ParseUnit(s)
      case None => None
      case Some(u) =>
        match ParseString(u.1)
        case None => None
        case Some(t) => Some(([u.0] + t.0, t.1))
  }

  // ---------------------------------------------------------------- values

  function NumRun(s: Text): (n: nat)
    ensures n <= |s|
  {
    if s != [] && NumChar(s[0]) then 1 + NumRun(s[1..]) else 0
  }

  function ParseNumber(s: Text): (r: Option<(Json, Text)>)
    ensures r.Some? ==> |r.value.1| < |s|
  {
    var n := NumRun(s);
    if n > 0 && ValidNumber(s[..n]) then Some((Num(s[..n]), s[n..])) else None
  }

  function ParseWord(w: Text, v: Json, s: Text): (r: Option<(Json, Text)>)
    requires w != []
    ensures r.Some? ==> |r.value.1| < |s|
  {
    if |w| <= |s| && s[..|w|] == w then Some((v, s[|w|..])) else None
  }

  function ParseValue(s: Text): (r: Option<(Json, Text)>)
    ensures r.Some? ==> |r.value.1| < |s|
    decreases |s|, 0
  {
    var t := SkipSpace(s);
    if t == [] then None
    else if t[0] == LBRACE then
      var u := SkipSpace(t[1..]);
      if u != [] && u[0] == RBRACE then Some((Obj([]), u[1..]))
      else
        match ParseMembers(t[1..])
        case None => None
        case Some(m) => Some((Obj(m.0), m.1))
    else if t[0] == LBRACKET then
      var u := SkipSpace(t[1..]);
      if u != [] && u[0] == RBRACKET then Some((Arr([]), u[1..]))
      else
        match ParseItems(t[1..])
        case None => None
        case Some(m) => Some((Arr(m.0), m.1))
    else if t[0] == QUOTE then
      match ParseString(t[1..])
      case None => None
      case Some(m) => Some((Str(m.0), m.1))
    else if t[0] == 110 then ParseWord(NULL, Null, t)
    else if t[0] == 116 then ParseWord(TRUE, Bool(true), t)
    else if t[0] == 102 then ParseWord(FALSE, Bool(false), t)
    else ParseNumber(t)
  }

  function ParseItems(s: Text): (r: Option<(seq<Json>, Text)>)
    ensures r.Some? ==> |r.value.1| < |s|
    decreases |s|, 1
  {
    match ParseValue(s)
    case None => None
    case Some(v) =>
      var t := SkipSpace(v.1);
      if t == [] then None
      else if t[0] == RBRACKET then Some(([v.0], t[1..]))
      else if t[0] == COMMA then
        match ParseItems(t[1..])
        case None => None
        case Some(m) => Some(([v.0] + m.0, m.1))
      else None
  }

  /** `"key" : value`, up to and with the value. */
  function ParseField(s: Text): (r: Option<(Member, Text)>)
    ensures r.Some? ==> |r.value.1| < |s|
    decreases |s|, 1
  {
    var t := SkipSpace(s);
    if t == [] || t[0] != QUOTE then None
    else
      match ParseString(t[1..])
      case None => None
      case Some(k) =>
        var u := SkipSpace(k.1);
        if u == [] || u[0] != COLON then None
        else
          match ParseValue(u[1..])
          case None => None
          case Some(v) => Some((Member(k.0, Some(v.0)), v.1))
  }

  function ParseMembers(s: Text): (r: Option<(seq<Member>, Text)>)
    ensures r.Some? ==> |r.value.1| < |s|
    decreases |s|, 2
  {
    match ParseField(s)
    case None => None
    case Some(f) =>
      var t := SkipSpace(f.1);
      if t == [] then None
      else if t[0] == RBRACE then Some(([f.0], t[1..]))
      else if t[0] == COMMA then
        match ParseMembers(t[1..])
        case None => None
        case Some(m) => Some(([f.0] + m.0, m.1))
      else None
  }

  /** JSON.parse, but for what it does to the members of an object afterwards. */
  function Parse(s: Text): Option<Json> {
    match ParseValue(s)
    case None => None
    case Some(v) => if SkipSpace(v.1) == [] then Some(v.0) else None
  }

  // ---------------------------------------------------------------- strings round trip

  lemma HexDigits(c: CodeUnit)
    ensures c == c / 4096 * 4096 + c / 256 % 16 * 256 + c / 16 % 16 * 16 + c % 16 && c / 4096 < 16
  {
  }

  lemma HexDigitValue(k: int)
    requires 0 <= k < 16
    ensures HexValue(HexDigit(k)) == Some(k)
  {
  }

  lemma Hex4Parses(c: CodeUnit, rest: Text)
    ensures ParseHex4(Hex4(c) + rest) == Some(c)
  {
    HexDigits(c);
    HexDigitValue(c / 4096);
    HexDigitValue(c / 256 % 16);
    HexDigitValue(c / 16 % 16);
    HexDigitValue(c % 16);
    FourDigits(HexDigit(c / 4096), HexDigit(c / 256 % 16), HexDigit(c / 16 % 16), HexDigit(c % 16), rest);
  }

  lemma FourDigits(a: CodeUnit, b: CodeUnit, c: CodeUnit, d: CodeUnit, rest: Text)
    requires HexValue(a).Some? && HexValue(b).Some? && HexValue(c).Some? && HexValue(d).Some?
    ensures ParseHex4([a, b, c, d] + rest)
            == Some(HexValue(a).value * 4096 + HexValue(b).value * 256 + HexValue(c).value * 16 + HexValue(d).value)
  {
  }

  lemma EscapedUnitParses(c: CodeUnit, rest: Text)
    ensures ParseUnit(EscapeUnit(c) + rest) == Some((c, rest))
  {
    var e := EscapeUnit(c);
    var s := e + rest;
    assert s[0] == e[0];
    if |e| == 2 {
      assert s[1] == e[1] && s[2..] == rest;
    } else if |e| == 6 {
      assert s[1] == e[1] && s[2..] == Hex4(c) + rest && s[6..] == rest;
      Hex4Parses(c, rest);
    } else {
      assert s[1..] == rest;
    }
  }

  lemma Regroup(a: Text, b: Text, c: Text, d: Text, e: Text)
    ensures a + b + c + d + e == a + (b + (c + d + e))
  {
  }

  /** One printed character in front of a parsable string. */
  lemma StringCons(e: Text, c: CodeUnit, tail: Text, t: Text, rest: Text)
    requires e != [] && e[0] != QUOTE && ParseUnit(e + tail) == Some((c, tail)) && ParseString(tail) == Some((t, rest))
    ensures ParseString(e + tail) == Some(([c] + t, rest))
  {
    assert (e + tail)[0] == e[0];
  }

  lemma LiteralParses(c: CodeUnit, tail: Text)
    requires c >= 32 && c != QUOTE && c != BACKSLASH
    ensures ParseUnit([c] + tail) == Some((c, tail))
  {
    assert ([c] + tail)[1..] == tail;
  }

  lemma PairApart(x: CodeUnit, y: CodeUnit, t: Text)
    ensures [x, y] + t == [x] + ([y] + t)
  {
  }

  lemma PairInFront(x: CodeUnit, y: CodeUnit, e: Text, t: Text, rest: Text)
    requires IsHigh(x) && IsLow(y) && ParseString(e + [QUOTE] + rest) == Some((t, rest))
    ensures ParseString([x, y] + e + [QUOTE] + rest) == Some(([x, y] + t, rest))
  {
    TwoLiteralsInFront(x, y, e + [QUOTE] + rest, t, rest);
    Grouped([x, y], e, [QUOTE], rest);
  }

  lemma Grouped(a: Text, b: Text, c: Text, d: Text)
    ensures a + b + c + d == a + (b + c + d)
  {
  }

  lemma TwoLiteralsInFront(x: CodeUnit, y: CodeUnit, tail: Text, t: Text, rest: Text)
    requires x >= 0xD800 && y >= 0xD800 && ParseString(tail) == Some((t, rest))
    ensures ParseString([x, y] + tail) == Some(([x, y] + t, rest))
  {
    LiteralInFront(y, tail, t, rest);
    LiteralInFront(x, [y] + tail, [y] + t, rest);
    PairApart(x, y, tail);
    PairApart(x, y, t);
  }

  lemma LiteralInFront(c: CodeUnit, tail: Text, t: Text, rest: Text)
    requires c >= 0xD800 && ParseString(tail) == Some((t, rest))
    ensures ParseString([c] + tail) == Some(([c] + t, rest))
  {
    LiteralParses(c, tail);
    StringCons([c], c, tail, t, rest);
  }

  lemma UnitInFront(c: CodeUnit, e: Text, t: Text, rest: Text)
    requires ParseString(e + [QUOTE] + rest) == Some((t, rest))
    ensures ParseString(EscapeUnit(c) + e + [QUOTE] + rest) == Some(([c] + t, rest))
  {
    EscapedInFront(c, e + [QUOTE] + rest, t, rest);
    Grouped(EscapeUnit(c), e, [QUOTE], rest);
  }

  lemma EscapedInFront(c: CodeUnit, tail: Text, t: Text, rest: Text)
    requires ParseString(tail) == Some((t, rest))
    ensures ParseString(EscapeUnit(c) + tail) == Some(([c] + t, rest))
  {
    EscapedUnitParses(c, tail);
    StringCons(EscapeUnit(c), c, tail, t, rest);
  }

  lemma {:induction false} StringRoundTrip(s: Text, rest: Text)
    ensures ParseString(Escape(s) + [QUOTE] + rest) == Some((s, rest))
    decreases |s|
  {
    if s == [] {
      assert (Escape(s) + [QUOTE] + rest)[1..] == rest;
    } else if |s| >= 2 && IsHigh(s[0]) && IsLow(s[1]) {
      StringRoundTrip(s[2..], rest);
      PairInFront(s[0], s[1], Escape(s[2..]), s[2..], rest);
      assert s == [s[0], s[1]] + s[2..];
    } else {
      StringRoundTrip(s[1..], rest);
      UnitInFront(s[0], Escape(s[1..]), s[1..], rest);
      assert s == [s[0]] + s[1..];
    }
  }

  // ---------------------------------------------------------------- values round trip

  /** A number ends where the text goes on with something else. */
  predicate Follows(rest: Text) {
    rest == [] || !NumChar(rest[0])
  }

  lemma {:induction false} NumRunOf(n: Text, rest: Text)
    requires (forall c :: c in n ==> NumChar(c)) && Follows(rest)
    ensures NumRun(n + rest) == |n|
  {
    if n == [] {
      assert n + rest == rest;
    } else {
      assert n[0] in n && (n + rest)[1..] == n[1..] + rest;
      assert forall c :: c in n[1..] ==> c in n;
      NumRunOf(n[1..], rest);
    }
  }

  lemma NumberRoundTrip(n: Text, rest: Text)
    requires ValidNumber(n) && Follows(rest)
    ensures n != [] && NumChar(n[0]) && ParseNumber(n + rest) == Some((Num(n), rest))
  {
    NumRunOf(n, rest);
    assert n[0] in n;
    assert (n + rest)[..|n|] == n && (n + rest)[|n|..] == rest;
  }

  ghost predicate Reads(text: Text, v: Json) {
    forall rest :: Follows(rest) ==> ParseValue(text + rest) == Some((v, rest))
  }

  predicate StartsValue(s: Text) {
    s != [] && !IsSpace(s[0]) && s[0] != RBRACE && s[0] != RBRACKET
  }

  lemma FirstChar(v: Json)
    requires Valid(v)
    ensures StartsValue(Canonical(v))
  {
    if v.Num? { assert v.lexeme[0] in v.lexeme; }
  }

  lemma JoinCons(p: Text, ps: seq<Text>)
    requires ps != []
    ensures Join([p] + ps) == p + [COMMA] + Join(ps)
  {
    assert ([p] + ps)[1..] == ps;
  }

  lemma {:induction false} ValueRoundTrip(v: Json)
    requires Valid(v)
    ensures Reads(Canonical(v), Norm(v))
    decreases v, 0
  {
    forall rest | Follows(rest) ensures ParseValue(Canonical(v) + rest) == Some((Norm(v), rest)) {
      match v
      case Arr(items) => ArrRoundTrip(items, rest);
      case Obj(ms) => ObjRoundTrip(ms, rest);
      case _ => ScalarRoundTrip(v, rest);
    }
  }

  lemma ScalarRoundTrip(v: Json, rest: Text)
    requires Valid(v) && !v.Arr? && !v.Obj? && Follows(rest)
    ensures ParseValue(Canonical(v) + rest) == Some((Norm(v), rest))
  {
    FirstChar(v);
    match v
    case Null => WordRoundTrip(NULL, v, rest);
    case Bool(b) => WordRoundTrip(if b then TRUE else FALSE, v, rest);
    case Num(n) => NumberRoundTrip(n, rest);
    case Str(s) =>
      assert (Quote(s) + rest)[1..] == Escape(s) + [QUOTE] + rest;
      StringRoundTrip(s, rest);
  }

  lemma WordRoundTrip(w: Text, v: Json, rest: Text)
    requires w != []
    ensures ParseWord(w, v, w + rest) == Some((v, rest))
  {
    assert (w + rest)[..|w|] == w && (w + rest)[|w|..] == rest;
  }

  lemma {:induction false} ArrRoundTrip(items: seq<Json>, rest: Text)
    requires ValidItems(items)
    ensures ParseValue(Canonical(Arr(items)) + rest) == Some((Norm(Arr(items)), rest))
    decreases items, 2
  {
    var body := Join(CanonicalItems(items));
    var t := Canonical(Arr(items)) + rest;
    assert t[1..] == body + [RBRACKET] + rest;
    if items == [] {
      assert t[1..] == [RBRACKET] + rest && t[1..][1..] == rest;
    } else {
      ItemsRoundTrip(items, rest);
      ItemsStart(items);
      assert t[1..][0] == body[0];
    }
  }

  lemma ItemsStart(items: seq<Json>)
    requires ValidItems(items) && items != []
    ensures StartsValue(Join(CanonicalItems(items)))
  {
    FirstChar(items[0]);
    if |items| > 1 { JoinCons(Canonical(items[0]), CanonicalItems(items[1..])); }
    else { assert CanonicalItems(items[1..]) == []; }
  }

  lemma LastItem(s: Text, v: Json, rest: Text)
    requires ParseValue(s) == Some((v, [RBRACKET] + rest))
    ensures ParseItems(s) == Some(([v], rest))
  {
    assert ([RBRACKET] + rest)[1..] == rest;
  }

  lemma OneMoreItem(s: Text, v: Json, tail: Text, items: seq<Json>, rest: Text)
    requires ParseValue(s) == Some((v, [COMMA] + tail)) && ParseItems(tail) == Some((items, rest))
    ensures ParseItems(s) == Some(([v] + items, rest))
  {
    assert ([COMMA] + tail)[1..] == tail;
  }

  lemma ReadsBefore(text: Text, v: Json, c: CodeUnit, tail: Text)
    requires Reads(text, v) && !NumChar(c)
    ensures ParseValue(text + ([c] + tail)) == Some((v, [c] + tail))
  {
    assert Follows([c] + tail);
  }

  lemma OnlyItem(head: Text, v: Json, rest: Text)
    requires Reads(head, v)
    ensures ParseItems(head + [RBRACKET] + rest) == Some(([v], rest))
  {
    ReadsBefore(head, v, RBRACKET, rest);
    LastItem(head + ([RBRACKET] + rest), v, rest);
    assert head + [RBRACKET] + rest == head + ([RBRACKET] + rest);
  }

  lemma ItemInFront(head: Text, v: Json, body: Text, items: seq<Json>, rest: Text)
    requires Reads(head, v) && ParseItems(body + [RBRACKET] + rest) == Some((items, rest))
    ensures ParseItems(head + [COMMA] + body + [RBRACKET] + rest) == Some(([v] + items, rest))
  {
    var tail := body + [RBRACKET] + rest;
    ReadsBefore(head, v, COMMA, tail);
    OneMoreItem(head + ([COMMA] + tail), v, tail, items, rest);
    Regroup(head, [COMMA], body, [RBRACKET], rest);
  }

  lemma {:induction false} ItemsRoundTrip(items: seq<Json>, rest: Text)
    requires ValidItems(items) && items != []
    ensures ParseItems(Join(CanonicalItems(items)) + [RBRACKET] + rest) == Some((NormItems(items), rest))
    decreases items, 1
  {
    ValueRoundTrip(items[0]);
    if |items| == 1 {
      assert items[1..] == [] && CanonicalItems(items) == [Canonical(items[0])] && NormItems(items) == [Norm(items[0])];
      OnlyItem(Canonical(items[0]), Norm(items[0]), rest);
    } else {
      ItemsRoundTrip(items[1..], rest);
      ItemInFront(Canonical(items[0]), Norm(items[0]), Join(CanonicalItems(items[1..])), NormItems(items[1..]), rest);
      JoinCons(Canonical(items[0]), CanonicalItems(items[1..]));
    }
  }

  // ---------------------------------------------------------------- objects

  /** Printed members and the members they stand for. */
  ghost predicate Stands(ps: seq<(Text, Text)>, ns: seq<(Text, Json)>) {
    |ps| == |ns| && forall i :: 0 <= i < |ps| ==> ps[i].0 == ns[i].0 && Reads(ps[i].1, ns[i].1) && StartsValue(ps[i].1)
  }

  lemma {:induction false} MembersStand(ms: seq<Member>)
    requires ValidMembers(ms)
    ensures Stands(CanonicalMembers(ms), NormMembers(ms))
    decreases ms, 3
  {
    if ms != [] {
      MembersStand(ms[1..]);
      if ms[0].value.Some? {
        ValueRoundTrip(ms[0].value.value);
        FirstChar(ms[0].value.value);
      }
    }
  }

  lemma {:induction false} InsertStands(p: (Text, Text), ps: seq<(Text, Text)>, n: (Text, Json), ns: seq<(Text, Json)>)
    requires Stands(ps, ns) && p.0 == n.0 && Reads(p.1, n.1) && StartsValue(p.1)
    ensures Stands(InsertKeyed(p, ps), InsertKeyed(n, ns))
  {
    if ps != [] && Less(ps[0].0, p.0) { InsertStands(p, ps[1..], n, ns[1..]); }
  }

  lemma {:induction false} SortStands(ps: seq<(Text, Text)>, ns: seq<(Text, Json)>)
    requires Stands(ps, ns)
    ensures Stands(SortKeyed(ps), SortKeyed(ns))
  {
    if ps != [] {
      SortStands(ps[1..], ns[1..]);
      InsertStands(ps[0], SortKeyed(ps[1..]), ns[0], SortKeyed(ns[1..]));
    }
  }

  lemma FieldParses(s: Text, key: Text, after: Text, v: Json, rest: Text)
    requires s != [] && s[0] == QUOTE && ParseString(s[1..]) == Some((key, [COLON] + after))
            && ParseValue(after) == Some((v, rest))
    ensures ParseField(s) == Some((Member(key, Some(v)), rest))
  {
    assert ([COLON] + after)[1..] == after;
  }

  lemma FieldRoundTrip(p: (Text, Text), v: Json, c: CodeUnit, tail: Text)
    requires Reads(p.1, v) && !NumChar(c)
    ensures ParseField(Field(p) + ([c] + tail)) == Some((Member(p.0, Some(v)), [c] + tail))
  {
    var rest := [c] + tail;
    var after := p.1 + rest;
    StringRoundTrip(p.0, [COLON] + after);
    FieldTail(p, rest);
    ReadsBefore(p.1, v, c, tail);
    FieldParses(Field(p) + rest, p.0, after, v, rest);
  }

  lemma FieldTail(p: (Text, Text), rest: Text)
    ensures (Field(p) + rest)[0] == QUOTE && (Field(p) + rest)[1..] == Escape(p.0) + [QUOTE] + ([COLON] + (p.1 + rest))
  {
  }

  lemma LastField(s: Text, m: Member, rest: Text)
    requires ParseField(s) == Some((m, [RBRACE] + rest))
    ensures ParseMembers(s) == Some(([m], rest))
  {
    assert ([RBRACE] + rest)[1..] == rest;
  }

  lemma OneMoreField(s: Text, m: Member, tail: Text, ms: seq<Member>, rest: Text)
    requires ParseField(s) == Some((m, [COMMA] + tail)) && ParseMembers(tail) == Some((ms, rest))
    ensures ParseMembers(s) == Some(([m] + ms, rest))
  {
    assert ([COMMA] + tail)[1..] == tail;
  }

  lemma OnlyField(p: (Text, Text), v: Json, rest: Text)
    requires Reads(p.1, v)
    ensures ParseMembers(Field(p) + [RBRACE] + rest) == Some(([Member(p.0, Some(v))], rest))
  {
    FieldRoundTrip(p, v, RBRACE, rest);
    LastField(Field(p) + ([RBRACE] + rest), Member(p.0, Some(v)), rest);
    assert Field(p) + [RBRACE] + rest == Field(p) + ([RBRACE] + rest);
  }

  lemma FieldInFront(p: (Text, Text), v: Json, body: Text, ms: seq<Member>, rest: Text)
    requires Reads(p.1, v) && ParseMembers(body + [RBRACE] + rest) == Some((ms, rest))
    ensures ParseMembers(Field(p) + [COMMA] + body + [RBRACE] + rest) == Some(([Member(p.0, Some(v))] + ms, rest))
  {
    FieldRoundTrip(p, v, COMMA, body + [RBRACE] + rest);
    FieldThen(Field(p), Member(p.0, Some(v)), body, ms, rest);
  }

  lemma FieldThen(f: Text, m: Member, body: Text, ms: seq<Member>, rest: Text)
    requires ParseField(f + ([COMMA] + (body + [RBRACE] + rest))) == Some((m, [COMMA] + (body + [RBRACE] + rest)))
    requires ParseMembers(body + [RBRACE] + rest) == Some((ms, rest))
    ensures ParseMembers(f + [COMMA] + body + [RBRACE] + rest) == Some(([m] + ms, rest))
  {
    OneMoreField(f + ([COMMA] + (body + [RBRACE] + rest)), m, body + [RBRACE] + rest, ms, rest);
    Regroup(f, [COMMA], body, [RBRACE], rest);
  }

  lemma {:induction false} FieldsRoundTrip(ps: seq<(Text, Text)>, ns: seq<(Text, Json)>, rest: Text)
    requires Stands(ps, ns) && ps != []
    ensures ParseMembers(Join(Fields(ps)) + [RBRACE] + rest) == Some((Members(ns), rest))
  {
    if |ps| == 1 {
      assert ps[1..] == [] && Fields(ps) == [Field(ps[0])];
      assert ns[1..] == [] && Members(ns) == [Member(ps[0].0, Some(ns[0].1))];
      OnlyField(ps[0], ns[0].1, rest);
    } else {
      FieldsRoundTrip(ps[1..], ns[1..], rest);
      FieldInFront(ps[0], ns[0].1, Join(Fields(ps[1..])), Members(ns[1..]), rest);
      JoinCons(Field(ps[0]), Fields(ps[1..]));
    }
  }

  lemma FieldsStart(ps: seq<(Text, Text)>)
    requires ps != []
    ensures StartsValue(Join(Fields(ps)))
  {
    if |ps| > 1 { JoinCons(Field(ps[0]), Fields(ps[1..])); }
    else { assert Fields(ps[1..]) == []; }
  }

  lemma {:induction false} ObjRoundTrip(ms: seq<Member>, rest: Text)
    requires ValidMembers(ms) && Distinct(KeysOf(ms))
    ensures ParseValue(Canonical(Obj(ms)) + rest) == Some((Norm(Obj(ms)), rest))
    decreases ms, 4
  {
    var ps, ns := SortKeyed(CanonicalMembers(ms)), SortKeyed(NormMembers(ms));
    var body := Join(Fields(ps));
    var t := Canonical(Obj(ms)) + rest;
    MembersStand(ms);
    SortStands(CanonicalMembers(ms), NormMembers(ms));
    assert t[1..] == body + [RBRACE] + rest;
    if ps == [] {
      assert t[1..] == [RBRACE] + rest && t[1..][1..] == rest;
    } else {
      FieldsRoundTrip(ps, ns, rest);
      FieldsStart(ps);
      assert t[1..][0] == body[0];
    }
  }
}
