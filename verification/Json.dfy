/**
 * JSON values as the juror prints them (publish.ts), over UTF-16 code units. A number is represented
 * by its printed form; an object may hold undefined members, which printing drops.
 */
module Json {
  import opened Base
  import opened Lex

  /** A UTF-16 code unit. */
  type CodeUnit = c: int | 0 <= c < 0x10000
  type Text = seq<CodeUnit>

  datatype Json =
    | Null
    | Bool(b: bool)
    | Num(lexeme: Text)
    | Str(s: Text)
    | Arr(items: seq<Json>)
    | Obj(members: seq<Member>)

  datatype Member = Member(key: Text, value: Option<Json>)

  const QUOTE := 34
  const COMMA := 44
  const COLON := 58
  const LBRACKET := 91
  const BACKSLASH := 92
  const RBRACKET := 93
  const LBRACE := 123
  const RBRACE := 125

  const NULL: Text := [110, 117, 108, 108]
  const TRUE: Text := [116, 114, 117, 101]
  const FALSE: Text := [102, 97, 108, 115, 101]

  // ---------------------------------------------------------------- strings

  predicate IsHigh(c: int) { 0xD800 <= c < 0xDC00 }

  predicate IsLow(c: int) { 0xDC00 <= c < 0xE000 }

  function HexDigit(k: int): CodeUnit
    requires 0 <= k < 16
  {
    if k < 10 then 48 + k else 87 + k
  }

  function Hex4(c: CodeUnit): (r: Text)
    ensures |r| == 4
  {
    [HexDigit(c / 4096), HexDigit(c / 256 % 16), HexDigit(c / 16 % 16), HexDigit(c % 16)]
  }

  /** The two-character escapes: \b \t \n \f \r \" \\ */
  function ShortEscape(c: CodeUnit): Option<CodeUnit> {
    if c == 8 then Some(98) else if c == 9 then Some(116) else if c == 10 then Some(110)
    else if c == 12 then Some(102) else if c == 13 then Some(114)
    else if c == QUOTE || c == BACKSLASH then Some(c) else None
  }

  function EscapeUnit(c: CodeUnit): Text
  {
    if ShortEscape(c).Some? then [BACKSLASH, ShortEscape(c).value]
    else if c < 32 || IsHigh(c) || IsLow(c) then [BACKSLASH, 117] + Hex4(c)
    else [c]
  }

  /** Surrogate pairs are printed as they are, lone surrogates escaped. */
  function Escape(s: Text): Text
  {
    if s == [] then []
    else if |s| >= 2 && IsHigh(s[0]) && IsLow(s[1]) then [s[0], s[1]] + Escape(s[2..])
    else EscapeUnit(s[0]) + Escape(s[1..])
  }

  function Quote(s: Text): Text
  {
    [QUOTE] + Escape(s) + [QUOTE]
  }

  // ---------------------------------------------------------------- numbers

  predicate IsDigit(c: int) { 48 <= c <= 57 }

  predicate NumChar(c: int) {
    IsDigit(c) || c == 43 || c == 45 || c == 46 || c == 69 || c == 101
  }

  function Digits(s: Text): nat {
    if s != [] && IsDigit(s[0]) then 1 + Digits(s[1..]) else 0
  }

  lemma {:induction false} DigitsBound(s: Text)
    ensures Digits(s) <= |s|
  {
    if s != [] { DigitsBound(s[1..]); }
  }

  predicate ValidExponent(s: Text) {
    || s == []
    || (s[0] in {69, 101}
        && var t := if |s| > 1 && s[1] in {43, 45} then s[2..] else s[1..];
           t != [] && Digits(t) == |t|)
  }

  predicate ValidFraction(s: Text) {
    DigitsBound(s);
    if s != [] && s[0] == 46 then DigitsBound(s[1..]); Digits(s[1..]) > 0 && ValidExponent(s[1..][Digits(s[1..])..])
    else ValidExponent(s)
  }

  /** The number grammar of RFC 8259, section 6. */
  predicate ValidNumber(s: Text) {
    var t := if s != [] && s[0] == 45 then s[1..] else s;
    DigitsBound(t);
    && (forall c :: c in s ==> NumChar(c))
    && Digits(t) > 0 && (t[0] == 48 ==> Digits(t) == 1) && ValidFraction(t[Digits(t)..])
  }

  // ---------------------------------------------------------------- values

  /** A JSON value: distinct keys, real numbers, code units. */
  ghost predicate Valid(v: Json) {
    match v
    case Null => true
    case Bool(_) => true
    case Num(n) => ValidNumber(n)
    case Str(_) => true
    case Arr(items) => ValidItems(items)
    case Obj(ms) => ValidMembers(ms) && Distinct(KeysOf(ms))
  }

  ghost predicate ValidItems(items: seq<Json>) {
    items != [] ==> Valid(items[0]) && ValidItems(items[1..])
  }

  ghost predicate ValidMembers(ms: seq<Member>) {
    ms != [] ==>
      && (ms[0].value.Some? ==> Valid(ms[0].value.value))
      && ValidMembers(ms[1..])
  }

  function KeysOf(ms: seq<Member>): (ks: seq<Text>)
    ensures |ks| == |ms| && forall i :: 0 <= i < |ms| ==> ks[i] == ms[i].key
  {
    if ms == [] then [] else [ms[0].key] + KeysOf(ms[1..])
  }

  // ---------------------------------------------------------------- sorting by key

  function InsertKeyed<T>(x: (Text, T), xs: seq<(Text, T)>): seq<(Text, T)> {
    if xs == [] then [x] else if Less(xs[0].0, x.0) then [xs[0]] + InsertKeyed(x, xs[1..]) else [x] + xs
  }

  /** Array.prototype.sort on distinct keys. */
  function SortKeyed<T>(xs: seq<(Text, T)>): seq<(Text, T)> {
    if xs == [] then [] else InsertKeyed(xs[0], SortKeyed(xs[1..]))
  }

  // ---------------------------------------------------------------- the printer

  function Join(parts: seq<Text>): Text {
    if parts == [] then [] else if |parts| == 1 then parts[0] else parts[0] + [COMMA] + Join(parts[1..])
  }

  function Field(p: (Text, Text)): Text {
    Quote(p.0) + [COLON] + p.1
  }

  function Fields(ps: seq<(Text, Text)>): (r: seq<Text>)
    ensures |r| == |ps| && forall i :: 0 <= i < |ps| ==> r[i] == Field(ps[i])
  {
    if ps == [] then [] else [Field(ps[0])] + Fields(ps[1..])
  }

  function Canonical(v: Json): Text
    requires Valid(v)
  {
    match v
    case Null => NULL
    case Bool(b) => if b then TRUE else FALSE
    case Num(n) => n
    case Str(s) => Quote(s)
    case Arr(items) => [LBRACKET] + Join(CanonicalItems(items)) + [RBRACKET]
    case Obj(ms) => [LBRACE] + Join(Fields(SortKeyed(CanonicalMembers(ms)))) + [RBRACE]
  }

  function CanonicalItems(items: seq<Json>): (r: seq<Text>)
    requires ValidItems(items)
    ensures |r| == |items|
  {
    if items == [] then [] else [Canonical(items[0])] + CanonicalItems(items[1..])
  }

  /** Keys with the printed form of their values; undefined members are left out. */
  function CanonicalMembers(ms: seq<Member>): seq<(Text, Text)>
    requires ValidMembers(ms)
  {
    if ms == [] then []
    else
      var rest := CanonicalMembers(ms[1..]);
      if ms[0].value.None? then rest else [(ms[0].key, Canonical(ms[0].value.value))] + rest
  }

  /** The value with members in key order and undefined ones dropped: what the printed text says. */
  function Norm(v: Json): Json {
    match v
    case Arr(items) => Arr(NormItems(items))
    case Obj(ms) => Obj(Members(SortKeyed(NormMembers(ms))))
    case _ => v
  }

  function NormItems(items: seq<Json>): (r: seq<Json>)
    ensures |r| == |items|
  {
    if items == [] then [] else [Norm(items[0])] + NormItems(items[1..])
  }

  function NormMembers(ms: seq<Member>): seq<(Text, Json)> {
    if ms == [] then []
    else
      var rest := NormMembers(ms[1..]);
      if ms[0].value.None? then rest else [(ms[0].key, Norm(ms[0].value.value))] + rest
  }

  function Members(ps: seq<(Text, Json)>): (r: seq<Member>)
    ensures |r| == |ps| && forall i :: 0 <= i < |ps| ==> r[i] == Member(ps[i].0, Some(ps[i].1))
  {
    if ps == [] then [] else [Member(ps[0].0, Some(ps[0].1))] + Members(ps[1..])
  }
}
