/**
 * Copy screening of the juror's public text (rubric.ts): no released string shares a run of seven
 * normalised words with a private string of the case packet.
 */
module Screening {
  import opened Base
  import opened Lex
  import opened Json

  const SPACE: CodeUnit := 32
  const SHINGLE_SIZE: nat := 7
  const MAX_FACTS: nat := 5
  const MIN_PRIVATE_LENGTH := 40

  // ---------------------------------------------------------------- words

  predicate WordChar(c: int) {
    97 <= c <= 122 || IsDigit(c)
  }

  function WordRun(s: Text): (n: nat)
    ensures n <= |s| && (forall i :: 0 <= i < n ==> WordChar(s[i])) && (n < |s| ==> !WordChar(s[n]))
  {
    if s != [] && WordChar(s[0]) then 1 + WordRun(s[1..]) else 0
  }

  /** The words of a lower-cased text: everything but letters and digits separates. */
  function Words(s: Text): (ws: seq<Text>)
    ensures forall w :: w in ws ==> w != [] && forall c :: c in w ==> WordChar(c)
    decreases |s|
  {
    if s == [] then []
    else if !WordChar(s[0]) then Words(s[1..])
    else [s[..WordRun(s)]] + Words(s[WordRun(s)..])
  }

  lemma {:induction false} WordRunConcat(a: Text, c: CodeUnit, b: Text)
    requires !WordChar(c)
    ensures WordRun(a + [c] + b) == WordRun(a)
  {
    var s := a + [c] + b;
    if a == [] {
      assert s[0] == c;
    } else {
      assert s[1..] == a[1..] + [c] + b;
      WordRunConcat(a[1..], c, b);
    }
  }

  /** A separator splits the words. */
  lemma {:induction false} WordsConcat(a: Text, c: CodeUnit, b: Text)
    requires !WordChar(c)
    ensures Words(a + [c] + b) == Words(a) + Words(b)
    decreases |a|
  {
    var s := a + [c] + b;
    if a == [] {
      assert s[1..] == b;
    } else if !WordChar(a[0]) {
      assert s[1..] == a[1..] + [c] + b;
      WordsConcat(a[1..], c, b);
    } else {
      var n := WordRun(a);
      WordRunConcat(a, c, b);
      assert s[..n] == a[..n] && s[n..] == a[n..] + [c] + b;
      WordsConcat(a[n..], c, b);
    }
  }

  predicate LetterOrDigit(c: int) {
    97 <= c <= 122 || 48 <= c <= 57
  }

  /** The stretch from i to j is a maximal run of letters and digits. */
  predicate MaximalRun(s: Text, i: nat, j: nat) {
    && i < j <= |s|
    && (forall k :: i <= k < j ==> LetterOrDigit(s[k]))
    && (i > 0 ==> !LetterOrDigit(s[i - 1]))
    && (j < |s| ==> !LetterOrDigit(s[j]))
  }

  type Span = (nat, nat)

  /** The spans are the maximal runs that begin at `from` or later, from left to right, and the words what they hold. */
  ghost predicate RunsFrom(s: Text, from: nat, spans: seq<Span>, ws: seq<Text>) {
    && |spans| == |ws|
    && (forall k :: 0 <= k < |spans| ==> RunAndWord(s, from, spans[k], ws[k]))
    && (forall k, l :: 0 <= k < l < |spans| ==> spans[k].1 < spans[l].0)
    && forall i: nat, j: nat :: i >= from && MaximalRun(s, i, j) ==> (i, j) in spans
  }

  predicate RunAndWord(s: Text, from: nat, span: Span, w: Text) {
    from <= span.0 && MaximalRun(s, span.0, span.1) && w == s[span.0..span.1]
  }

  /** A run is determined by where it begins, and none begins inside another. */
  lemma RunsApart(s: Text, a: nat, b: nat, i: nat, j: nat)
    requires MaximalRun(s, a, b) && MaximalRun(s, i, j) && a <= i
    ensures (i == a && j == b) || i > b
  {
    var before := i > 0 && LetterOrDigit(s[i - 1]);
    var after := j < |s| && LetterOrDigit(s[j]);
    var behind := b < |s| && LetterOrDigit(s[b]);
    assert !before && !after && !behind;
  }

  lemma PushRun(s: Text, a: nat, b: nat, spans: seq<Span>, ws: seq<Text>)
    requires MaximalRun(s, a, b) && RunsFrom(s, b, spans, ws)
    ensures RunsFrom(s, a, [(a, b)] + spans, [s[a..b]] + ws)
  {
    var more := [(a, b)] + spans;
    forall k | 0 <= k < |spans| ensures spans[k].0 > b {
      assert RunAndWord(s, b, spans[k], ws[k]);
      RunsApart(s, a, b, spans[k].0, spans[k].1);
    }
    forall k | 0 <= k < |more| ensures RunAndWord(s, a, more[k], ([s[a..b]] + ws)[k]) {
      if k > 0 { assert RunAndWord(s, b, spans[k - 1], ws[k - 1]); }
    }
    forall i: nat, j: nat | i >= a && MaximalRun(s, i, j) ensures (i, j) in more {
      RunsApart(s, a, b, i, j);
      if i > b { assert (i, j) in spans; } else { assert more[0] == (i, j); }
    }
  }

  lemma SkipOne(s: Text, from: nat, spans: seq<Span>, ws: seq<Text>)
    requires from < |s| && !LetterOrDigit(s[from]) && RunsFrom(s, from + 1, spans, ws)
    ensures RunsFrom(s, from, spans, ws)
  {
    forall k | 0 <= k < |spans| ensures RunAndWord(s, from, spans[k], ws[k]) {
      assert RunAndWord(s, from + 1, spans[k], ws[k]);
    }
  }

  lemma FirstWordIsRun(s: Text, from: nat)
    requires from < |s| && LetterOrDigit(s[from]) && (from > 0 ==> !LetterOrDigit(s[from - 1]))
    ensures MaximalRun(s, from, from + WordRun(s[from..]))
  {
    var t := s[from..];
    forall k | from <= k < from + WordRun(t) ensures LetterOrDigit(s[k]) { assert WordChar(t[k - from]); }
    if WordRun(t) < |t| { assert !WordChar(t[WordRun(t)]); }
    assert t[0] == s[from];
  }

  lemma NoRunAtEnd(s: Text)
    ensures RunsFrom(s, |s|, [], Words(s[|s|..]))
  {
  }

  /** The words from a place on: none, those after a separator, or a word and those after it. */
  lemma WordsFrom(s: Text, from: nat)
    requires from < |s|
    ensures WordChar(s[from]) <==> LetterOrDigit(s[from])
    ensures !WordChar(s[from]) ==> Words(s[from..]) == Words(s[from + 1..])
    ensures WordChar(s[from]) ==>
              var n := WordRun(s[from..]);
              0 < n && from + n <= |s| && Words(s[from..]) == [s[from..from + n]] + Words(s[from + n..])
  {
    var t := s[from..];
    assert t[0] == s[from] && t[1..] == s[from + 1..];
    var n := WordRun(t);
    assert t[..n] == s[from..from + n] && t[n..] == s[from + n..];
  }

  lemma SkipSeparator(s: Text, from: nat, spans: seq<Span>)
    requires from < |s| && !LetterOrDigit(s[from]) && RunsFrom(s, from + 1, spans, Words(s[from + 1..]))
    ensures RunsFrom(s, from, spans, Words(s[from..]))
  {
    WordsFrom(s, from);
    SkipOne(s, from, spans, Words(s[from + 1..]));
  }

  lemma TakeWord(s: Text, from: nat, to: nat, rest: seq<Span>)
    requires from < |s| && LetterOrDigit(s[from]) && (from > 0 ==> !LetterOrDigit(s[from - 1]))
    requires to == from + WordRun(s[from..]) && RunsFrom(s, to, rest, Words(s[to..]))
    ensures RunsFrom(s, from, [(from, to)] + rest, Words(s[from..]))
  {
    WordsFrom(s, from);
    FirstWordIsRun(s, from);
    PushRun(s, from, to, rest, Words(s[to..]));
  }

  /** No run is cut at this place. */
  predicate Boundary(s: Text, from: nat) {
    from == 0 || from >= |s| || !LetterOrDigit(s[from - 1]) || !LetterOrDigit(s[from])
  }

  lemma {:induction false} RunsOf(s: Text, from: nat) returns (spans: seq<Span>)
    requires from <= |s| && Boundary(s, from)
    ensures RunsFrom(s, from, spans, Words(s[from..]))
    decreases |s| - from
  {
    if from == |s| {
      spans := [];
      NoRunAtEnd(s);
    } else if !LetterOrDigit(s[from]) {
      spans := RunsOf(s, from + 1);
      SkipSeparator(s, from, spans);
    } else {
      WordsFrom(s, from);
      FirstWordIsRun(s, from);
      var to := from + WordRun(s[from..]);
      var rest := RunsOf(s, to);
      spans := [(from, to)] + rest;
      TakeWord(s, from, to, rest);
    }
  }

  /** The words of a text are its maximal runs of letters and digits, all of them, in order. */
  lemma WordsAreRuns(s: Text) returns (spans: seq<Span>)
    ensures RunsFrom(s, 0, spans, Words(s))
  {
    spans := RunsOf(s, 0);
    assert s[0..] == s;
  }

  lemma {:induction false} OneWordAtMost(s: Text)
    requires forall c :: c in s ==> WordChar(c)
    ensures |Words(s)| <= 1
  {
    if s != [] {
      assert forall i :: 0 <= i < |s| ==> s[i] in s;
      var n := WordRun(s);
      assert s[n..] == [];
    }
  }

  // ---------------------------------------------------------------- shingles

  function JoinWords(ws: seq<Text>): Text {
    if ws == [] then [] else if |ws| == 1 then ws[0] else ws[0] + [SPACE] + JoinWords(ws[1..])
  }

  ghost predicate PlainWords(ws: seq<Text>) {
    forall w :: w in ws ==> forall c :: c in w ==> WordChar(c)
  }

  lemma SpacePosition(w: Text, rest: Text)
    requires SPACE !in w
    ensures (w + [SPACE] + rest)[|w|] == SPACE && forall i :: 0 <= i < |w| ==> (w + [SPACE] + rest)[i] != SPACE
  {
    forall i | 0 <= i < |w| ensures (w + [SPACE] + rest)[i] != SPACE {
      assert (w + [SPACE] + rest)[i] == w[i] && w[i] in w;
    }
  }

  lemma FirstSpace(u: Text, v: Text, a: Text, b: Text)
    requires SPACE !in u && SPACE !in v && u + [SPACE] + a == v + [SPACE] + b
    ensures u == v && a == b
  {
    SpacePosition(u, a);
    SpacePosition(v, b);
    var x, y := u + [SPACE] + a, v + [SPACE] + b;
    assert u == x[..|u|] && v == y[..|v|];
    assert a == x[|u| + 1..] && b == y[|v| + 1..];
  }

  /** Joining by a space loses nothing: equal shingles are equal word runs. */
  lemma {:induction false} JoinInjective(u: seq<Text>, v: seq<Text>)
    requires |u| == |v| && PlainWords(u) && PlainWords(v) && JoinWords(u) == JoinWords(v)
    ensures u == v
  {
    if u != [] {
      assert u[0] in u && v[0] in v;
      if |u| > 1 {
        FirstSpace(u[0], v[0], JoinWords(u[1..]), JoinWords(v[1..]));
        assert forall w :: w in u[1..] ==> w in u;
        assert forall w :: w in v[1..] ==> w in v;
        JoinInjective(u[1..], v[1..]);
        assert u == [u[0]] + u[1..] && v == [v[0]] + v[1..];
      }
    }
  }

  function RunAt(u: seq<Text>, i: nat, n: nat): seq<Text>
    requires i + n <= |u|
  {
    u[i..i + n]
  }

  function ShingleAt(u: seq<Text>, i: nat, n: nat): Text
    requires i + n <= |u|
  {
    JoinWords(RunAt(u, i, n))
  }

  /** Some n consecutive words of one list are n consecutive words of the other. */
  ghost predicate SharedRun(u: seq<Text>, w: seq<Text>, n: nat) {
    exists i: nat, j: nat :: i + n <= |u| && j + n <= |w| && RunAt(u, i, n) == RunAt(w, j, n)
  }

  function NormWords(lower: Text -> Text, s: Text): (ws: seq<Text>)
    ensures PlainWords(ws)
  {
    Words(lower(s))
  }

  ghost predicate HasShingle(w: seq<Text>, n: nat, x: Text) {
    exists j: nat :: j + n <= |w| && ShingleAt(w, j, n) == x
  }

  ghost predicate IsShingle(lower: Text -> Text, texts: seq<Text>, n: nat, x: Text) {
    exists k :: 0 <= k < |texts| && HasShingle(NormWords(lower, texts[k]), n, x)
  }

  method AddShingles(w: seq<Text>, n: nat, acc: set<Text>) returns (out: set<Text>)
    ensures forall x :: x in out <==> x in acc || HasShingle(w, n, x)
  {
    out := acc;
    var i := 0;
    while i + n <= |w|
      invariant forall x :: x in out <==> x in acc || exists j: nat :: j < i && j + n <= |w| && ShingleAt(w, j, n) == x
      decreases |w| - i
    {
      out := out + {ShingleAt(w, i, n)};
      i := i + 1;
    }
  }

  /** The n-word shingles of all texts. */
  method Shingles(lower: Text -> Text, texts: seq<Text>, n: nat) returns (out: set<Text>)
    ensures forall x :: x in out <==> IsShingle(lower, texts, n, x)
  {
    out := {};
    for k := 0 to |texts|
      invariant forall x :: x in out <==> exists m :: 0 <= m < k && HasShingle(NormWords(lower, texts[m]), n, x)
    {
      out := AddShingles(NormWords(lower, texts[k]), n, out);
    }
  }

  lemma RunIsPlain(u: seq<Text>, i: nat, n: nat)
    requires PlainWords(u) && i + n <= |u|
    ensures PlainWords(RunAt(u, i, n))
  {
    forall w | w in RunAt(u, i, n) ensures w in u {}
  }

  ghost predicate Copies(lower: Text -> Text, text: Text, texts: seq<Text>, n: nat) {
    exists k :: 0 <= k < |texts| && SharedRun(NormWords(lower, text), NormWords(lower, texts[k]), n)
  }

  /** Two lists share a shingle exactly when they share a run. */
  lemma SharedShingle(u: seq<Text>, w: seq<Text>, n: nat, i: nat)
    requires PlainWords(u) && PlainWords(w) && i + n <= |u| && HasShingle(w, n, ShingleAt(u, i, n))
    ensures SharedRun(u, w, n)
  {
    var j: nat :| j + n <= |w| && ShingleAt(w, j, n) == ShingleAt(u, i, n);
    RunIsPlain(u, i, n);
    RunIsPlain(w, j, n);
    JoinInjective(RunAt(u, i, n), RunAt(w, j, n));
  }

  lemma CopyByShingle(lower: Text -> Text, text: Text, texts: seq<Text>, n: nat, i: nat)
    requires i + n <= |NormWords(lower, text)| && IsShingle(lower, texts, n, ShingleAt(NormWords(lower, text), i, n))
    ensures Copies(lower, text, texts, n)
  {
    var u := NormWords(lower, text);
    var k :| 0 <= k < |texts| && HasShingle(NormWords(lower, texts[k]), n, ShingleAt(u, i, n));
    SharedShingle(u, NormWords(lower, texts[k]), n, i);
  }

  lemma ShingleOfCopy(lower: Text -> Text, text: Text, texts: seq<Text>, n: nat) returns (i: nat)
    requires Copies(lower, text, texts, n)
    ensures i + n <= |NormWords(lower, text)| && IsShingle(lower, texts, n, ShingleAt(NormWords(lower, text), i, n))
  {
    var u := NormWords(lower, text);
    var k :| 0 <= k < |texts| && SharedRun(u, NormWords(lower, texts[k]), n);
    var w := NormWords(lower, texts[k]);
    var p: nat, q: nat :| p + n <= |u| && q + n <= |w| && RunAt(u, p, n) == RunAt(w, q, n);
    assert ShingleAt(w, q, n) == ShingleAt(u, p, n);
    i := p;
  }

  // ---------------------------------------------------------------- screening one string

  datatype Reason = TooManyWords | TooManyBytes | Pattern(which: nat) | CopiesPrivate

  /** Word and byte counting, lower-casing and the pattern list; the patterns are any tests. */
  datatype Setup = Setup(lower: Text -> Text, wordCount: Text -> nat, byteLength: Text -> nat,
                         patterns: seq<Text -> bool>)

  datatype Limits = Limits(maxWords: nat, maxBytes: nat)

  /** Drops later duplicates, as a Set does. */
  method Deduplicated(xs: seq<Reason>) returns (out: seq<Reason>)
    ensures forall x :: x in out <==> x in xs
    ensures Distinct(out) && (out == [] <==> xs == [])
  {
    out := [];
    for k := 0 to |xs|
      invariant forall x :: x in out <==> x in xs[..k]
      invariant Distinct(out)
    {
      assert xs[..k + 1] == xs[..k] + [xs[k]];
      if xs[k] !in out { out := out + [xs[k]]; }
    }
    assert xs[..|xs|] == xs;
    if xs != [] { assert xs[0] in xs; }
    if out != [] { assert out[0] in out; }
  }

  method FindCopy(lower: Text -> Text, text: Text, shingles: set<Text>, ghost texts: seq<Text>) returns (found: bool)
    requires forall x :: x in shingles <==> IsShingle(lower, texts, SHINGLE_SIZE, x)
    ensures found <==> Copies(lower, text, texts, SHINGLE_SIZE)
  {
    var w := NormWords(lower, text);
    var i := 0;
    while i + SHINGLE_SIZE <= |w|
      invariant forall k: nat :: k < i && k + SHINGLE_SIZE <= |w| ==> ShingleAt(w, k, SHINGLE_SIZE) !in shingles
      decreases |w| - i
    {
      if ShingleAt(w, i, SHINGLE_SIZE) in shingles {
        CopyByShingle(lower, text, texts, SHINGLE_SIZE, i);
        return true;
      }
      i := i + 1;
    }
    if Copies(lower, text, texts, SHINGLE_SIZE) {
      ghost var k := ShingleOfCopy(lower, text, texts, SHINGLE_SIZE);
    }
    return false;
  }

  /** The reasons are exactly the checks that fail; no reason means the text passed. */
  method ScreenText(s: Setup, text: Text, limits: Limits, shingles: set<Text>, ghost texts: seq<Text>)
    returns (reasons: seq<Reason>)
    requires forall x :: x in shingles <==> IsShingle(s.lower, texts, SHINGLE_SIZE, x)
    ensures TooManyWords in reasons <==> s.wordCount(text) > limits.maxWords
    ensures TooManyBytes in reasons <==> s.byteLength(text) > limits.maxBytes
    ensures forall k: nat :: Pattern(k) in reasons <==> k < |s.patterns| && s.patterns[k](text)
    ensures CopiesPrivate in reasons <==> Copies(s.lower, text, texts, SHINGLE_SIZE)
    ensures Distinct(reasons)
  {
    var rs: seq<Reason> := [];
    if s.wordCount(text) > limits.maxWords { rs := rs + [TooManyWords]; }
    if s.byteLength(text) > limits.maxBytes { rs := rs + [TooManyBytes]; }
    ghost var counts := rs;
    for k := 0 to |s.patterns|
      invariant forall j: nat :: Pattern(j) in rs <==> j < k && s.patterns[j](text)
      invariant forall r: Reason :: !r.Pattern? ==> (r in rs <==> r in counts)
    {
      if s.patterns[k](text) { rs := rs + [Pattern(k)]; }
    }
    var copied := false;
    if shingles != {} {
      copied := FindCopy(s.lower, text, shingles, texts);
    } else {
      NothingToCopy(s.lower, text, shingles, texts);
    }
    if copied { rs := rs + [CopiesPrivate]; }
    reasons := Deduplicated(rs);
  }

  lemma NothingToCopy(lower: Text -> Text, text: Text, shingles: set<Text>, texts: seq<Text>)
    requires shingles == {} && forall x :: x in shingles <==> IsShingle(lower, texts, SHINGLE_SIZE, x)
    ensures !Copies(lower, text, texts, SHINGLE_SIZE)
  {
    if Copies(lower, text, texts, SHINGLE_SIZE) {
      var k := ShingleOfCopy(lower, text, texts, SHINGLE_SIZE);
    }
  }

  // ---------------------------------------------------------------- the private corpus

  /** Keys that hold public material. */
  type PublicKey = Text -> bool

  function Corpus(pub: PublicKey, v: Json, public: bool): seq<Text> {
    match v
    case Str(s) => if !public && |s| >= MIN_PRIVATE_LENGTH then [s] else []
    case Arr(items) => CorpusOfItems(pub, items, public)
    case Obj(ms) => CorpusOfMembers(pub, ms, public)
    case _ => []
  }

  function CorpusOfItems(pub: PublicKey, items: seq<Json>, public: bool): seq<Text> {
    if items == [] then [] else Corpus(pub, items[0], public) + CorpusOfItems(pub, items[1..], public)
  }

  function CorpusOfMembers(pub: PublicKey, ms: seq<Member>, public: bool): seq<Text> {
    if ms == [] then []
    else
      var rest := CorpusOfMembers(pub, ms[1..], public);
      if ms[0].value.None? then rest else Corpus(pub, ms[0].value.value, public || pub(ms[0].key)) + rest
  }

  /** The string at a path of child positions, provided no key on the way is public. */
  function PrivateLeaf(pub: PublicKey, v: Json, path: seq<nat>): Option<Text>
    decreases |path|
  {
    match v
    case Str(s) => if path == [] then Some(s) else None
    case Arr(items) => if path != [] && path[0] < |items| then PrivateLeaf(pub, items[path[0]], path[1..]) else None
    case Obj(ms) =>
      if path != [] && path[0] < |ms| && ms[path[0]].value.Some? && !pub(ms[path[0]].key)
      then PrivateLeaf(pub, ms[path[0]].value.value, path[1..]) else None
    case _ => None
  }

  lemma {:induction false} PublicHasNone(pub: PublicKey, v: Json)
    ensures Corpus(pub, v, true) == []
    decreases v, 0
  {
    match v
    case Arr(items) => PublicItemsNone(pub, items);
    case Obj(ms) => PublicMembersNone(pub, ms);
    case _ =>
  }

  lemma {:induction false} PublicItemsNone(pub: PublicKey, items: seq<Json>)
    ensures CorpusOfItems(pub, items, true) == []
    decreases items, 1
  {
    if items != [] {
      PublicHasNone(pub, items[0]);
      PublicItemsNone(pub, items[1..]);
    }
  }

  lemma {:induction false} PublicMembersNone(pub: PublicKey, ms: seq<Member>)
    ensures CorpusOfMembers(pub, ms, true) == []
    decreases ms, 1
  {
    if ms != [] {
      if ms[0].value.Some? { PublicHasNone(pub, ms[0].value.value); }
      PublicMembersNone(pub, ms[1..]);
    }
  }

  /** Every long private leaf, however deep, is in the corpus. */
  lemma {:induction false} LeafInCorpus(pub: PublicKey, v: Json, path: seq<nat>)
    requires PrivateLeaf(pub, v, path).Some? && |PrivateLeaf(pub, v, path).value| >= 40
    ensures PrivateLeaf(pub, v, path).value in Corpus(pub, v, false)
    decreases |path|
  {
    match v
    case Str(s) =>
    case Arr(items) =>
      LeafInCorpus(pub, items[path[0]], path[1..]);
      ItemInCorpus(pub, items, path[0], PrivateLeaf(pub, v, path).value);
    case Obj(ms) =>
      LeafInCorpus(pub, ms[path[0]].value.value, path[1..]);
      MemberInCorpus(pub, ms, path[0], PrivateLeaf(pub, v, path).value);
  }

  lemma {:induction false} ItemInCorpus(pub: PublicKey, items: seq<Json>, i: nat, x: Text)
    requires i < |items| && x in Corpus(pub, items[i], false)
    ensures x in CorpusOfItems(pub, items, false)
  {
    if i > 0 { ItemInCorpus(pub, items[1..], i - 1, x); }
  }

  lemma {:induction false} MemberInCorpus(pub: PublicKey, ms: seq<Member>, i: nat, x: Text)
    requires i < |ms| && ms[i].value.Some? && !pub(ms[i].key) && x in Corpus(pub, ms[i].value.value, false)
    ensures x in CorpusOfMembers(pub, ms, false)
  {
    if i > 0 { MemberInCorpus(pub, ms[1..], i - 1, x); }
  }

  /** And nothing else is. */
  lemma {:induction false} CorpusIsLeaf(pub: PublicKey, v: Json, x: Text) returns (path: seq<nat>)
    requires x in Corpus(pub, v, false)
    ensures PrivateLeaf(pub, v, path) == Some(x) && |x| >= 40
    decreases v, 0
  {
    match v
    case Str(s) => path := [];
    case Arr(items) =>
      var i, p := CorpusItemLeaf(pub, items, x);
      path := [i] + p;
      assert path[1..] == p;
    case Obj(ms) =>
      var i, p := CorpusMemberLeaf(pub, ms, x);
      path := [i] + p;
      assert path[1..] == p;
  }

  lemma {:induction false} CorpusItemLeaf(pub: PublicKey, items: seq<Json>, x: Text) returns (i: nat, p: seq<nat>)
    requires x in CorpusOfItems(pub, items, false)
    ensures i < |items| && PrivateLeaf(pub, items[i], p) == Some(x) && |x| >= MIN_PRIVATE_LENGTH
    decreases items, 1
  {
    if x in Corpus(pub, items[0], false) {
      p := CorpusIsLeaf(pub, items[0], x);
      i := 0;
    } else {
      i, p := CorpusItemLeaf(pub, items[1..], x);
      i := i + 1;
    }
  }

  lemma {:induction false} CorpusMemberLeaf(pub: PublicKey, ms: seq<Member>, x: Text) returns (i: nat, p: seq<nat>)
    requires x in CorpusOfMembers(pub, ms, false)
    ensures i < |ms| && ms[i].value.Some? && !pub(ms[i].key) && PrivateLeaf(pub, ms[i].value.value, p) == Some(x)
            && |x| >= MIN_PRIVATE_LENGTH
    decreases ms, 1
  {
    if ms[0].value.Some? && pub(ms[0].key) { PublicHasNone(pub, ms[0].value.value); }
    if ms[0].value.Some? && x in Corpus(pub, ms[0].value.value, pub(ms[0].key)) {
      p := CorpusIsLeaf(pub, ms[0].value.value, x);
      i := 0;
    } else {
      i, p := CorpusMemberLeaf(pub, ms[1..], x);
      i := i + 1;
    }
  }

  // ---------------------------------------------------------------- screening a decision

  const RATIONALE_LIMITS := Limits(80, 700)
  const FACT_LIMITS := Limits(25, 250)

  /** "Rationale withheld by output screening." */
  const RATIONALE: Text := [82, 97, 116, 105, 111, 110, 97, 108, 101]
  const WITHHELD: Text := [119, 105, 116, 104, 104, 101, 108, 100]
  const BY: Text := [98, 121]
  const OUTPUT: Text := [111, 117, 116, 112, 117, 116]
  const SCREENING: Text := [115, 99, 114, 101, 101, 110, 105, 110, 103]
  const FULL_STOP: CodeUnit := 46
  const RATIONALE_LOWER: Text := [114, 97, 116, 105, 111, 110, 97, 108, 101]
  const LAST_WORDS: Text := OUTPUT + [SPACE] + (SCREENING + [FULL_STOP] + [])
  const OTHER_WORDS: Text := WITHHELD + [SPACE] + (BY + [SPACE] + LAST_WORDS)
  const WITHHELD_RATIONALE: Text := RATIONALE + [SPACE] + OTHER_WORDS
  const WITHHELD_LOWER: Text := RATIONALE_LOWER + [SPACE] + OTHER_WORDS

  datatype Public = Public(rationale: Text, citedFacts: seq<Text>, passed: bool, droppedFacts: nat)

  /** All checks pass. */
  ghost predicate Passes(s: Setup, text: Text, limits: Limits, texts: seq<Text>) {
    && s.wordCount(text) <= limits.maxWords
    && s.byteLength(text) <= limits.maxBytes
    && (forall k :: 0 <= k < |s.patterns| ==> !s.patterns[k](text))
    && !Copies(s.lower, text, texts, SHINGLE_SIZE)
  }

  ghost function Passing(s: Setup, facts: seq<Text>, texts: seq<Text>): seq<Text> {
    if facts == [] then []
    else
      Passing(s, facts[..|facts| - 1], texts)
      + if Passes(s, facts[|facts| - 1], FACT_LIMITS, texts) then [facts[|facts| - 1]] else []
  }

  lemma {:induction false} PassingPass(s: Setup, facts: seq<Text>, texts: seq<Text>)
    ensures forall f :: f in Passing(s, facts, texts) ==> f in facts && Passes(s, f, FACT_LIMITS, texts)
    ensures |Passing(s, facts, texts)| <= |facts|
    ensures |Passing(s, facts, texts)| == |facts| ==> Passing(s, facts, texts) == facts
  {
    if facts != [] {
      var n := |facts| - 1;
      PassingPass(s, facts[..n], texts);
      assert facts == facts[..n] + [facts[n]];
    }
  }

  method Screen(s: Setup, text: Text, limits: Limits, shingles: set<Text>, ghost texts: seq<Text>)
    returns (passed: bool)
    requires forall x :: x in shingles <==> IsShingle(s.lower, texts, SHINGLE_SIZE, x)
    ensures passed <==> Passes(s, text, limits, texts)
  {
    var reasons := ScreenText(s, text, limits, shingles, texts);
    passed := reasons == [];
    if passed {
      assert forall k: nat :: Pattern(k) !in reasons;
    } else {
      SomeReason(reasons);
    }
  }

  lemma SomeReason(reasons: seq<Reason>)
    requires reasons != []
    ensures TooManyWords in reasons || TooManyBytes in reasons || CopiesPrivate in reasons
            || exists k: nat :: Pattern(k) in reasons
  {
    var r := reasons[0];
    assert r in reasons;
    match r
    case Pattern(k) => assert Pattern(k) in reasons;
    case _ =>
  }

  /** A failing rationale is replaced, failing facts among the first five are dropped, the rest stays as it is. */
  method ScreenDecision(s: Setup, rationale: Text, citedFacts: seq<Text>, shingles: set<Text>, ghost texts: seq<Text>)
      returns (p: Public)
    requires forall x :: x in shingles <==> IsShingle(s.lower, texts, SHINGLE_SIZE, x)
    ensures p.rationale == if Passes(s, rationale, RATIONALE_LIMITS, texts) then rationale else WITHHELD_RATIONALE
    ensures var considered := citedFacts[..if |citedFacts| < MAX_FACTS then |citedFacts| else MAX_FACTS];
            && p.citedFacts == Passing(s, considered, texts)
            && p.droppedFacts == |considered| - |p.citedFacts|
            && (p.passed <==> Passes(s, rationale, RATIONALE_LIMITS, texts) && p.citedFacts == considered)
  {
    var ok := Screen(s, rationale, RATIONALE_LIMITS, shingles, texts);
    var considered := citedFacts[..if |citedFacts| < MAX_FACTS then |citedFacts| else MAX_FACTS];
    var facts: seq<Text> := [];
    for k := 0 to |considered|
      invariant facts == Passing(s, considered[..k], texts)
    {
      assert considered[..k + 1][..k] == considered[..k];
      var pass := Screen(s, considered[k], FACT_LIMITS, shingles, texts);
      if pass { facts := facts + [considered[k]]; }
    }
    assert considered[..|considered|] == considered;
    PassingPass(s, considered, texts);
    var dropped := |considered| - |facts|;
    p := Public(if ok then rationale else WITHHELD_RATIONALE, facts, ok && dropped == 0, dropped);
  }

  lemma NoticeWords()
    ensures RATIONALE == Codes("Rationale") && RATIONALE_LOWER == Codes("rationale")
    ensures WITHHELD == Codes("withheld") && BY == Codes("by") && OUTPUT == Codes("output")
    ensures SCREENING == Codes("screening")
  {
  }

  /** The notice is its words with one space between them, and a full stop. */
  lemma WithheldText()
    ensures var end := Codes("output") + [32] + (Codes("screening") + [46] + []);
            var rest := Codes("withheld") + [32] + (Codes("by") + [32] + end);
            WITHHELD_RATIONALE == Codes("Rationale") + [32] + rest && WITHHELD_LOWER == Codes("rationale") + [32] + rest
  {
    NoticeWords();
  }

  /** The notice that replaces a rationale has too few words to share a run with anything. */
  lemma WithheldIsShort()
    ensures |Words(WITHHELD_LOWER)| < 7
  {
    OneMoreWord(SCREENING, FULL_STOP, []);
    OneMoreWord(OUTPUT, SPACE, SCREENING + [FULL_STOP] + []);
    OneMoreWord(BY, SPACE, LAST_WORDS);
    OneMoreWord(WITHHELD, SPACE, BY + [SPACE] + LAST_WORDS);
    OneMoreWord(RATIONALE_LOWER, SPACE, OTHER_WORDS);
  }

  lemma OneMoreWord(w: Text, c: CodeUnit, rest: Text)
    requires !WordChar(c) && forall x :: x in w ==> WordChar(x)
    ensures |Words(w + [c] + rest)| <= 1 + |Words(rest)|
  {
    WordsConcat(w, c, rest);
    OneWordAtMost(w);
  }

  lemma ShortSharesNothing(u: seq<Text>, w: seq<Text>, n: nat)
    requires |u| < n
    ensures !SharedRun(u, w, n)
  {
  }

  /** The text shares seven words in a row with a string of 40 or more code units under no public key. */
  ghost predicate CopiesLeaf(s: Setup, pub: PublicKey, packet: Json, text: Text) {
    exists path: seq<nat>, x: Text ::
      LongLeaf(pub, packet, path, x) && SharedRun(NormWords(s.lower, text), NormWords(s.lower, x), 7)
  }

  ghost predicate LongLeaf(pub: PublicKey, packet: Json, path: seq<nat>, x: Text) {
    PrivateLeaf(pub, packet, path) == Some(x) && |x| >= 40
  }

  /** May be published: short enough, tripping no pattern, copying nothing private. */
  ghost predicate Releasable(s: Setup, pub: PublicKey, packet: Json, text: Text, maxWords: nat, maxBytes: nat) {
    && s.wordCount(text) <= maxWords && s.byteLength(text) <= maxBytes
    && (forall k :: 0 <= k < |s.patterns| ==> !s.patterns[k](text))
    && !CopiesLeaf(s, pub, packet, text)
  }

  lemma CopiesExactly(s: Setup, pub: PublicKey, packet: Json, text: Text)
    ensures Copies(s.lower, text, Corpus(pub, packet, false), SHINGLE_SIZE) <==> CopiesLeaf(s, pub, packet, text)
  {
    var texts := Corpus(pub, packet, false);
    var u := NormWords(s.lower, text);
    if Copies(s.lower, text, texts, SHINGLE_SIZE) {
      var k :| 0 <= k < |texts| && SharedRun(u, NormWords(s.lower, texts[k]), SHINGLE_SIZE);
      var path := CorpusIsLeaf(pub, packet, texts[k]);
      assert LongLeaf(pub, packet, path, texts[k]);
    }
    if CopiesLeaf(s, pub, packet, text) {
      var path: seq<nat>, x: Text :| LongLeaf(pub, packet, path, x) && SharedRun(u, NormWords(s.lower, x), 7);
      LeafInCorpus(pub, packet, path);
      var k :| 0 <= k < |texts| && texts[k] == x;
      assert SharedRun(u, NormWords(s.lower, texts[k]), SHINGLE_SIZE);
    }
  }

  /** `kept` lists, in order, the places of the first five facts that may be published. */
  ghost predicate KeptFacts(s: Setup, pub: PublicKey, packet: Json, facts: seq<Text>, kept: seq<nat>) {
    && (forall k, l :: 0 <= k < l < |kept| ==> kept[k] < kept[l])
    && forall i: nat :: i in kept <==> i < 5 && i < |facts| && Releasable(s, pub, packet, facts[i], 25, 250)
  }

  lemma {:induction false} PassingPlaces(s: Setup, facts: seq<Text>, texts: seq<Text>) returns (kept: seq<nat>)
    ensures forall k, l :: 0 <= k < l < |kept| ==> kept[k] < kept[l]
    ensures forall i: nat :: i in kept <==> i < |facts| && Passes(s, facts[i], FACT_LIMITS, texts)
    ensures |kept| == |Passing(s, facts, texts)|
    ensures forall k :: 0 <= k < |kept| ==> kept[k] < |facts| && Passing(s, facts, texts)[k] == facts[kept[k]]
  {
    if facts == [] {
      kept := [];
    } else {
      var n := |facts| - 1;
      var before := PassingPlaces(s, facts[..n], texts);
      kept := before + if Passes(s, facts[n], FACT_LIMITS, texts) then [n] else [];
      forall k | 0 <= k < |before| ensures before[k] < n { assert before[k] in before; }
    }
  }

  lemma PassesExactly(s: Setup, pub: PublicKey, packet: Json, text: Text, limits: Limits)
    ensures Passes(s, text, limits, Corpus(pub, packet, false))
            <==> Releasable(s, pub, packet, text, limits.maxWords, limits.maxBytes)
  {
    CopiesExactly(s, pub, packet, text);
  }

  /**
   * decide.ts's finish: whatever the case packet and the model's output, the rationale is released
   * exactly when it may be published and has at most 80 words and 700 bytes; of the first five facts
   * exactly those are released, in order, that may be published and have at most 25 words and 250 bytes.
   * So nothing released shares seven words in a row with a long private string of the packet.
   */
  method Finish(s: Setup, pub: PublicKey, packet: Json, rationale: Text, citedFacts: seq<Text>)
    returns (p: Public, ghost kept: seq<nat>)
    requires s.lower(WITHHELD_RATIONALE) == WITHHELD_LOWER
    ensures p.rationale == if Releasable(s, pub, packet, rationale, 80, 700) then rationale else WITHHELD_RATIONALE
    ensures KeptFacts(s, pub, packet, citedFacts, kept) && |p.citedFacts| == |kept|
    ensures forall k :: 0 <= k < |kept| ==> kept[k] < |citedFacts| && p.citedFacts[k] == citedFacts[kept[k]]
    ensures p.droppedFacts == (if |citedFacts| < 5 then |citedFacts| else 5) - |kept|
    ensures p.passed <==> Releasable(s, pub, packet, rationale, 80, 700) && p.droppedFacts == 0
    ensures !CopiesLeaf(s, pub, packet, p.rationale)
    ensures forall f :: f in p.citedFacts ==> !CopiesLeaf(s, pub, packet, f)
  {
    var texts := Corpus(pub, packet, false);
    var shingles := Shingles(s.lower, texts, SHINGLE_SIZE);
    p := ScreenDecision(s, rationale, citedFacts, shingles, texts);
    PassesExactly(s, pub, packet, rationale, RATIONALE_LIMITS);
    NoticeCopiesNothing(s, pub, packet);
    var considered := citedFacts[..if |citedFacts| < MAX_FACTS then |citedFacts| else MAX_FACTS];
    kept := PassingPlaces(s, considered, texts);
    PassingPass(s, considered, texts);
    forall i: nat
      ensures i in kept <==> i < 5 && i < |citedFacts| && Releasable(s, pub, packet, citedFacts[i], 25, 250)
    {
      if i < |considered| { PassesExactly(s, pub, packet, considered[i], FACT_LIMITS); }
    }
    forall f | f in p.citedFacts ensures !CopiesLeaf(s, pub, packet, f) {
      var k :| 0 <= k < |kept| && p.citedFacts[k] == f;
      assert kept[k] in kept;
    }
  }

  lemma NoticeCopiesNothing(s: Setup, pub: PublicKey, packet: Json)
    requires s.lower(WITHHELD_RATIONALE) == WITHHELD_LOWER
    ensures !CopiesLeaf(s, pub, packet, WITHHELD_RATIONALE)
  {
    WithheldIsShort();
    forall x: Text ensures !SharedRun(NormWords(s.lower, WITHHELD_RATIONALE), NormWords(s.lower, x), 7) {
      ShortSharesNothing(NormWords(s.lower, WITHHELD_RATIONALE), NormWords(s.lower, x), 7);
    }
  }
}
