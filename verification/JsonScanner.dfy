/** The brace scanner of rubric.ts against the JSON grammar: it stops exactly where the object ends. */
module JsonScanner {
  import opened Base
  import opened Lex
  import opened Json
  import opened JsonParser

  /** What is left after the brace that closes depth 0, or None when there is none. */
  function ScanRest(s: Text, depth: int, inStr: bool, esc: bool): (r: Option<Text>)
    ensures r.Some? ==> |r.value| < |s|
    decreases |s|
  {
    if s == [] then None
    else if inStr then
      if esc then ScanRest(s[1..], depth, true, false)
      else if s[0] == BACKSLASH then ScanRest(s[1..], depth, true, true)
      else ScanRest(s[1..], depth, s[0] != QUOTE, false)
    else if s[0] == QUOTE then ScanRest(s[1..], depth, true, false)
    else if s[0] == LBRACE then ScanRest(s[1..], depth + 1, false, false)
    else if s[0] == RBRACE then
      if depth - 1 == 0 then Some(s[1..]) else ScanRest(s[1..], depth - 1, false, false)
    else ScanRest(s[1..], depth, false, false)
  }

  /** Index of the first opening brace. */
  function FirstBrace(s: Text): (i: nat)
    ensures i <= |s|
  {
    if s == [] || s[0] == LBRACE then 0 else 1 + FirstBrace(s[1..])
  }

  function Extract(body: Text): Option<Text> {
    var start := FirstBrace(body);
    match ScanRest(body[start..], 0, false, false)
    case None => None
    case Some(rest) => Some(body[start..|body| - |rest|])
  }

  method IndexOfBrace(body: Text) returns (start: int)
    ensures start == if FirstBrace(body) == |body| then -1 else FirstBrace(body)
  {
    for i := 0 to |body|
      invariant FirstBrace(body) == i + FirstBrace(body[i..])
    {
      if body[i] == LBRACE { return i; }
    }
    return -1;
  }

  method ExtractJsonObject(body: Text) returns (r: Option<Text>)
    ensures r == Extract(body)
  {
    var start := IndexOfBrace(body);
    if start < 0 {
      assert body[|body|..] == [];
      return None;
    }
    var depth, inStr, esc := 0, false, false;
    for i := start to |body|
      invariant !inStr ==> !esc
      invariant ScanRest(body[start..], 0, false, false) == ScanRest(body[i..], depth, inStr, esc)
    {
      var c := body[i];
      assert body[i..][1..] == body[i + 1..];
      if inStr {
        if esc { esc := false; } else if c == BACKSLASH { esc := true; } else if c == QUOTE { inStr := false; }
      } else if c == QUOTE {
        inStr := true;
      } else if c == LBRACE {
        depth := depth + 1;
      } else if c == RBRACE {
        depth := depth - 1;
        if depth == 0 { return Some(body[start..i + 1]); }
      }
    }
    return None;
  }

  // ---------------------------------------------------------------- the scanner walks over JSON values

  /** Outside strings, at the same depth. */
  ghost predicate WalksTo(s: Text, rest: Text) {
    forall d :: d >= 1 ==> ScanRest(s, d, false, false) == ScanRest(rest, d, false, false)
  }

  predicate Neutral(c: int) {
    c != QUOTE && c != LBRACE && c != RBRACE
  }

  lemma {:induction false} SpaceWalks(s: Text)
    ensures WalksTo(s, SkipSpace(s))
  {
    if s != [] && IsSpace(s[0]) { SpaceWalks(s[1..]); }
  }

  lemma {:induction false} RunWalks(s: Text, n: nat)
    requires n <= |s| && forall i :: 0 <= i < n ==> Neutral(s[i])
    ensures WalksTo(s, s[n..])
  {
    if n > 0 {
      assert forall i :: 0 <= i < n - 1 ==> s[1..][i] == s[i + 1];
      RunWalks(s[1..], n - 1);
      assert s[1..][n - 1..] == s[n..];
    } else {
      assert s[0..] == s;
    }
  }

  lemma {:induction false} NumRunNeutral(s: Text)
    ensures forall i :: 0 <= i < NumRun(s) ==> Neutral(s[i])
  {
    if s != [] && NumChar(s[0]) {
      NumRunNeutral(s[1..]);
      assert forall i :: 0 < i < NumRun(s) ==> s[i] == s[1..][i - 1];
    }
  }

  /** One character of a string keeps the scanner inside the string. */
  lemma UnitScanned(s: Text, d: int)
    requires ParseUnit(s).Some?
    ensures ScanRest(s, d, true, false) == ScanRest(ParseUnit(s).value.1, d, true, false)
  {
    if s[0] == BACKSLASH {
      assert s[1..][1..] == s[2..];
      if s[1] == 117 { HexScanned(s[2..], d); }
    }
  }

  lemma HexDigitScanned(s: Text, d: int)
    requires s != [] && HexValue(s[0]).Some?
    ensures ScanRest(s, d, true, false) == ScanRest(s[1..], d, true, false)
  {
  }

  lemma HexScanned(s: Text, d: int)
    requires ParseHex4(s).Some?
    ensures ScanRest(s, d, true, false) == ScanRest(s[4..], d, true, false)
  {
    HexDigitScanned(s, d);
    HexDigitScanned(s[1..], d);
    HexDigitScanned(s[2..], d);
    HexDigitScanned(s[3..], d);
    assert s[1..][1..] == s[2..] && s[2..][1..] == s[3..] && s[3..][1..] == s[4..];
  }

  lemma {:induction false} StringScanned(s: Text, d: int)
    requires ParseString(s).Some?
    ensures ScanRest(s, d, true, false) == ScanRest(ParseString(s).value.1, d, false, false)
    decreases |s|
  {
    if s[0] != QUOTE {
      UnitScanned(s, d);
      StringScanned(ParseUnit(s).value.1, d);
    }
  }

  lemma StringWalks(t: Text)
    requires t != [] && t[0] == QUOTE && ParseString(t[1..]).Some?
    ensures WalksTo(t, ParseString(t[1..]).value.1)
  {
    forall d | d >= 1 ensures ScanRest(t, d, false, false) == ScanRest(ParseString(t[1..]).value.1, d, false, false) {
      StringScanned(t[1..], d);
    }
  }

  lemma WalkTrans(a: Text, b: Text, c: Text)
    requires WalksTo(a, b) && WalksTo(b, c)
    ensures WalksTo(a, c)
  {
  }

  lemma OneNeutral(t: Text)
    requires t != [] && Neutral(t[0])
    ensures WalksTo(t, t[1..])
  {
  }

  lemma WordWalks(w: Text, v: Json, t: Text)
    requires w in {NULL, TRUE, FALSE} && ParseWord(w, v, t).Some?
    ensures WalksTo(t, ParseWord(w, v, t).value.1)
  {
    forall i | 0 <= i < |w| ensures Neutral(t[i]) { assert t[..|w|][i] == w[i]; }
    RunWalks(t, |w|);
  }

  lemma NumberWalks(t: Text)
    requires ParseNumber(t).Some?
    ensures WalksTo(t, ParseNumber(t).value.1)
  {
    NumRunNeutral(t);
    RunWalks(t, NumRun(t));
  }

  lemma {:induction false} SkipTwice(s: Text)
    ensures SkipSpace(SkipSpace(s)) == SkipSpace(s)
  {
    if s != [] && IsSpace(s[0]) { SkipTwice(s[1..]); }
  }

  lemma {:induction false} ValueWalks(s: Text)
    requires ParseValue(s).Some?
    ensures WalksTo(s, ParseValue(s).value.1)
    decreases |s|, 2
  {
    var t := SkipSpace(s);
    SpaceWalks(s);
    SkipTwice(s);
    SkippedParses(s);
    WalksFrom(t);
    WalkTrans(s, t, ParseValue(s).value.1);
  }

  lemma SkippedParses(s: Text)
    ensures ParseValue(SkipSpace(s)) == ParseValue(s)
  {
    SkipTwice(s);
  }

  /** The same for a text that does not begin with space. */
  lemma {:induction false} WalksFrom(t: Text)
    requires t == SkipSpace(t) && ParseValue(t).Some?
    ensures WalksTo(t, ParseValue(t).value.1)
    decreases |t|, 1
  {
    if t[0] == LBRACE {
      ObjCloses(t);
      OpenAndClose(t, ParseValue(t).value.1);
    } else if t[0] == LBRACKET {
      ArrWalks(t);
    } else if t[0] == QUOTE {
      StringWalks(t);
    } else if t[0] == 110 {
      WordWalks(NULL, Null, t);
    } else if t[0] == 116 {
      WordWalks(TRUE, Bool(true), t);
    } else if t[0] == 102 {
      WordWalks(FALSE, Bool(false), t);
    } else {
      NumberWalks(t);
    }
  }

  lemma {:induction false} ArrWalks(t: Text)
    requires t == SkipSpace(t) && ParseValue(t).Some? && t[0] == LBRACKET
    ensures WalksTo(t, ParseValue(t).value.1)
    decreases |t|, 0
  {
    var u := SkipSpace(t[1..]);
    OneNeutral(t);
    if u != [] && u[0] == RBRACKET {
      SpaceWalks(t[1..]);
      OneNeutral(u);
      WalkTrans(t[1..], u, u[1..]);
      WalkTrans(t, t[1..], u[1..]);
    } else {
      ItemsWalk(t[1..]);
      WalkTrans(t, t[1..], ParseItems(t[1..]).value.1);
    }
  }

  lemma {:induction false} ItemsWalk(s: Text)
    requires ParseItems(s).Some?
    ensures WalksTo(s, ParseItems(s).value.1)
    decreases |s|, 3
  {
    ValueWalks(s);
    var after := ParseValue(s).value.1;
    var t := SkipSpace(after);
    SpaceWalks(after);
    OneNeutral(t);
    WalkTrans(after, t, t[1..]);
    WalkTrans(s, after, t[1..]);
    if t[0] == COMMA {
      ItemsWalk(t[1..]);
      WalkTrans(s, t[1..], ParseItems(t[1..]).value.1);
    }
  }

  // ---------------------------------------------------------------- objects close their brace

  /** From inside a brace at depth d to right after the brace that closes it. */
  ghost predicate ClosesTo(s: Text, rest: Text) {
    forall d :: d >= 1 ==>
      ScanRest(s, d, false, false) == if d == 1 then Some(rest) else ScanRest(rest, d - 1, false, false)
  }

  lemma WalkThenClose(a: Text, b: Text, c: Text)
    requires WalksTo(a, b) && ClosesTo(b, c)
    ensures ClosesTo(a, c)
  {
  }

  lemma BraceCloses(t: Text)
    requires t != [] && t[0] == RBRACE
    ensures ClosesTo(t, t[1..])
  {
  }

  lemma OpenAndClose(t: Text, rest: Text)
    requires t != [] && t[0] == LBRACE && ClosesTo(t[1..], rest)
    ensures WalksTo(t, rest)
  {
    forall d | d >= 1 ensures ScanRest(t, d, false, false) == ScanRest(rest, d, false, false) {
      assert ScanRest(t[1..], d + 1, false, false) == ScanRest(rest, d + 1 - 1, false, false);
    }
  }

  lemma {:induction false} ObjCloses(t: Text)
    requires t == SkipSpace(t) && t != [] && t[0] == LBRACE && ParseValue(t).Some?
    ensures ClosesTo(t[1..], ParseValue(t).value.1)
    decreases |t|, 0
  {
    var u := SkipSpace(t[1..]);
    if u != [] && u[0] == RBRACE {
      SpaceWalks(t[1..]);
      BraceCloses(u);
      WalkThenClose(t[1..], u, u[1..]);
    } else {
      MembersClose(t[1..]);
    }
  }

  lemma {:induction false} FieldWalks(s: Text)
    requires ParseField(s).Some?
    ensures WalksTo(s, ParseField(s).value.1)
    decreases |s|, 3
  {
    var t := SkipSpace(s);
    SpaceWalks(s);
    StringWalks(t);
    var k := ParseString(t[1..]).value.1;
    WalkTrans(s, t, k);
    var u := SkipSpace(k);
    SpaceWalks(k);
    WalkTrans(s, k, u);
    OneNeutral(u);
    WalkTrans(s, u, u[1..]);
    ValueWalks(u[1..]);
    WalkTrans(s, u[1..], ParseValue(u[1..]).value.1);
  }

  lemma {:induction false} MembersClose(s: Text)
    requires ParseMembers(s).Some?
    ensures ClosesTo(s, ParseMembers(s).value.1)
    decreases |s|, 4
  {
    FieldWalks(s);
    var after := ParseField(s).value.1;
    var t := SkipSpace(after);
    SpaceWalks(after);
    WalkTrans(s, after, t);
    if t[0] == RBRACE {
      BraceCloses(t);
      WalkThenClose(s, t, t[1..]);
    } else {
      OneNeutral(t);
      WalkTrans(s, t, t[1..]);
      MembersClose(t[1..]);
      WalkThenClose(s, t[1..], ParseMembers(t[1..]).value.1);
    }
  }

  // ---------------------------------------------------------------- the scanner finds the object

  lemma {:induction false} NoBraceBefore(prose: Text, s: Text)
    requires LBRACE !in prose && s != [] && s[0] == LBRACE
    ensures FirstBrace(prose + s) == |prose|
  {
    if prose == [] {
      assert prose + s == s;
    } else {
      assert prose[0] in prose && (prose + s)[1..] == prose[1..] + s;
      NoBraceBefore(prose[1..], s);
    }
  }

  /**
   * After prose without a brace, the scanner returns exactly the JSON object that begins there, with
   * whatever braces, quotes and backslashes its strings hold, and whatever follows it.
   */
  lemma ScannerFindsObject(prose: Text, s: Text)
    requires LBRACE !in prose && s != [] && s[0] == LBRACE && ParseValue(s).Some?
    ensures Extract(prose + s) == Some(s[..|s| - |ParseValue(s).value.1|])
  {
    var rest := ParseValue(s).value.1;
    NoBraceBefore(prose, s);
    assert (prose + s)[|prose|..] == s;
    ObjCloses(s);
    assert ScanRest(s, 0, false, false) == ScanRest(s[1..], 1, false, false) == Some(rest);
    assert (prose + s)[|prose|..|prose + s| - |rest|] == s[..|s| - |rest|];
  }

  /** In particular a printed object comes back unchanged from between prose and trailing text. */
  lemma PrintedObjectFound(prose: Text, v: Json, tail: Text)
    requires LBRACE !in prose && Valid(v) && v.Obj?
    ensures Extract(prose + Canonical(v) + tail) == Some(Canonical(v))
    ensures Parse(Canonical(v)) == Some(Norm(v))
  {
    var s := Canonical(v) + tail;
    ObjRoundTrip(v.members, tail);
    ScannerFindsObject(prose, s);
    assert prose + Canonical(v) + tail == prose + s;
    assert s[..|s| - |tail|] == Canonical(v);
    ObjRoundTrip(v.members, []);
    assert Canonical(v) + [] == Canonical(v);
  }
}
