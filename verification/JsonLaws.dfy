/** The printer determines a value up to the order of its members, and nothing else matters to it. */
module JsonLaws {
  import opened Base
  import opened Lex
  import opened Json
  import opened JsonParser

  /** Parsing what was printed gives the value back, members in key order. */
  lemma ParsePrinted(v: Json)
    requires Valid(v)
    ensures Parse(Canonical(v)) == Some(Norm(v))
  {
    ValueRoundTrip(v);
    assert Follows([]);
    assert Canonical(v) + [] == Canonical(v);
  }

  // ---------------------------------------------------------------- equality up to member order

  /** The same JSON value: members are compared by key, undefined ones do not count. */
  ghost predicate Same(v: Json, w: Json)
    decreases v
  {
    match v
    case Arr(items) => w.Arr? && |items| == |w.items| && forall i :: 0 <= i < |items| ==> Same(items[i], w.items[i])
    case Obj(ms) =>
      && w.Obj?
      && (forall i :: 0 <= i < |ms| && ms[i].value.Some? ==>
            exists j :: 0 <= j < |w.members| && Matches(ms[i], w.members[j])
                && Same(ms[i].value.value, w.members[j].value.value))
      && forall j :: 0 <= j < |w.members| && w.members[j].value.Some?
          ==> exists i :: 0 <= i < |ms| && Matches(ms[i], w.members[j])
    case _ => v == w
  }

  predicate Matches(m: Member, n: Member) {
    m.key == n.key && m.value.Some? && n.value.Some?
  }

  // ---------------------------------------------------------------- sorting by key

  ghost predicate KeySorted<T>(xs: seq<(Text, T)>) {
    forall i, j :: 0 <= i < j < |xs| ==> Less(xs[i].0, xs[j].0)
  }

  ghost predicate DistinctKeys<T>(xs: seq<(Text, T)>) {
    forall i, j :: 0 <= i < j < |xs| ==> xs[i].0 != xs[j].0
  }

  lemma {:induction false} InsertKeyedElements<T>(x: (Text, T), xs: seq<(Text, T)>)
    ensures multiset(InsertKeyed(x, xs)) == multiset(xs) + multiset{x}
  {
    if xs != [] {
      assert xs == [xs[0]] + xs[1..];
      if Less(xs[0].0, x.0) { InsertKeyedElements(x, xs[1..]); }
    }
  }

  lemma {:induction false} SortKeyedElements<T>(xs: seq<(Text, T)>)
    ensures multiset(SortKeyed(xs)) == multiset(xs)
  {
    if xs != [] {
      assert xs == [xs[0]] + xs[1..];
      SortKeyedElements(xs[1..]);
      InsertKeyedElements(xs[0], SortKeyed(xs[1..]));
    }
  }

  lemma {:induction false} InsertKeyedFacts<T>(x: (Text, T), xs: seq<(Text, T)>)
    requires KeySorted(xs) && forall i :: 0 <= i < |xs| ==> xs[i].0 != x.0
    ensures KeySorted(InsertKeyed(x, xs))
  {
    var r := InsertKeyed(x, xs);
    if xs != [] {
      if Less(xs[0].0, x.0) {
        InsertKeyedFacts(x, xs[1..]);
        InsertKeyedElements(x, xs[1..]);
        var t := InsertKeyed(x, xs[1..]);
        forall j | 0 <= j < |t| ensures Less(xs[0].0, t[j].0) {
          assert t[j] in multiset(t);
          assert t[j] == x || t[j] in multiset(xs[1..]);
          if t[j] != x {
            var k :| 0 <= k < |xs[1..]| && xs[1..][k] == t[j];
            assert xs[k + 1] == t[j];
          }
        }
        assert r == [xs[0]] + t;
      } else {
        LessTotal(x.0, xs[0].0);
        forall j | 0 <= j < |xs| ensures Less(x.0, xs[j].0) {
          if j > 0 { LessTransitive(x.0, xs[0].0, xs[j].0); }
        }
        assert r == [x] + xs;
      }
    }
  }

  lemma {:induction false} SortKeyedFacts<T>(xs: seq<(Text, T)>)
    requires DistinctKeys(xs)
    ensures KeySorted(SortKeyed(xs))
    ensures forall y :: y in SortKeyed(xs) <==> y in xs
  {
    SortKeyedElements(xs);
    forall y ensures y in SortKeyed(xs) <==> y in xs {
      assert y in SortKeyed(xs) <==> y in multiset(SortKeyed(xs));
      assert y in xs <==> y in multiset(xs);
    }
    if xs != [] {
      SortKeyedFacts(xs[1..]);
      SortKeyedElements(xs[1..]);
      var t := SortKeyed(xs[1..]);
      forall i | 0 <= i < |t| ensures t[i].0 != xs[0].0 {
        assert t[i] in multiset(t);
        var k :| 0 <= k < |xs[1..]| && xs[1..][k] == t[i];
        assert xs[k + 1] == t[i];
      }
      InsertKeyedFacts(xs[0], t);
    }
  }

  lemma {:induction false} KeyedUnique<T>(xs: seq<(Text, T)>, ys: seq<(Text, T)>)
    requires KeySorted(xs) && KeySorted(ys) && forall p :: p in xs <==> p in ys
    ensures xs == ys
  {
    if xs == [] {
      HasElement(ys);
    } else {
      assert xs[0] in xs && xs[0] in ys;
      assert ys[0] in ys && ys[0] in xs;
      var i :| 0 <= i < |ys| && ys[i] == xs[0];
      var j :| 0 <= j < |xs| && xs[j] == ys[0];
      if i > 0 && j > 0 { LessAsymmetric(ys[0].0, xs[0].0); }
      assert xs[0] == ys[0];
      forall p ensures p in xs[1..] <==> p in ys[1..] {
        InKeyedTail(xs, p);
        InKeyedTail(ys, p);
      }
      KeyedUnique(xs[1..], ys[1..]);
      assert xs == [xs[0]] + xs[1..] && ys == [ys[0]] + ys[1..];
    }
  }

  lemma InKeyedTail<T>(xs: seq<(Text, T)>, p: (Text, T))
    requires KeySorted(xs) && xs != []
    ensures p in xs[1..] <==> p in xs && p != xs[0]
  {
    if p in xs[1..] {
      var i :| 0 <= i < |xs[1..]| && xs[1..][i] == p;
      assert Less(xs[0].0, xs[i + 1].0);
      LessIrreflexive(xs[0].0);
    }
    if p in xs && p != xs[0] {
      var i :| 0 <= i < |xs| && xs[i] == p;
      assert xs[1..][i - 1] == p;
    }
  }

  /** Two lists of distinct keys with the same elements sort to the same list. */
  lemma SortsAlike<T>(xs: seq<(Text, T)>, ys: seq<(Text, T)>)
    requires DistinctKeys(xs) && DistinctKeys(ys) && forall p :: p in xs <==> p in ys
    ensures SortKeyed(xs) == SortKeyed(ys)
  {
    SortKeyedFacts(xs);
    SortKeyedFacts(ys);
    KeyedUnique(SortKeyed(xs), SortKeyed(ys));
  }

  // ---------------------------------------------------------------- members

  lemma {:induction false} MemberValid(ms: seq<Member>, i: nat)
    requires ValidMembers(ms) && i < |ms| && ms[i].value.Some?
    ensures Valid(ms[i].value.value)
  {
    if i > 0 { MemberValid(ms[1..], i - 1); }
  }

  lemma {:induction false} ItemValid(items: seq<Json>, i: nat)
    requires ValidItems(items) && i < |items|
    ensures Valid(items[i]) && CanonicalItems(items)[i] == Canonical(items[i])
  {
    if i > 0 { ItemValid(items[1..], i - 1); }
  }

  lemma {:induction false} NormItemAt(items: seq<Json>, i: nat)
    requires i < |items|
    ensures NormItems(items)[i] == Norm(items[i])
  {
    if i > 0 { NormItemAt(items[1..], i - 1); }
  }

  lemma {:induction false} PrintedMember(ms: seq<Member>, p: (Text, Text))
    requires ValidMembers(ms)
    ensures p in CanonicalMembers(ms) <==>
              exists i :: 0 <= i < |ms| && ms[i].key == p.0 && ms[i].value.Some? && Valid(ms[i].value.value)
                  && Canonical(ms[i].value.value) == p.1
  {
    if ms != [] {
      PrintedMember(ms[1..], p);
      if p in CanonicalMembers(ms[1..]) {
        var i :| 0 <= i < |ms[1..]| && ms[1..][i].key == p.0 && ms[1..][i].value.Some?
            && Valid(ms[1..][i].value.value) && Canonical(ms[1..][i].value.value) == p.1;
        assert ms[i + 1] == ms[1..][i];
      }
      if i :| 0 <= i < |ms| && ms[i].key == p.0 && ms[i].value.Some? && Valid(ms[i].value.value)
              && Canonical(ms[i].value.value) == p.1 {
        if i > 0 { assert ms[1..][i - 1] == ms[i]; }
      }
    }
  }

  lemma {:induction false} NormedMember(ms: seq<Member>, p: (Text, Json))
    ensures p in NormMembers(ms)
            <==> exists i :: 0 <= i < |ms| && ms[i].key == p.0 && ms[i].value.Some? && Norm(ms[i].value.value) == p.1
  {
    if ms != [] {
      NormedMember(ms[1..], p);
      if p in NormMembers(ms[1..]) {
        var i :| 0 <= i < |ms[1..]| && ms[1..][i].key == p.0 && ms[1..][i].value.Some?
            && Norm(ms[1..][i].value.value) == p.1;
        assert ms[i + 1] == ms[1..][i];
      }
      if i :| 0 <= i < |ms| && ms[i].key == p.0 && ms[i].value.Some? && Norm(ms[i].value.value) == p.1 {
        if i > 0 { assert ms[1..][i - 1] == ms[i]; }
      }
    }
  }

  lemma {:induction false} NormedKeys(ms: seq<Member>)
    requires Distinct(KeysOf(ms))
    ensures DistinctKeys(NormMembers(ms))
  {
    if ms != [] {
      DistinctTail(ms);
      NormedKeys(ms[1..]);
      forall j | 0 <= j < |NormMembers(ms[1..])| ensures NormMembers(ms[1..])[j].0 != ms[0].key {
        NormedMember(ms[1..], NormMembers(ms[1..])[j]);
        assert forall i :: 0 <= i < |ms[1..]| ==> ms[1..][i].key == KeysOf(ms)[i + 1];
      }
    }
  }

  lemma {:induction false} PrintedKeys(ms: seq<Member>)
    requires Distinct(KeysOf(ms)) && ValidMembers(ms)
    ensures DistinctKeys(CanonicalMembers(ms))
  {
    if ms != [] {
      DistinctTail(ms);
      PrintedKeys(ms[1..]);
      forall j | 0 <= j < |CanonicalMembers(ms[1..])| ensures CanonicalMembers(ms[1..])[j].0 != ms[0].key {
        PrintedMember(ms[1..], CanonicalMembers(ms[1..])[j]);
        assert forall i :: 0 <= i < |ms[1..]| ==> ms[1..][i].key == KeysOf(ms)[i + 1];
      }
    }
  }

  lemma DistinctTail(ms: seq<Member>)
    requires ms != [] && Distinct(KeysOf(ms))
    ensures Distinct(KeysOf(ms[1..]))
  {
    assert KeysOf(ms) == [ms[0].key] + KeysOf(ms[1..]);
    forall i, j | 0 <= i < j < |KeysOf(ms[1..])| ensures KeysOf(ms[1..])[i] != KeysOf(ms[1..])[j] {
      assert KeysOf(ms)[i + 1] != KeysOf(ms)[j + 1];
    }
  }

  // ---------------------------------------------------------------- same value, same text

  lemma {:induction false} SameText(v: Json, w: Json)
    requires Valid(v) && Valid(w) && Same(v, w)
    ensures Canonical(v) == Canonical(w)
    decreases v
  {
    match v
    case Arr(items) =>
      forall i | 0 <= i < |items| ensures CanonicalItems(items)[i] == CanonicalItems(w.items)[i] {
        ItemValid(items, i);
        ItemValid(w.items, i);
        SameText(items[i], w.items[i]);
      }
      assert CanonicalItems(items) == CanonicalItems(w.items);
    case Obj(ms) =>
      forall p ensures p in CanonicalMembers(ms) <==> p in CanonicalMembers(w.members) { SameMember(ms, w.members, p); }
      PrintedKeys(ms);
      PrintedKeys(w.members);
      SortsAlike(CanonicalMembers(ms), CanonicalMembers(w.members));
    case _ =>
  }

  lemma {:induction false} SameMember(ms: seq<Member>, ns: seq<Member>, p: (Text, Text))
    requires Valid(Obj(ms)) && Valid(Obj(ns)) && Same(Obj(ms), Obj(ns))
    ensures p in CanonicalMembers(ms) <==> p in CanonicalMembers(ns)
    decreases Obj(ms), 0
  {
    PrintedMember(ms, p);
    PrintedMember(ns, p);
    if p in CanonicalMembers(ms) {
      var i :| 0 <= i < |ms| && ms[i].key == p.0 && ms[i].value.Some? && Valid(ms[i].value.value)
          && Canonical(ms[i].value.value) == p.1;
      var j := SamePartner(ms, ns, i);
      SameText(ms[i].value.value, ns[j].value.value);
    }
    if p in CanonicalMembers(ns) {
      var j :| 0 <= j < |ns| && ns[j].key == p.0 && ns[j].value.Some? && Valid(ns[j].value.value)
          && Canonical(ns[j].value.value) == p.1;
      var i := SameOrigin(ms, ns, j);
      SameText(ms[i].value.value, ns[j].value.value);
    }
  }

  lemma SamePartner(ms: seq<Member>, ns: seq<Member>, i: nat) returns (j: nat)
    requires Valid(Obj(ms)) && Valid(Obj(ns)) && Same(Obj(ms), Obj(ns)) && i < |ms| && ms[i].value.Some?
    ensures j < |ns| && Matches(ms[i], ns[j]) && Same(ms[i].value.value, ns[j].value.value)
    ensures Valid(ms[i].value.value) && Valid(ns[j].value.value)
  {
    j :| 0 <= j < |ns| && Matches(ms[i], ns[j]) && Same(ms[i].value.value, ns[j].value.value);
    MemberValid(ms, i);
    MemberValid(ns, j);
  }

  lemma KeyOnce(ns: seq<Member>, j: nat, k: nat)
    requires Distinct(KeysOf(ns)) && j < |ns| && k < |ns| && ns[j].key == ns[k].key
    ensures j == k
  {
    assert KeysOf(ns)[j] == KeysOf(ns)[k];
  }

  lemma SomeOrigin(ms: seq<Member>, ns: seq<Member>, j: nat) returns (i: nat)
    requires Same(Obj(ms), Obj(ns)) && j < |ns| && ns[j].value.Some?
    ensures i < |ms| && Matches(ms[i], ns[j])
  {
    i :| 0 <= i < |ms| && Matches(ms[i], ns[j]);
  }

  lemma SameOrigin(ms: seq<Member>, ns: seq<Member>, j: nat) returns (i: nat)
    requires Valid(Obj(ms)) && Valid(Obj(ns)) && Same(Obj(ms), Obj(ns)) && j < |ns| && ns[j].value.Some?
    ensures i < |ms| && Matches(ms[i], ns[j]) && Same(ms[i].value.value, ns[j].value.value)
    ensures Valid(ms[i].value.value) && Valid(ns[j].value.value)
  {
    i := SomeOrigin(ms, ns, j);
    var k := SamePartner(ms, ns, i);
    KeyOnce(ns, j, k);
  }

  lemma {:induction false} NormSame(v: Json, w: Json)
    requires Valid(v) && Valid(w) && Norm(v) == Norm(w)
    ensures Same(v, w)
    decreases v
  {
    match v
    case Arr(items) =>
      assert NormItems(items) == NormItems(w.items);
      forall i | 0 <= i < |items| ensures Same(items[i], w.items[i]) {
        NormItemAt(items, i);
        NormItemAt(w.items, i);
        ItemValid(items, i);
        ItemValid(w.items, i);
        NormSame(items[i], w.items[i]);
      }
    case Obj(ms) =>
      var ns := w.members;
      forall p ensures p in NormMembers(ms) <==> p in NormMembers(ns) { SortedMembersSame(ms, ns, p); }
      forall i | 0 <= i < |ms| && ms[i].value.Some?
        ensures exists j :: 0 <= j < |ns| && Matches(ms[i], ns[j]) && Same(ms[i].value.value, ns[j].value.value)
      {
        var p := (ms[i].key, Norm(ms[i].value.value));
        NormedMember(ms, p);
        NormedMember(ns, p);
        var j :| 0 <= j < |ns| && ns[j].key == p.0 && ns[j].value.Some? && Norm(ns[j].value.value) == p.1;
        MemberValid(ms, i);
        MemberValid(ns, j);
        NormSame(ms[i].value.value, ns[j].value.value);
        assert Matches(ms[i], ns[j]);
      }
      forall j | 0 <= j < |ns| && ns[j].value.Some? ensures exists i :: 0 <= i < |ms| && Matches(ms[i], ns[j]) {
        var p := (ns[j].key, Norm(ns[j].value.value));
        NormedMember(ms, p);
        NormedMember(ns, p);
        var i :| 0 <= i < |ms| && ms[i].key == p.0 && ms[i].value.Some? && Norm(ms[i].value.value) == p.1;
        assert Matches(ms[i], ns[j]);
      }
    case _ =>
  }

  lemma SortedMembersSame(ms: seq<Member>, ns: seq<Member>, p: (Text, Json))
    requires Distinct(KeysOf(ms)) && Distinct(KeysOf(ns)) && Norm(Obj(ms)) == Norm(Obj(ns))
    ensures p in NormMembers(ms) <==> p in NormMembers(ns)
  {
    var xs, ys := SortKeyed(NormMembers(ms)), SortKeyed(NormMembers(ns));
    NormedKeys(ms);
    NormedKeys(ns);
    SortKeyedFacts(NormMembers(ms));
    SortKeyedFacts(NormMembers(ns));
    assert Members(xs) == Members(ys);
    forall i | 0 <= i < |xs| ensures xs[i] == ys[i] { assert Members(xs)[i] == Members(ys)[i]; }
    assert xs == ys;
  }

  /** Two values print alike exactly when they are the same up to the order of members. */
  lemma PrintsAlikeExactly(v: Json, w: Json)
    requires Valid(v) && Valid(w)
    ensures Canonical(v) == Canonical(w) <==> Same(v, w)
  {
    if Canonical(v) == Canonical(w) {
      ParsePrinted(v);
      ParsePrinted(w);
      NormSame(v, w);
    }
    if Same(v, w) { SameText(v, w); }
  }

  lemma {:induction false} SameItself(v: Json)
    ensures Same(v, v)
    decreases v
  {
    match v
    case Arr(items) => forall i | 0 <= i < |items| ensures Same(items[i], items[i]) { SameItself(items[i]); }
    case Obj(ms) =>
      forall i | 0 <= i < |ms| && ms[i].value.Some?
        ensures Matches(ms[i], ms[i]) && Same(ms[i].value.value, ms[i].value.value)
      {
        SameItself(ms[i].value.value);
      }
    case _ =>
  }

  /** Reordering the members of an object, or adding undefined ones, does not change the text. */
  lemma ReorderingIsImmaterial(ms: seq<Member>, ns: seq<Member>)
    requires Valid(Obj(ms)) && Valid(Obj(ns))
    requires forall m: Member :: m.value.Some? ==> (m in ms <==> m in ns)
    ensures Canonical(Obj(ms)) == Canonical(Obj(ns))
  {
    forall i | 0 <= i < |ms| && ms[i].value.Some?
      ensures exists j :: 0 <= j < |ns| && Matches(ms[i], ns[j]) && Same(ms[i].value.value, ns[j].value.value)
    {
      assert ms[i] in ms && ms[i] in ns;
      var j :| 0 <= j < |ns| && ns[j] == ms[i];
      SameItself(ms[i].value.value);
      assert Matches(ms[i], ns[j]);
    }
    forall j | 0 <= j < |ns| && ns[j].value.Some? ensures exists i :: 0 <= i < |ms| && Matches(ms[i], ns[j]) {
      assert ns[j] in ns && ns[j] in ms;
      var i :| 0 <= i < |ms| && ms[i] == ns[j];
      assert Matches(ms[i], ns[j]);
    }
    PrintsAlikeExactly(Obj(ms), Obj(ns));
  }
}
