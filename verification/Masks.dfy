/** Task masks (commitments.ts): bit i of the mask is the task with leaf index i. */
module Masks {
  import opened Base
  import opened Lex

  const MAX_TASKS := 256

  function Pow2(i: nat): (p: nat)
    ensures p >= 1
  {
    if i == 0 then 1 else 2 * Pow2(i - 1)
  }

  predicate Bit(m: nat, i: nat) {
    if i == 0 then m % 2 == 1 else Bit(m / 2, i - 1)
  }

  /** m | (1 << i) */
  function SetBit(m: nat, i: nat): nat {
    if i == 0 then m + 1 - m % 2 else 2 * SetBit(m / 2, i - 1) + m % 2
  }

  /** m >> i */
  function Shift(m: nat, i: nat): nat {
    if i == 0 then m else Shift(m / 2, i - 1)
  }

  lemma {:induction false} SetBitSets(m: nat, i: nat, j: nat)
    ensures Bit(SetBit(m, i), j) <==> j == i || Bit(m, j)
  {
    if i > 0 && j > 0 {
      SetBitSets(m / 2, i - 1, j - 1);
      assert SetBit(m, i) / 2 == SetBit(m / 2, i - 1);
    }
  }

  /** Setting a bit adds its power of two, or nothing when it was set. */
  lemma {:induction false} SetBitAdds(m: nat, i: nat)
    ensures SetBit(m, i) == if Bit(m, i) then m else m + Pow2(i)
  {
    if i > 0 { SetBitAdds(m / 2, i - 1); }
  }

  lemma {:induction false} ShiftIsBit(m: nat, i: nat)
    ensures Shift(m, i) % 2 == 1 <==> Bit(m, i)
  {
    if i > 0 {
      ShiftIsBit(m / 2, i - 1);
    }
  }

  /** m / 2^i, one bit at a time. */
  lemma HalfThenRest(m: nat, d: nat)
    requires d > 0
    ensures m / 2 / d == m / (2 * d)
  {
    var q, r := m / 2 / d, m / 2 % d;
    assert m / 2 == d * q + r && m == 2 * (m / 2) + m % 2;
    assert 2 * (d * q) == (2 * d) * q;
    QuotientIs(m, 2 * d, q, 2 * r + m % 2);
  }

  /** Shifting divides by a power of two, and bit i is the binary digit of weight 2^i. */
  lemma {:induction false} BitIs(m: nat, i: nat)
    ensures Shift(m, i) == m / Pow2(i)
    ensures Bit(m, i) <==> m / Pow2(i) % 2 == 1
  {
    ShiftIsBit(m, i);
    if i > 0 {
      BitIs(m / 2, i - 1);
      HalfThenRest(m, Pow2(i - 1));
    }
  }

  lemma {:induction false} ZeroShift(m: nat, c: nat)
    ensures Shift(m, c) == 0 <==> m < Pow2(c)
  {
    if c > 0 {
      ZeroShift(m / 2, c - 1);
    }
  }

  lemma {:induction false} NoHighBit(m: nat, c: nat, i: nat)
    requires m < Pow2(c) && c <= i
    ensures !Bit(m, i)
  {
    if c == 0 { ZeroHasNoBits(i); } else { NoHighBit(m / 2, c - 1, i - 1); }
  }

  lemma {:induction false} HighBit(m: nat, c: nat) returns (i: nat)
    requires m >= Pow2(c)
    ensures c <= i && Bit(m, i)
  {
    if c == 0 {
      i := SomeBit(m);
    } else {
      i := HighBit(m / 2, c - 1);
      i := i + 1;
    }
  }

  lemma {:induction false} ZeroHasNoBits(i: nat)
    ensures !Bit(0, i)
  {
    if i > 0 { ZeroHasNoBits(i - 1); }
  }

  lemma {:induction false} SomeBit(m: nat) returns (i: nat)
    requires m > 0
    ensures Bit(m, i)
  {
    if m % 2 == 1 {
      i := 0;
    } else {
      i := SomeBit(m / 2);
      i := i + 1;
    }
  }

  /** A number is its bits. */
  lemma {:induction false} BitsDetermine(m: nat, n: nat)
    requires forall i: nat :: Bit(m, i) <==> Bit(n, i)
    ensures m == n
    decreases m + n
  {
    assert Bit(m, 0) <==> Bit(n, 0);
    if m + n > 0 {
      forall i: nat ensures Bit(m / 2, i) <==> Bit(n / 2, i) { assert Bit(m, i + 1) <==> Bit(n, i + 1); }
      BitsDetermine(m / 2, n / 2);
    }
  }

  // ---------------------------------------------------------------- the three loops

  datatype MaskError = BadIndex | NegativeMask | BitsAboveCount

  predicate GoodIndex(i: int) {
    0 <= i < 256
  }

  /** The mask whose bits are the given indices. */
  ghost predicate IsMaskOf(m: nat, indices: seq<int>) {
    forall i: nat :: Bit(m, i) <==> i in indices
  }

  method MaskFromIndices(indices: seq<int>) returns (r: Result<nat, MaskError>)
    ensures r.Ok? <==> forall k :: 0 <= k < |indices| ==> GoodIndex(indices[k])
    ensures r.Err? ==> r == Err(BadIndex)
    ensures r.Ok? ==> IsMaskOf(r.value, indices) && r.value < Pow2(256)
  {
    var m: nat := 0;
    forall i: nat ensures !Bit(0, i) { ZeroHasNoBits(i); }
    for k := 0 to |indices|
      invariant forall j :: 0 <= j < k ==> GoodIndex(indices[j])
      invariant IsMaskOf(m, indices[..k])
    {
      var i := indices[k];
      if i < 0 || i >= MAX_TASKS { return Err(BadIndex); }
      assert indices[..k + 1] == indices[..k] + [i];
      forall j: nat ensures Bit(SetBit(m, i), j) <==> j in indices[..k + 1] { SetBitSets(m, i, j); }
      m := SetBit(m, i);
    }
    assert indices[..|indices|] == indices;
    MaskIsSmall(m, indices, MAX_TASKS);
    return Ok(m);
  }

  lemma MaskIsSmall(m: nat, indices: seq<int>, c: nat)
    requires IsMaskOf(m, indices) && forall k :: 0 <= k < |indices| ==> 0 <= indices[k] < c
    ensures m < Pow2(c)
  {
    if m >= Pow2(c) {
      var i := HighBit(m, c);
    }
  }

  /** The set bits below `count`, in ascending order. */
  function Indices(m: nat, count: nat): seq<int> {
    if count == 0 then [] else Indices(m, count - 1) + if Bit(m, count - 1) then [count - 1] else []
  }

  predicate Ascending(xs: seq<int>) {
    forall i, j :: 0 <= i < j < |xs| ==> xs[i] < xs[j]
  }

  lemma {:induction false} IndicesAre(m: nat, count: nat)
    ensures Ascending(Indices(m, count))
    ensures forall i :: i in Indices(m, count) <==> 0 <= i < count && Bit(m, i)
  {
    if count > 0 {
      IndicesAre(m, count - 1);
      var init := Indices(m, count - 1);
      assert forall k :: 0 <= k < |init| ==> init[k] in init;
    }
  }

  method IndicesFromMask(mask: int, count: nat) returns (r: Result<seq<int>, MaskError>)
    ensures r.Ok? <==> 0 <= mask < Pow2(count)
    ensures r.Ok? ==> r.value == Indices(mask, count)
    ensures r.Err? ==> r.error == if mask < 0 then NegativeMask else BitsAboveCount
  {
    if mask < 0 { return Err(NegativeMask); }
    ZeroShift(mask, count);
    if Shift(mask, count) != 0 { return Err(BitsAboveCount); }
    var out: seq<int> := [];
    for i := 0 to count
      invariant out == Indices(mask, i)
    {
      ShiftIsBit(mask, i);
      if Shift(mask, i) % 2 == 1 { out := out + [i]; }
    }
    return Ok(out);
  }

  method Popcount(mask: int) returns (n: nat)
    ensures mask <= 0 ==> n == 0
    ensures forall c: nat :: 0 <= mask < Pow2(c) ==> n == |Indices(mask, c)|
  {
    n := 0;
    var m := mask;
    while m > 0
      invariant mask >= 0 ==> m >= 0 && n + Ones(m) == Ones(mask)
      invariant mask < 0 ==> m == mask && n == 0
      decreases m
    {
      if m % 2 == 1 { n := n + 1; }
      m := m / 2;
    }
    forall c: nat | 0 <= mask < Pow2(c) ensures n == |Indices(mask, c)| { OnesCount(mask, c); }
  }

  /** The number of set bits. */
  function Ones(m: nat): nat {
    if m == 0 then 0 else m % 2 + Ones(m / 2)
  }

  lemma {:induction false} OnesCount(m: nat, c: nat)
    requires m < Pow2(c)
    ensures Ones(m) == |Indices(m, c)|
  {
    if c > 0 {
      OnesCount(m / 2, c - 1);
      IndicesHalf(m, c);
      if m == 0 { assert Ones(m / 2) == 0; }
    }
  }

  lemma {:induction false} IndicesHalf(m: nat, c: nat)
    requires c > 0
    ensures |Indices(m, c)| == m % 2 + |Indices(m / 2, c - 1)|
  {
    if c > 1 { IndicesHalf(m, c - 1); }
    else { assert Indices(m, 0) == [] && Indices(m / 2, 0) == []; }
  }

  // ---------------------------------------------------------------- round trips

  lemma AscendingUnique(xs: seq<int>, ys: seq<int>)
    requires Ascending(xs) && Ascending(ys) && forall i :: i in xs <==> i in ys
    ensures xs == ys
    decreases |xs|
  {
    if xs == [] {
      HasElement(ys);
    } else {
      assert xs[0] in xs && xs[0] in ys;
      assert ys[0] in ys && ys[0] in xs;
      assert xs[0] == ys[0];
      forall i ensures i in xs[1..] <==> i in ys[1..] {
        TailOfAscending(xs, i);
        TailOfAscending(ys, i);
      }
      AscendingUnique(xs[1..], ys[1..]);
      assert xs == [xs[0]] + xs[1..] && ys == [ys[0]] + ys[1..];
    }
  }

  lemma TailOfAscending(xs: seq<int>, i: int)
    requires xs != [] && Ascending(xs)
    ensures i in xs[1..] <==> i in xs && i != xs[0]
  {
    if i in xs && i != xs[0] {
      var k :| 0 <= k < |xs| && xs[k] == i;
      assert xs[1..][k - 1] == i;
    }
  }

  /** From indices to a mask and back: the sorted list of the indices, each once. */
  lemma IndicesOfMask(indices: seq<int>, m: nat, count: nat, sorted: seq<int>)
    requires IsMaskOf(m, indices) && forall i :: i in indices ==> 0 <= i < count
    requires Ascending(sorted) && forall i :: i in sorted <==> i in indices
    ensures m < Pow2(count) && Indices(m, count) == sorted
  {
    assert forall k :: 0 <= k < |indices| ==> indices[k] in indices;
    MaskIsSmall(m, indices, count);
    IndicesAre(m, count);
    AscendingUnique(Indices(m, count), sorted);
  }

  /** From a mask to indices and back: the mask. */
  lemma MaskOfIndices(m: nat, count: nat, back: nat)
    requires m < Pow2(count) && IsMaskOf(back, Indices(m, count))
    ensures back == m
  {
    IndicesAre(m, count);
    forall i: nat ensures Bit(back, i) <==> Bit(m, i) {
      assert i in Indices(m, count) <==> 0 <= i < count && Bit(m, i);
      if i >= count { NoHighBit(m, count, i); }
    }
    BitsDetermine(back, m);
  }
}
