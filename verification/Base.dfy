/** Outcomes and bytes shared by every component. */
module Base {
  datatype Option<+T> = None | Some(value: T)

  /** A thrown error is an `Err`; a returned value an `Ok`. */
  datatype Result<+T, +E> = Ok(value: T) | Err(error: E)

  type byte = b: int | 0 <= b < 256
  type Bytes = seq<byte>

  /** An ASCII text by its codes. */
  function Codes(s: string): (t: Bytes)
    requires forall i :: 0 <= i < |s| ==> s[i] as int < 128
    ensures |t| == |s| && forall i :: 0 <= i < |s| ==> t[i] == s[i] as int
  {
    seq(|s|, i requires 0 <= i < |s| => s[i] as int)
  }

  function Zeros(n: nat): (r: Bytes)
    ensures |r| == n && forall i :: 0 <= i < n ==> r[i] == 0
  {
    seq(n, _ => 0)
  }

  function Sum(bs: Bytes): (s: nat)
    ensures s <= 255 * |bs|
  {
    if bs == [] then 0 else bs[0] + Sum(bs[1..])
  }

  lemma {:induction false} SumConcat(a: Bytes, b: Bytes)
    ensures Sum(a + b) == Sum(a) + Sum(b)
  {
    if a == [] {
      assert a + b == b;
    } else {
      assert (a + b)[1..] == a[1..] + b;
      SumConcat(a[1..], b);
    }
  }

  /** `ceil(n / 512) * 512` minus `n`: how many zero bytes follow n bytes of file data. */
  const BLOCK: nat := 512

  function Padded(n: nat): (r: nat)
    ensures r >= n && r % BLOCK == 0 && r < n + BLOCK
  {
    (n + BLOCK - 1) / BLOCK * BLOCK
  }

  function Flatten<T>(parts: seq<seq<T>>): seq<T> {
    if parts == [] then [] else parts[0] + Flatten(parts[1..])
  }

  lemma {:induction false} FlattenAppend<T>(a: seq<seq<T>>, b: seq<seq<T>>)
    ensures Flatten(a + b) == Flatten(a) + Flatten(b)
  {
    if a == [] {
      assert a + b == b;
    } else {
      assert (a + b)[1..] == a[1..] + b;
      FlattenAppend(a[1..], b);
    }
  }

  // ---------------------------------------------------------------- quotients

  lemma ProductOrder(d: nat, p: int, q: int)
    ensures p < q ==> d * p + d <= d * q
  {
    if p < q { assert d * (q - p) >= d by { assert q - p >= 1; } }
  }

  lemma QuotientIs(v: nat, d: nat, q: nat, r: nat)
    requires d > 0 && v == d * q + r && r < d
    ensures v / d == q
  {
    var p := v / d;
    assert v == d * p + v % d;
    ProductOrder(d, p, q);
    ProductOrder(d, q, p);
  }

  // ---------------------------------------------------------------- permutations

  lemma MultisetWithout<U>(xs: seq<U>, k: nat)
    requires k < |xs|
    ensures multiset(xs) == multiset(xs[..k] + xs[k + 1..]) + multiset{xs[k]}
  {
    assert xs == xs[..k] + [xs[k]] + xs[k + 1..];
  }

  lemma MultisetCancel<U>(a: multiset<U>, b: multiset<U>, y: U)
    requires a + multiset{y} == b + multiset{y}
    ensures a == b
  {
    assert a == a + multiset{y} - multiset{y};
    assert b == b + multiset{y} - multiset{y};
  }

  /** Taking one equal element out of two permutations of each other leaves two permutations. */
  lemma SameRest<U>(xs: seq<U>, k: nat, ys: seq<U>)
    requires multiset(xs) == multiset(ys) && k < |xs| && ys != [] && xs[k] == ys[0]
    ensures multiset(xs[..k] + xs[k + 1..]) == multiset(ys[1..])
  {
    MultisetWithout(xs, k);
    MultisetWithout(ys, 0);
    assert ys[..0] + ys[1..] == ys[1..];
    MultisetCancel(multiset(xs[..k] + xs[k + 1..]), multiset(ys[1..]), ys[0]);
  }
}
