/** Positional notation: the arithmetic behind `big.Int.SetBytes`, `big.Int.Bytes`, repeated
    `DivMod` and `big.Int.String`. Digit sequences are big-endian. */
module Digits {

  /** A byte of a Go `[]byte`, a Kotlin `ByteArray` (read unsigned) or a Swift `Data`. */
  type Byte = x: nat | x < 256

  predicate AllBelow(base: nat, ds: seq<nat>) {
    forall i :: 0 <= i < |ds| ==> ds[i] < base
  }

  function Value(base: nat, ds: seq<nat>): nat {
    if |ds| == 0 then 0 else Value(base, ds[..|ds| - 1]) * base + ds[|ds| - 1]
  }

  /** The minimal digits of n: none for zero, and never a leading zero. */
  function Of(base: nat, n: nat): (ds: seq<nat>)
    requires base >= 2
    ensures AllBelow(base, ds)
    ensures ds == [] <==> n == 0
    ensures ds != [] ==> ds[0] != 0
  {
    if n == 0 then [] else Of(base, n / base) + [n % base]
  }

  function Pow(base: nat, e: nat): nat {
    if e == 0 then 1 else base * Pow(base, e - 1)
  }

  function Zeros(k: nat): (zs: seq<nat>)
    ensures |zs| == k
    ensures forall i :: 0 <= i < k ==> zs[i] == 0
  {
    seq(k, _ => 0)
  }

  /** The number of leading zero digits. */
  function LeadingZeros(ds: seq<nat>): (z: nat)
    ensures z <= |ds|
    ensures forall i :: 0 <= i < z ==> ds[i] == 0
    ensures z < |ds| ==> ds[z] != 0
  {
    if ds == [] || ds[0] != 0 then 0 else 1 + LeadingZeros(ds[1..])
  }

  lemma DivModUnique(base: nat, q: nat, r: nat)
    requires r < base
    ensures (q * base + r) / base == q && (q * base + r) % base == r
  {
    var n := q * base + r;
    var d, m := n / base, n % base;
    assert d * base + m == n && m < base;
    MulCancel(base, d, q, r - m);
  }

  lemma MulCancel(base: int, a: int, b: int, slack: int)
    requires 0 <= base && -base < slack < base
    requires (a - b) * base == slack
    ensures a == b
  {
    ScaleBound(base, a - b);
  }

  lemma ScaleBound(base: int, k: int)
    requires 0 <= base
    ensures k >= 1 ==> k * base >= base
    ensures k <= -1 ==> k * base <= -base
  {
  }

  lemma DivModSplits(base: nat, n: nat)
    requires base >= 2
    ensures n == n / base * base + n % base
    ensures n > 0 ==> n / base < n
  {
  }

  lemma ValueOneMore(base: nat, ds: seq<nat>, d: nat)
    ensures Value(base, ds + [d]) == Value(base, ds) * base + d
  {
  }

  lemma {:induction false} ValueOf(base: nat, n: nat)
    requires base >= 2
    ensures Value(base, Of(base, n)) == n
  {
    if n != 0 {
      var q, r := n / base, n % base;
      DivModSplits(base, n);
      ValueOf(base, q);
      ValueOneMore(base, Of(base, q), r);
    }
  }

  lemma {:induction false} OfValue(base: nat, ds: seq<nat>)
    requires base >= 2 && AllBelow(base, ds)
    requires ds != [] ==> ds[0] != 0
    ensures Of(base, Value(base, ds)) == ds
  {
    if ds != [] {
      var init, last := ds[..|ds| - 1], ds[|ds| - 1];
      OfValue(base, init);
      DivModUnique(base, Value(base, init), last);
      assert init + [last] == ds;
      assert Value(base, init) > 0 || last > 0;
      assert Value(base, init) > 0 ==> Value(base, init) * base > 0;
    }
  }

  lemma {:induction false} ValueAfterZeros(base: nat, k: nat, ds: seq<nat>)
    ensures Value(base, Zeros(k) + ds) == Value(base, ds)
    decreases k + |ds|
  {
    var all := Zeros(k) + ds;
    if ds != [] {
      ValueAfterZeros(base, k, ds[..|ds| - 1]);
      assert all[..|all| - 1] == Zeros(k) + ds[..|ds| - 1];
    } else if k > 0 {
      ValueAfterZeros(base, k - 1, []);
      assert all[..|all| - 1] == Zeros(k - 1) + [];
    }
  }

  /** The leading digit and the length pin a value between two multiples of a power. */
  lemma {:induction false} ValueBounds(base: nat, ds: seq<nat>)
    requires base >= 2 && AllBelow(base, ds) && ds != []
    ensures ds[0] * Pow(base, |ds| - 1) <= Value(base, ds) < (ds[0] + 1) * Pow(base, |ds| - 1)
    ensures Value(base, ds) < Pow(base, |ds|)
  {
    if |ds| == 1 {
      assert Value(base, ds[..0]) == 0;
      assert Pow(base, 1) == base * Pow(base, 0);
    } else {
      var init := ds[..|ds| - 1];
      ValueBounds(base, init);
      BoundStep(ds[0], Pow(base, |ds| - 2), Value(base, init), base, ds[|ds| - 1]);
    }
    MulMonotone(ds[0] + 1, base, Pow(base, |ds| - 1));
  }

  lemma BoundStep(d: nat, p: nat, v: nat, base: nat, last: nat)
    requires d * p <= v < (d + 1) * p && last < base
    ensures d * (base * p) <= v * base + last < (d + 1) * (base * p)
  {
    MulMonotone(d * p, v, base);
    MulMonotone(v + 1, (d + 1) * p, base);
    assert d * p * base == d * (base * p);
    assert (d + 1) * p * base == (d + 1) * (base * p);
    assert (v + 1) * base == v * base + base;
  }

  lemma MulAssociates(a: nat, b: nat, c: nat)
    ensures a * (b * c) == a * b * c
  {
  }

  lemma MulMonotone(a: nat, b: nat, c: nat)
    requires a <= b
    ensures a * c <= b * c
  {
  }

  lemma {:induction false} PowMonotone(base: nat, d: nat, e: nat)
    requires base >= 1 && d <= e
    ensures 1 <= Pow(base, d) <= Pow(base, e)
  {
    if e > 0 {
      if d == e {
        PowMonotone(base, d - 1, e - 1);
        assert base * Pow(base, d - 1) >= 1 * Pow(base, d - 1);
      } else {
        PowMonotone(base, d, e - 1);
        assert base * Pow(base, e - 1) >= 1 * Pow(base, e - 1);
      }
    }
  }
}
