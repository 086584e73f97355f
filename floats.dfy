/**
 * Doubles as the numpy/pandas code of the outlook sees them, and the
 * reductions over series of them that the outlook performs: dropping
 * missing values and the fraction of strictly positive entries.
 */
module Floats {

  /** A double that is an ordinary number or NaN; pandas also uses NaN for a
      missing entry. Rounding and infinities are not modelled. */
  datatype Float = Num(v: real) | NaN

  /** `x > 0` on a double; false for NaN, as every comparison with NaN is. */
  predicate IsPositive(x: Float) {
    x.Num? && x.v > 0.0
  }

  /** pandas `dropna()`: the ordinary numbers of `s`, in their order. */
  function DropNaN(s: seq<Float>): (r: seq<real>)
    ensures |r| <= |s|
  {
    if s == [] then []
    else if s[0].NaN? then DropNaN(s[1..])
    else [s[0].v] + DropNaN(s[1..])
  }

  /** Dropping NaN from a series without NaN keeps every value in place. */
  lemma {:induction false} DropNaNWithoutNaN(s: seq<Float>)
    requires forall i :: 0 <= i < |s| ==> s[i].Num?
    ensures |DropNaN(s)| == |s|
    ensures forall i :: 0 <= i < |s| ==> DropNaN(s)[i] == s[i].v
  {
    if s != [] {
      DropNaNWithoutNaN(s[1..]);
    }
  }

  /** Dropping NaN removes an entry exactly when it is NaN: the length falls
      short of the input's by the number of NaN entries. */
  lemma {:induction false} DropNaNShortensByNaNs(s: seq<Float>)
    ensures |DropNaN(s)| == |s| - CountNaN(s)
  {
    if s != [] {
      DropNaNShortensByNaNs(s[1..]);
    }
  }

  /** The number of NaN entries of `s`. */
  function CountNaN(s: seq<Float>): nat {
    if s == [] then 0 else (if s[0].NaN? then 1 else 0) + CountNaN(s[1..])
  }

  lemma {:induction false} DropNaNAppend(a: seq<Float>, b: seq<Float>)
    ensures DropNaN(a + b) == DropNaN(a) + DropNaN(b)
  {
    if a == [] {
      assert a + b == b;
    } else {
      assert (a + b)[0] == a[0];
      assert (a + b)[1..] == a[1..] + b;
      DropNaNAppend(a[1..], b);
    }
  }

  /** The number of strictly positive entries: the sum of the mask `s > 0`. */
  function CountPositive(s: seq<Float>): (n: nat)
    ensures n <= |s|
    ensures n == |s| <==> forall i :: 0 <= i < |s| ==> IsPositive(s[i])
    ensures n == 0 <==> forall i :: 0 <= i < |s| ==> !IsPositive(s[i])
  {
    if s == [] then 0
    else
      assert forall i :: 1 <= i < |s| ==> s[i] == s[1..][i - 1];
      (if IsPositive(s[0]) then 1 else 0) + CountPositive(s[1..])
  }

  lemma {:induction false} CountPositiveAppend(a: seq<Float>, b: seq<Float>)
    ensures CountPositive(a + b) == CountPositive(a) + CountPositive(b)
  {
    if a == [] {
      assert a + b == b;
    } else {
      assert (a + b)[0] == a[0];
      assert (a + b)[1..] == a[1..] + b;
      CountPositiveAppend(a[1..], b);
    }
  }

  /** The count of positive entries does not depend on their order, so
      the reduction over simulated paths is symmetric. */
  lemma {:induction false} CountPositivePermutation(a: seq<Float>, b: seq<Float>)
    requires multiset(a) == multiset(b)
    ensures CountPositive(a) == CountPositive(b)
  {
    if a == [] {
      assert |b| == |multiset(b)| == 0;
    } else {
      var x := a[0];
      assert a == [x] + a[1..];
      assert x in multiset(b);
      var j :| 0 <= j < |b| && b[j] == x;
      assert b == b[..j] + [x] + b[j + 1..];
      var rest := b[..j] + b[j + 1..];
      assert multiset(b) == multiset(rest) + multiset{x} by {
        assert multiset(b) == multiset(b[..j]) + multiset{x} + multiset(b[j + 1..]);
      }
      assert multiset(a) == multiset(a[1..]) + multiset{x};
      assert multiset(a[1..]) == multiset(a) - multiset{x};
      assert multiset(rest) == multiset(b) - multiset{x};
      CountPositivePermutation(a[1..], rest);
      CountPositiveAppend(b[..j] + [x], b[j + 1..]);
      CountPositiveAppend(b[..j], [x]);
      CountPositiveAppend(b[..j], b[j + 1..]);
      CountPositiveAppend([x], a[1..]);
    }
  }

  /** `(s > 0).mean()`: the share of strictly positive entries; the mean of
      an empty mask is NaN. */
  function FractionPositive(s: seq<Float>): (p: Float)
    ensures p.NaN? <==> |s| == 0
    ensures p.Num? ==> 0.0 <= p.v <= 1.0
    ensures p == Num(1.0) <==> |s| > 0 && forall i :: 0 <= i < |s| ==> IsPositive(s[i])
    ensures p == Num(0.0) <==> |s| > 0 && forall i :: 0 <= i < |s| ==> !IsPositive(s[i])
  {
    if |s| == 0 then NaN
    else
      var n, total := CountPositive(s) as real, |s| as real;
      ShareBounds(n, total);
      Num(n / total)
  }

  /** Division facts for a share `part / whole` of a positive whole. */
  lemma ShareBounds(part: real, whole: real)
    requires 0.0 <= part <= whole && whole > 0.0
    ensures 0.0 <= part / whole <= 1.0
    ensures part / whole == 1.0 <==> part == whole
    ensures part / whole == 0.0 <==> part == 0.0
  {
  }

  lemma FractionPositivePermutation(a: seq<Float>, b: seq<Float>)
    requires multiset(a) == multiset(b)
    ensures FractionPositive(a) == FractionPositive(b)
  {
    assert |a| == |multiset(a)| == |multiset(b)| == |b|;
    CountPositivePermutation(a, b);
  }
}
