/** The Gaussian weight table of `CGaussBlurImgFilter`: its radius, derived from sigma, and
    its normalisation. Only the non-negative half `weight[0..r]` is stored; the weight of
    offset `x` in `[-r, r]` is `weight[|x|]`. */
module Kernel {
  import opened Numeric

  /** `m_r = (int)(sigma * 3 + 0.5)`, raised to 1 when it is not positive. */
  function RadiusOf(sigma: real): (r: int)
    ensures r >= 1
    ensures sigma * 3.0 + 0.5 >= 1.0 ==> r as real <= sigma * 3.0 + 0.5 < r as real + 1.0
    ensures sigma * 3.0 + 0.5 < 1.0 ==> r == 1
  {
    var n := TruncToInt(sigma * 3.0 + 0.5);
    if n <= 0 then 1 else n
  }

  /** A larger sigma never gives a smaller radius. */
  lemma RadiusMonotone(s1: real, s2: real)
    requires s1 <= s2
    ensures RadiusOf(s1) <= RadiusOf(s2)
  {
  }

  /** `weight[0] + 2 * (weight[1] + ... + weight[k])`, the total weight of a symmetric
      kernel of radius `k`, accumulated in the order `SetSigma` adds it up. */
  function SymmetricMass(w: seq<real>, k: nat): real
    requires k < |w|
  {
    if k == 0 then w[0] else SymmetricMass(w, k - 1) + w[k] * 2.0
  }

  /** A table of radius `r` whose weights over `[-r, r]` add up to one. */
  predicate Normalised(w: seq<real>, r: nat)
  {
    |w| == r + 1 && SymmetricMass(w, r) == 1.0
  }

  predicate NonNegative(w: seq<real>)
  {
    forall i :: 0 <= i < |w| ==> w[i] >= 0.0
  }

  /** Every weight multiplied by `c`. */
  function Scale(w: seq<real>, c: real): (v: seq<real>)
    ensures |v| == |w|
  {
    seq(|w|, i requires 0 <= i < |w| => w[i] * c)
  }

  lemma {:induction false} ScaledMass(w: seq<real>, c: real, k: nat)
    requires k < |w|
    ensures SymmetricMass(Scale(w, c), k) == c * SymmetricMass(w, k)
  {
    if k > 0 {
      ScaledMass(w, c, k - 1);
    }
  }

  /** With no negative weight, the total is at least the centre weight. */
  lemma {:induction false} MassAtLeastCentre(w: seq<real>, k: nat)
    requires k < |w| && NonNegative(w)
    ensures SymmetricMass(w, k) >= w[0]
  {
    if k > 0 {
      MassAtLeastCentre(w, k - 1);
    }
  }

  /** The unnormalised table `weightOf(0), ..., weightOf(r)`. */
  function RawTable(weightOf: nat -> real, r: nat): (t: seq<real>)
    ensures |t| == r + 1
  {
    seq(r + 1, i requires 0 <= i <= r => weightOf(i))
  }

  /** The table `SetSigma` leaves behind: every raw weight divided by the raw total. With a
      centre weight of one (`exp(0)`) and no negative weight, the result sums to one and
      has no negative weight. */
  function NormalisedTable(weightOf: nat -> real, r: nat): (t: seq<real>)
    requires weightOf(0) == 1.0
    requires forall i: nat :: weightOf(i) >= 0.0
    ensures Normalised(t, r) && NonNegative(t)
  {
    var raw := RawTable(weightOf, r);
    MassAtLeastCentre(raw, r);
    var c := 1.0 / SymmetricMass(raw, r);
    ScaledMass(raw, c, r);
    Scale(raw, c)
  }

  /** `w[|lo|] + ... + w[|hi - 1|]`: the weights of the offsets `[lo, hi)`, added from left to right. */
  function Window(w: seq<real>, lo: int, hi: int): real
    requires -|w| < lo && hi <= |w|
    decreases hi - lo
  {
    if hi <= lo then 0.0 else Window(w, lo, hi - 1) + w[Abs(hi - 1)]
  }

  lemma {:induction false} WindowFront(w: seq<real>, lo: int, hi: int)
    requires -|w| < lo < hi <= |w|
    ensures Window(w, lo, hi) == w[Abs(lo)] + Window(w, lo + 1, hi)
    decreases hi - lo
  {
    if lo + 1 < hi {
      WindowFront(w, lo, hi - 1);
    }
  }

  /** Reading the half table through `|x|` for every offset `x` in `[-k, k]` gives the
      symmetric total `SetSigma` normalises by. */
  lemma {:induction false} WindowIsSymmetricMass(w: seq<real>, k: nat)
    requires k < |w|
    ensures Window(w, -(k as int), k + 1) == SymmetricMass(w, k)
  {
    if k > 0 {
      WindowFront(w, -(k as int), k + 1);
      WindowIsSymmetricMass(w, k - 1);
    }
  }
}
