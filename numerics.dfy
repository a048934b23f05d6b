/**
 * Numerical vocabulary shared by the stack-fitting model: optional values for
 * results that are not finite in floating point, sums over real vectors,
 * masked sums (numpy's `(mask*w).sum()`), maxima, `np.argmin`, Python's
 * `int()` truncation and the trapezoidal rule `np.trapz`.
 */
module Numerics {

  /** `None` stands for a value that is not finite in the source (NaN or inf). */
  datatype Option<T> = None | Some(value: T)

  /** Sum of a real vector, accumulated from the end so that appending is cheap to reason about. */
  function Sum(s: seq<real>): real
    decreases |s|
  {
    if |s| == 0 then 0.0 else Sum(s[..|s| - 1]) + s[|s| - 1]
  }

  lemma {:induction false} SumAppend(a: seq<real>, b: seq<real>)
    ensures Sum(a + b) == Sum(a) + Sum(b)
    decreases |b|
  {
    if |b| == 0 {
      assert a + b == a;
    } else {
      assert (a + b)[..|a + b| - 1] == a + b[..|b| - 1];
      SumAppend(a, b[..|b| - 1]);
    }
  }

  lemma {:induction false} SumCons(x: real, s: seq<real>)
    ensures Sum([x] + s) == x + Sum(s)
  {
    SumAppend([x], s);
    assert [x][..0] == [];
  }

  /** Every entry multiplied by `c` (numpy's `s * c`). */
  function Scale(s: seq<real>, c: real): (r: seq<real>)
    ensures |r| == |s|
    ensures forall i :: 0 <= i < |s| ==> r[i] == s[i] * c
  {
    seq(|s|, i requires 0 <= i < |s| => s[i] * c)
  }

  /** Scaling every entry scales the sum. */
  lemma {:induction false} SumScale(s: seq<real>, c: real)
    ensures Sum(Scale(s, c)) == Sum(s) * c
    decreases |s|
  {
    if |s| > 0 {
      var u := s[..|s| - 1];
      forall i | 0 <= i < |u| ensures Scale(s, c)[..|s| - 1][i] == Scale(u, c)[i] {
      }
      assert Scale(s, c)[..|s| - 1] == Scale(u, c);
      SumScale(u, c);
    }
  }

  /** `SumScale` for a sum already known by name. */
  lemma {:induction false} SumScaleOf(s: seq<real>, c: real, total: real)
    requires total == Sum(s)
    ensures Sum(Scale(s, c)) == total * c
  {
    SumScale(s, c);
  }

  /** A sum of non-negative entries is non-negative. */
  lemma {:induction false} SumNonNegative(s: seq<real>)
    requires forall i :: 0 <= i < |s| ==> s[i] >= 0.0
    ensures Sum(s) >= 0.0
    decreases |s|
  {
    if |s| > 0 {
      SumNonNegative(s[..|s| - 1]);
    }
  }

  /** Pointwise product and its sum: numpy's `np.dot` of two vectors. */
  function Dot(a: seq<real>, b: seq<real>): real
    requires |a| == |b|
    decreases |a|
  {
    if |a| == 0 then 0.0 else Dot(a[..|a| - 1], b[..|b| - 1]) + a[|a| - 1] * b[|b| - 1]
  }

  /** Number of true entries of a boolean mask (numpy's `mask.sum()`). */
  function Count(m: seq<bool>): nat
    decreases |m|
  {
    if |m| == 0 then 0 else Count(m[..|m| - 1]) + (if m[|m| - 1] then 1 else 0)
  }

  lemma {:induction false} CountAppend(a: seq<bool>, b: seq<bool>)
    ensures Count(a + b) == Count(a) + Count(b)
    decreases |b|
  {
    if |b| == 0 {
      assert a + b == a;
    } else {
      assert (a + b)[..|a + b| - 1] == a + b[..|b| - 1];
      CountAppend(a, b[..|b| - 1]);
    }
  }

  /** A mask that is true everywhere counts every entry. */
  lemma {:induction false} CountAllTrue(m: seq<bool>)
    requires forall i :: 0 <= i < |m| ==> m[i]
    ensures Count(m) == |m|
    decreases |m|
  {
    if |m| > 0 {
      CountAllTrue(m[..|m| - 1]);
    }
  }

  /** `(mask * w).sum()`: the sum of the weights where the mask is true. */
  function MaskedSum(w: seq<real>, m: seq<bool>): real
    requires |w| == |m|
    decreases |w|
  {
    if |w| == 0 then 0.0
    else MaskedSum(w[..|w| - 1], m[..|m| - 1]) + (if m[|m| - 1] then w[|w| - 1] else 0.0)
  }

  /** Entrywise `a & b` of two masks (numpy's `&=`). */
  function And(a: seq<bool>, b: seq<bool>): (r: seq<bool>)
    requires |a| == |b|
    ensures |r| == |a|
    ensures forall i :: 0 <= i < |r| ==> (r[i] <==> a[i] && b[i])
  {
    seq(|a|, i requires 0 <= i < |a| => a[i] && b[i])
  }

  /** `narrow` is `wide` with some entries switched off and none switched on. */
  predicate Narrower(narrow: seq<bool>, wide: seq<bool>)
  {
    |narrow| == |wide| && forall i :: 0 <= i < |narrow| && narrow[i] ==> wide[i]
  }

  /**
   * Narrowing a mask can only lower the masked sum of non-negative weights:
   * this is why every in-place `fit_mask &= ...` can only lower the degrees of freedom.
   */
  lemma {:induction false} MaskedSumMonotone(w: seq<real>, narrow: seq<bool>, wide: seq<bool>)
    requires |w| == |wide| && Narrower(narrow, wide)
    requires forall i :: 0 <= i < |w| ==> w[i] >= 0.0
    ensures MaskedSum(w, narrow) <= MaskedSum(w, wide)
    decreases |w|
  {
    if |w| > 0 {
      MaskedSumMonotone(w[..|w| - 1], narrow[..|narrow| - 1], wide[..|wide| - 1]);
    }
  }

  /** With unit weights, the masked sum is the number of true entries. */
  lemma {:induction false} MaskedSumOfOnes(w: seq<real>, m: seq<bool>)
    requires |w| == |m|
    requires forall i :: 0 <= i < |w| ==> w[i] == 1.0
    ensures MaskedSum(w, m) == Count(m) as real
    decreases |w|
  {
    if |w| > 0 {
      MaskedSumOfOnes(w[..|w| - 1], m[..|m| - 1]);
    }
  }

  lemma {:induction false} MaskedSumAppend(w1: seq<real>, m1: seq<bool>, w2: seq<real>, m2: seq<bool>)
    requires |w1| == |m1| && |w2| == |m2|
    ensures MaskedSum(w1 + w2, m1 + m2) == MaskedSum(w1, m1) + MaskedSum(w2, m2)
    decreases |w2|
  {
    if |w2| == 0 {
      assert w1 + w2 == w1;
      assert m1 + m2 == m1;
    } else {
      assert (w1 + w2)[..|w1 + w2| - 1] == w1 + w2[..|w2| - 1];
      assert (m1 + m2)[..|m1 + m2| - 1] == m1 + m2[..|m2| - 1];
      MaskedSumAppend(w1, m1, w2[..|w2| - 1], m2[..|m2| - 1]);
    }
  }

  /** Python's `int()` on a float: truncation toward zero. */
  function Trunc(x: real): (n: int)
    ensures x >= 0.0 ==> n as real <= x < n as real + 1.0
    ensures x < 0.0 ==> n as real - 1.0 < x <= n as real
  {
    if x >= 0.0 then x.Floor else -((-x).Floor)
  }

  /** Largest entry (numpy's `max()`), defined on non-empty vectors only, as numpy raises on empty ones. */
  function Max(s: seq<real>): (m: real)
    requires |s| > 0
    ensures forall i :: 0 <= i < |s| ==> s[i] <= m
    ensures exists i :: 0 <= i < |s| && s[i] == m
    decreases |s|
  {
    if |s| == 1 then s[0]
    else
      var m0 := Max(s[..|s| - 1]);
      if s[|s| - 1] > m0 then s[|s| - 1] else m0
  }

  /** Smallest entry (numpy's `min()`). */
  function Min(s: seq<real>): (m: real)
    requires |s| > 0
    ensures forall i :: 0 <= i < |s| ==> m <= s[i]
    ensures exists i :: 0 <= i < |s| && s[i] == m
    decreases |s|
  {
    if |s| == 1 then s[0]
    else
      var m0 := Min(s[..|s| - 1]);
      if s[|s| - 1] < m0 then s[|s| - 1] else m0
  }

  /** `np.argmin`: the FIRST index holding the smallest entry. */
  function ArgMin(s: seq<real>): (k: nat)
    requires |s| > 0
    ensures k < |s|
    ensures forall i :: 0 <= i < |s| ==> s[k] <= s[i]
    ensures forall i :: 0 <= i < k ==> s[k] < s[i]
    decreases |s|
  {
    if |s| == 1 then 0
    else
      var k0 := ArgMin(s[..|s| - 1]);
      if s[|s| - 1] < s[k0] then |s| - 1 else k0
  }

  /** `np.clip(v, lo, hi)` for `lo <= hi`. */
  function Clip(v: real, lo: real, hi: real): (r: real)
    requires lo <= hi
    ensures lo <= r <= hi
    ensures lo <= v <= hi ==> r == v
  {
    if v < lo then lo else if v > hi then hi else v
  }

  /** `np.trapz(y, x)`: the trapezoidal rule; zero for fewer than two samples. */
  function Trapz(y: seq<real>, x: seq<real>): real
    requires |y| == |x|
    decreases |x|
  {
    if |x| < 2 then 0.0
    else
      var n := |x|;
      Trapz(y[..n - 1], x[..n - 1]) + (x[n - 1] - x[n - 2]) * (y[n - 1] + y[n - 2]) / 2.0
  }

  /** The samples are in ascending order. */
  predicate Ascending(x: seq<real>)
  {
    forall i, j :: 0 <= i < j < |x| ==> x[i] <= x[j]
  }

  /** On ascending abscissae the trapezoidal rule is monotone in the ordinates. */
  lemma {:induction false} TrapzMonotone(y1: seq<real>, y2: seq<real>, x: seq<real>)
    requires |y1| == |y2| == |x| && Ascending(x)
    requires forall i :: 0 <= i < |x| ==> y1[i] <= y2[i]
    ensures Trapz(y1, x) <= Trapz(y2, x)
    decreases |x|
  {
    var n := |x|;
    if n >= 2 {
      var x', y1', y2' := x[..n - 1], y1[..n - 1], y2[..n - 1];
      TrapzMonotone(y1', y2', x');
      PanelMonotone(Trapz(y1, x), Trapz(y2, x), Trapz(y1', x'), Trapz(y2', x'),
                    x[n - 1] - x[n - 2], y1[n - 1] + y1[n - 2], y2[n - 1] + y2[n - 2]);
    }
  }

  /** Adding a panel of the same width and a larger height keeps the order of two integrals. */
  lemma {:induction false} PanelMonotone(total1: real, total2: real, t1: real, t2: real, d: real, s1: real, s2: real)
    requires total1 == t1 + d * s1 / 2.0 && total2 == t2 + d * s2 / 2.0
    requires t1 <= t2 && d >= 0.0 && s1 <= s2
    ensures total1 <= total2
  {
    assert d * s2 - d * s1 == d * (s2 - s1);
  }

  /** The trapezoidal integral of a constant is that constant times the span. */
  lemma {:induction false} TrapzConstant(y: seq<real>, x: seq<real>, c: real)
    requires |y| == |x| > 0
    requires forall i :: 0 <= i < |y| ==> y[i] == c
    ensures Trapz(y, x) == c * (x[|x| - 1] - x[0])
    decreases |x|
  {
    var n := |x|;
    if n >= 2 {
      TrapzConstant(y[..n - 1], x[..n - 1], c);
    }
  }

  /** The trapezoidal integral of non-negative ordinates on ascending abscissae is non-negative. */
  lemma {:induction false} TrapzNonNegative(y: seq<real>, x: seq<real>)
    requires |y| == |x| && Ascending(x)
    requires forall i :: 0 <= i < |y| ==> y[i] >= 0.0
    ensures Trapz(y, x) >= 0.0
  {
    var zero := seq(|x|, i => 0.0);
    if |x| > 0 {
      TrapzConstant(zero, x, 0.0);
    }
    TrapzMonotone(zero, y, x);
  }

  /** A vector of `n` copies of `v` (numpy's `np.ones(n) * v`). */
  function Fill(n: nat, v: real): (r: seq<real>)
    ensures |r| == n
    ensures forall i :: 0 <= i < n ==> r[i] == v
  {
    seq(n, i => v)
  }

  /** The dot product with a vector of ones is the plain sum. */
  lemma {:induction false} DotOnes(a: seq<real>, b: seq<real>)
    requires |a| == |b|
    requires forall i :: 0 <= i < |a| ==> a[i] == 1.0
    ensures Dot(a, b) == Sum(b)
    decreases |a|
  {
    if |a| > 0 {
      DotOnes(a[..|a| - 1], b[..|b| - 1]);
    }
  }

  /** Numpy's boolean indexing `xs[keep]`: the entries whose mask entry is true, in order. */
  function Compress<T>(xs: seq<T>, keep: seq<bool>): (r: seq<T>)
    requires |xs| == |keep|
    ensures |r| == Count(keep)
    decreases |xs|
  {
    if |xs| == 0 then []
    else Compress(xs[..|xs| - 1], keep[..|keep| - 1]) + (if keep[|keep| - 1] then [xs[|xs| - 1]] else [])
  }

  /** Every entry that boolean indexing keeps comes from a position the mask selects. */
  lemma {:induction false} CompressFrom<T>(xs: seq<T>, keep: seq<bool>, k: nat)
    requires |xs| == |keep| && k < Count(keep)
    ensures exists i :: 0 <= i < |xs| && keep[i] && Compress(xs, keep)[k] == xs[i]
    decreases |xs|
  {
    var n := |xs|;
    var front := Compress(xs[..n - 1], keep[..n - 1]);
    if k < |front| {
      CompressFrom(xs[..n - 1], keep[..n - 1], k);
      var i :| 0 <= i < n - 1 && keep[..n - 1][i] && front[k] == xs[..n - 1][i];
      assert keep[i] && Compress(xs, keep)[k] == xs[i];
    } else {
      assert keep[n - 1] && Compress(xs, keep)[k] == xs[n - 1];
    }
  }

  lemma {:induction false} MulLe(a: int, b: int, n: nat)
    requires a <= b
    ensures a * n <= b * n
  {
    var d := b - a;
    assert d * n >= 0;
    assert b * n == a * n + d * n;
  }

  /** Pixel `(r, c)` of an image with `ny` rows of `nx` columns lies inside its flattened form. */
  lemma {:induction false} PixelBound(r: nat, c: nat, nx: nat, ny: nat)
    requires r < ny && c < nx
    ensures r * nx + c < ny * nx
  {
    MulLe(r + 1, ny, nx);
    assert (r + 1) * nx == r * nx + nx;
  }

  /** Flattened position `r * nx + c` unflattens to row `r` and column `c`. */
  lemma {:induction false} PixelDivMod(r: nat, c: nat, nx: nat)
    requires c < nx
    ensures (r * nx + c) / nx == r && (r * nx + c) % nx == c
  {
    var p := r * nx + c;
    var q, m := p / nx, p % nx;
    assert p == q * nx + m && 0 <= m < nx;
    assert (q + 1) * nx == q * nx + nx;
    assert (r + 1) * nx == r * nx + nx;
    if q < r {
      MulLe(q + 1, r, nx);
    } else if q > r {
      MulLe(r + 1, q, nx);
    }
  }

  /** A flattened position of an `ny` by `nx` image unflattens inside the image. */
  lemma {:induction false} DivBound(p: nat, nx: nat, ny: nat)
    requires p < ny * nx
    ensures nx > 0 && p / nx < ny && p % nx < nx
  {
    var q := p / nx;
    assert p == q * nx + p % nx;
    if q >= ny {
      MulLe(ny, q, nx);
    }
  }

  /** In-place `m &= keep` on a boolean mask held in an array. */
  method NarrowInPlace(m: array<bool>, keep: seq<bool>)
    requires m.Length == |keep|
    modifies m
    ensures m[..] == And(old(m[..]), keep)
  {
    for i := 0 to m.Length
      invariant forall k :: 0 <= k < i ==> m[k] == (old(m[k]) && keep[k])
      invariant forall k :: i <= k < m.Length ==> m[k] == old(m[k])
    {
      m[i] := m[i] && keep[i];
    }
  }

  /** A mask counts a positive number of entries exactly when some entry is true. */
  lemma {:induction false} CountPositive(m: seq<bool>)
    ensures Count(m) > 0 <==> exists i :: 0 <= i < |m| && m[i]
    decreases |m|
  {
    if |m| > 0 {
      var u := m[..|m| - 1];
      CountPositive(u);
      if exists i :: 0 <= i < |u| && u[i] {
        var i :| 0 <= i < |u| && u[i];
        assert m[i];
      }
      if exists i :: 0 <= i < |m| && m[i] {
        var i :| 0 <= i < |m| && m[i];
        if i < |u| {
          assert u[i];
        }
      }
    }
  }

  /** Entrywise sum of two vectors of equal length. */
  function Add(a: seq<real>, b: seq<real>): (r: seq<real>)
    requires |a| == |b|
    ensures |r| == |a|
    ensures forall i :: 0 <= i < |a| ==> r[i] == a[i] + b[i]
  {
    seq(|a|, i requires 0 <= i < |a| => a[i] + b[i])
  }

  /** The dot product is linear in its first argument: scaling. */
  lemma {:induction false} DotScale(a: seq<real>, b: seq<real>, c: real)
    requires |a| == |b|
    ensures Dot(Scale(a, c), b) == Dot(a, b) * c
    decreases |a|
  {
    if |a| > 0 {
      var n := |a|;
      var front, u := Scale(a, c)[..n - 1], a[..n - 1];
      forall i | 0 <= i < |u| ensures front[i] == Scale(u, c)[i] {
      }
      assert front == Scale(u, c);
      DotScale(a[..n - 1], b[..n - 1], c);
    }
  }

  /** The dot product is linear in its first argument: addition. */
  lemma {:induction false} DotAdd(a1: seq<real>, a2: seq<real>, b: seq<real>)
    requires |a1| == |a2| == |b|
    ensures Dot(Add(a1, a2), b) == Dot(a1, b) + Dot(a2, b)
    decreases |b|
  {
    if |b| > 0 {
      var n := |b|;
      var front, u1, u2 := Add(a1, a2)[..n - 1], a1[..n - 1], a2[..n - 1];
      forall i | 0 <= i < |u1| ensures front[i] == Add(u1, u2)[i] {
      }
      assert front == Add(u1, u2);
      DotAdd(a1[..n - 1], a2[..n - 1], b[..n - 1]);
    }
  }

  /** Python's slice `s[start::step]`: every `step`-th entry from `start` on. */
  function Stride<T>(s: seq<T>, start: nat, step: nat): (r: seq<T>)
    requires step > 0
    ensures |r| == StrideCount(|s|, start, step)
    decreases |s| - start
  {
    if start >= |s| then [] else [s[start]] + Stride(s, start + step, step)
  }

  /** Number of entries of `s[start::step]` for a sequence of length `n`; it depends on the length only. */
  function StrideCount(n: nat, start: nat, step: nat): nat
    requires step > 0
    decreases n - start
  {
    if start >= n then 0 else 1 + StrideCount(n, start + step, step)
  }

  /** Entry `k` of `s[start::step]` is entry `start + k * step` of `s`. */
  lemma {:induction false} StrideAt<T>(s: seq<T>, start: nat, step: nat, k: nat)
    requires step > 0 && k < |Stride(s, start, step)|
    ensures start + k * step < |s| && Stride(s, start, step)[k] == s[start + k * step]
    decreases |s| - start
  {
    if k > 0 {
      StrideAt(s, start + step, step, k - 1);
      assert start + step + (k - 1) * step == start + k * step;
    }
  }

  /**
   * The cut level `fraction * top` of a relative threshold such as
   * `min_ivar*ivarf.max()`. Kept as a function of its own so that the solver
   * treats the product as one term.
   */
  function Cut(fraction: real, top: real): real
  {
    fraction * top
  }

  /** A fraction below one of a positive top lies below the top. */
  lemma {:induction false} CutBelowTop(fraction: real, top: real)
    requires fraction < 1.0 && top > 0.0
    ensures Cut(fraction, top) < top
  {
    assert (1.0 - fraction) * top > 0.0;
  }

  /** A non-negative fraction of a non-negative top is non-negative. */
  lemma {:induction false} CutNonNegative(fraction: real, top: real)
    requires fraction >= 0.0 && top >= 0.0
    ensures Cut(fraction, top) >= 0.0
  {
  }

  /** Every entry the mask selects survives boolean indexing. */
  lemma {:induction false} CompressHas<T>(xs: seq<T>, keep: seq<bool>, i: nat)
    requires |xs| == |keep| && i < |xs| && keep[i]
    ensures exists k :: 0 <= k < |Compress(xs, keep)| && Compress(xs, keep)[k] == xs[i]
    decreases |xs|
  {
    var n := |xs|;
    var front := Compress(xs[..n - 1], keep[..n - 1]);
    if i < n - 1 {
      CompressHas(xs[..n - 1], keep[..n - 1], i);
      var k :| 0 <= k < |front| && front[k] == xs[..n - 1][i];
      assert Compress(xs, keep)[k] == xs[i];
    } else {
      assert Compress(xs, keep)[|front|] == xs[i];
    }
  }

  /** Boolean indexing distributes over concatenation. */
  lemma {:induction false} CompressAppend<T>(a: seq<T>, ka: seq<bool>, b: seq<T>, kb: seq<bool>)
    requires |a| == |ka| && |b| == |kb|
    ensures Compress(a + b, ka + kb) == Compress(a, ka) + Compress(b, kb)
    decreases |b|
  {
    if |b| == 0 {
      assert a + b == a && ka + kb == ka;
    } else {
      var n := |b| - 1;
      assert (a + b)[..|a + b| - 1] == a + b[..n];
      assert (ka + kb)[..|ka + kb| - 1] == ka + kb[..n];
      CompressAppend(a, ka, b[..n], kb[..n]);
    }
  }

  /** Boolean indexing with an all-true mask keeps everything. */
  lemma {:induction false} CompressAllTrue<T>(a: seq<T>, k: seq<bool>)
    requires |a| == |k| && forall i :: 0 <= i < |k| ==> k[i]
    ensures Compress(a, k) == a
    decreases |a|
  {
    if |a| > 0 {
      CompressAllTrue(a[..|a| - 1], k[..|k| - 1]);
    }
  }

  /** The masked sum of non-negative weights is non-negative. */
  lemma {:induction false} MaskedSumNonNegative(w: seq<real>, m: seq<bool>)
    requires |w| == |m| && forall i :: 0 <= i < |w| ==> w[i] >= 0.0
    ensures MaskedSum(w, m) >= 0.0
    decreases |w|
  {
    if |w| > 0 {
      MaskedSumNonNegative(w[..|w| - 1], m[..|m| - 1]);
    }
  }

  /** Truncating a non-negative number shifted by a whole number shifts the result by it. */
  lemma {:induction false} TruncShift(x: real, n: nat)
    requires x >= 0.0
    ensures Trunc(x + n as real) == Trunc(x) + n
  {
  }

  /** Truncation of non-negative numbers is monotone. */
  lemma {:induction false} TruncMonotone(x: real, y: real)
    requires 0.0 <= x <= y
    ensures Trunc(x) <= Trunc(y)
  {
  }

  /** The dot product with a vector that is zero everywhere is zero. */
  lemma {:induction false} DotZeros(v: seq<real>, col: seq<real>)
    requires |v| == |col| && forall j :: 0 <= j < |col| ==> col[j] == 0.0
    ensures Dot(v, col) == 0.0
    decreases |v|
  {
    if |v| > 0 {
      DotZeros(v[..|v| - 1], col[..|col| - 1]);
    }
  }

  /** The dot product with the unit vector of position `i` picks entry `i`. */
  lemma {:induction false} DotOneHot(v: seq<real>, col: seq<real>, i: nat)
    requires |v| == |col| && i < |v|
    requires col[i] == 1.0 && forall j :: 0 <= j < |col| && j != i ==> col[j] == 0.0
    ensures Dot(v, col) == v[i]
    decreases |v|
  {
    var n := |v| - 1;
    if i == n {
      DotZeros(v[..n], col[..n]);
    } else {
      DotOneHot(v[..n], col[..n], i);
    }
  }

  /** The position of the `r`-th entry (from 0) that a mask keeps. */
  function Selected(m: seq<bool>, r: nat): (k: nat)
    requires r < Count(m)
    ensures k < |m| && m[k]
    decreases |m|
  {
    var n := |m| - 1;
    if r < Count(m[..n]) then Selected(m[..n], r) else n
  }

  /** Entry `r` of `xs[keep]` is the entry at the `r`-th kept position. */
  lemma {:induction false} CompressAt<T>(xs: seq<T>, keep: seq<bool>, r: nat)
    requires |xs| == |keep| && r < Count(keep)
    ensures Selected(keep, r) < |xs| && Compress(xs, keep)[r] == xs[Selected(keep, r)]
    decreases |xs|
  {
    var n := |xs| - 1;
    if r < Count(keep[..n]) {
      CompressAt(xs[..n], keep[..n], r);
    }
  }

  /** The masked sum is the plain sum of the entries the mask keeps. */
  lemma {:induction false} MaskedSumIsSum(w: seq<real>, m: seq<bool>)
    requires |w| == |m|
    ensures MaskedSum(w, m) == Sum(Compress(w, m))
    decreases |w|
  {
    if |w| > 0 {
      var n := |w| - 1;
      MaskedSumIsSum(w[..n], m[..n]);
      if m[n] {
        SumAppend(Compress(w[..n], m[..n]), [w[n]]);
        assert [w[n]][..0] == [];
      } else {
        assert Compress(w, m) == Compress(w[..n], m[..n]);
      }
    }
  }

  /** The dot product of two concatenations is the sum of the dot products of the parts. */
  lemma {:induction false} DotAppend(a1: seq<real>, b1: seq<real>, a2: seq<real>, b2: seq<real>)
    requires |a1| == |b1| && |a2| == |b2|
    ensures Dot(a1 + a2, b1 + b2) == Dot(a1, b1) + Dot(a2, b2)
    decreases |a2|
  {
    if |a2| == 0 {
      assert a1 + a2 == a1 && b1 + b2 == b1;
    } else {
      var n := |a2| - 1;
      assert (a1 + a2)[..|a1 + a2| - 1] == a1 + a2[..n];
      assert (b1 + b2)[..|b1 + b2| - 1] == b1 + b2[..n];
      DotAppend(a1, b1, a2[..n], b2[..n]);
    }
  }

  /** The dot product is linear in its second argument: scaling. */
  lemma {:induction false} DotScaleRight(a: seq<real>, b: seq<real>, c: real)
    requires |a| == |b|
    ensures Dot(a, Scale(b, c)) == Dot(a, b) * c
    decreases |a|
  {
    if |a| > 0 {
      var n := |a|;
      var front, u := Scale(b, c)[..n - 1], b[..n - 1];
      forall i | 0 <= i < |u| ensures front[i] == Scale(u, c)[i] {
      }
      assert front == Scale(u, c);
      DotScaleRight(a[..n - 1], b[..n - 1], c);
    }
  }

  /** Every entry squared. */
  function Squares(v: seq<real>): (r: seq<real>)
    ensures |r| == |v| && forall i :: 0 <= i < |v| ==> r[i] == v[i] * v[i] && r[i] >= 0.0
  {
    seq(|v|, i requires 0 <= i < |v| => v[i] * v[i])
  }

  /** Squaring commutes with boolean indexing. */
  lemma {:induction false} CompressSquares(v: seq<real>, m: seq<bool>)
    requires |v| == |m|
    ensures Compress(Squares(v), m) == Squares(Compress(v, m))
  {
    forall r | 0 <= r < Count(m) ensures Compress(Squares(v), m)[r] == Squares(Compress(v, m))[r] {
      CompressAt(Squares(v), m, r);
      CompressAt(v, m, r);
    }
  }
}
