/**
 * The bookkeeping `StackFitter.fit_at_z` does around its solver: which
 * design rows are dropped (`oktemp`), the 0.04 pedestal added to the data
 * and taken off the background, and the scatter of the solver's
 * coefficients back to one entry per template, with zeros for dropped rows.
 */
module Coefficients {
  import opened Numerics
  import opened Spectrum

  /** `oktemp`: the design rows whose masked sum is non-zero. */
  function OkRows(a: seq<seq<real>>, mask: seq<bool>): (ok: seq<bool>)
    requires forall i :: 0 <= i < |a| ==> |a[i]| == |mask|
    ensures |ok| == |a|
    ensures forall i :: 0 <= i < |a| ==> (ok[i] <==> MaskedSum(a[i], mask) != 0.0)
  {
    seq(|a|, i requires 0 <= i < |a| => MaskedSum(a[i], mask) != 0.0)
  }

  /** A row that vanishes on every fitted pixel is dropped. */
  lemma {:induction false} ZeroRowDropped(a: seq<seq<real>>, mask: seq<bool>, i: nat)
    requires forall r :: 0 <= r < |a| ==> |a[r]| == |mask|
    requires i < |a| && forall k :: 0 <= k < |mask| && mask[k] ==> a[i][k] == 0.0
    ensures !OkRows(a, mask)[i]
  {
    MaskedSumZero(a[i], mask);
  }

  /** The masked sum of a vector that is zero wherever the mask is set is zero. */
  lemma {:induction false} MaskedSumZero(w: seq<real>, m: seq<bool>)
    requires |w| == |m| && forall k :: 0 <= k < |m| && m[k] ==> w[k] == 0.0
    ensures MaskedSum(w, m) == 0.0
    decreases |w|
  {
    if |w| > 0 {
      MaskedSumZero(w[..|w| - 1], m[..|m| - 1]);
    }
  }

  /** The entry before position `t` that is kept has a rank below the number of kept entries. */
  lemma {:induction false} CountPrefixBelow(m: seq<bool>, t: nat)
    requires t < |m| && m[t]
    ensures Count(m[..t]) < Count(m)
  {
    CountAppend(m[..t], m[t..]);
    assert m == m[..t] + m[t..];
    CountAppend([m[t]], m[t + 1..]);
    assert m[t..] == [m[t]] + m[t + 1..];
  }

  /**
   * Numpy's `out[sel] = vals` into a zero vector: the kept positions take
   * `vals` in order, the others stay zero.
   */
  function Place(sel: seq<bool>, vals: seq<real>): (r: seq<real>)
    requires |vals| == Count(sel)
    ensures |r| == |sel|
    ensures forall t :: 0 <= t < |sel| && !sel[t] ==> r[t] == 0.0
  {
    seq(|sel|, t requires 0 <= t < |sel| =>
      if sel[t] then (CountPrefixBelow(sel, t); vals[Count(sel[..t])]) else 0.0)
  }

  /** Placing and then selecting the same positions gives the values back, in order. */
  lemma {:induction false} PlaceSelect(sel: seq<bool>, vals: seq<real>)
    requires |vals| == Count(sel)
    ensures Compress(Place(sel, vals), sel) == vals
    decreases |sel|
  {
    if |sel| > 0 {
      var n := |sel| - 1;
      var front := sel[..n];
      var c := Count(front);
      assert Place(sel, vals)[..n] == Place(front, vals[..c]) by {
        forall t | 0 <= t < n ensures Place(sel, vals)[..n][t] == Place(front, vals[..c])[t] {
          assert sel[..t] == front[..t];
          if sel[t] {
            CountPrefixBelow(front, t);
          }
        }
      }
      PlaceSelect(front, vals[..c]);
      if sel[n] {
        assert vals == vals[..c] + [vals[c]];
      } else {
        assert vals == vals[..c];
      }
    }
  }

  /** A row kept by `sel` and its column entry, dropped rows contributing nothing. */
  lemma {:induction false} DotPlace(sel: seq<bool>, vals: seq<real>, col: seq<real>)
    requires |vals| == Count(sel) && |col| == |sel|
    ensures Dot(Place(sel, vals), col) == Dot(vals, Compress(col, sel))
    decreases |sel|
  {
    if |sel| > 0 {
      var n := |sel| - 1;
      var front := sel[..n];
      var c := Count(front);
      assert Place(sel, vals)[..n] == Place(front, vals[..c]) by {
        forall t | 0 <= t < n ensures Place(sel, vals)[..n][t] == Place(front, vals[..c])[t] {
          assert sel[..t] == front[..t];
          if sel[t] {
            CountPrefixBelow(front, t);
          }
        }
      }
      DotPlace(front, vals[..c], col[..n]);
      assert Place(sel, vals)[..|sel| - 1] == Place(front, vals[..c]) && col[..|col| - 1] == col[..n];
      if sel[n] {
        assert Place(sel, vals)[n] == vals[c];
        assert Compress(col, sel) == Compress(col[..n], front) + [col[n]];
        assert vals[..|vals| - 1] == vals[..c];
      } else {
        assert Place(sel, vals)[n] == 0.0;
        assert Compress(col, sel) == Compress(col[..n], front);
        assert vals == vals[..c];
      }
    }
  }

  /** The kept entries up to position `hi` are those before `lo` and those in `[lo, hi)`. */
  lemma {:induction false} CountSplit(ok: seq<bool>, lo: nat, hi: nat)
    requires lo <= hi <= |ok|
    ensures Count(ok[..hi]) == Count(ok[..lo]) + Count(ok[lo..hi])
  {
    assert ok[..hi] == ok[..lo] + ok[lo..hi];
    CountAppend(ok[..lo], ok[lo..hi]);
  }

  /**
   * The solver's coefficients for the design rows `[lo, hi)`, one entry per
   * row: a kept row takes the coefficient of its rank among the kept rows,
   * a dropped row gets 0.
   */
  function Scatter(ok: seq<bool>, coeffs: seq<real>, lo: nat, hi: nat): (r: seq<real>)
    requires lo <= hi <= |ok| && |coeffs| == Count(ok)
    ensures |r| == hi - lo
    ensures forall t :: 0 <= t < hi - lo && !ok[lo + t] ==> r[t] == 0.0
  {
    CountSplit(ok, lo, hi);
    CountSplit(ok, hi, |ok|);
    assert ok[..|ok|] == ok;
    Place(ok[lo..hi], coeffs[Count(ok[..lo])..Count(ok[..hi])])
  }

  /** The surviving entries of the scatter are the solver's coefficients of those rows, in row order. */
  lemma {:induction false} ScatterInOrder(ok: seq<bool>, coeffs: seq<real>, lo: nat, hi: nat)
    requires lo <= hi <= |ok| && |coeffs| == Count(ok)
    ensures Count(ok[..lo]) <= Count(ok[..hi]) <= |coeffs|
    ensures Compress(Scatter(ok, coeffs, lo, hi), ok[lo..hi]) == coeffs[Count(ok[..lo])..Count(ok[..hi])]
  {
    CountSplit(ok, lo, hi);
    CountSplit(ok, hi, |ok|);
    assert ok[..|ok|] == ok;
    PlaceSelect(ok[lo..hi], coeffs[Count(ok[..lo])..Count(ok[..hi])]);
  }

  /**
   * The model built from the scattered coefficients and all rows equals the
   * model built from the solver's coefficients and the kept rows only: the
   * zeros put in for dropped rows change nothing.
   */
  lemma {:induction false} ScatterModel(ok: seq<bool>, coeffs: seq<real>, lo: nat, hi: nat, rows: seq<seq<real>>, width: nat)
    requires lo <= hi <= |ok| && |coeffs| == Count(ok)
    requires |rows| == hi - lo && forall j :: 0 <= j < |rows| ==> |rows[j]| == width
    ensures Count(ok[..hi]) == Count(ok[..lo]) + Count(ok[lo..hi]) <= |coeffs|
    ensures var kept := Compress(rows, ok[lo..hi]);
      (forall j :: 0 <= j < |kept| ==> |kept[j]| == width)
      && ComputeModel(Scatter(ok, coeffs, lo, hi), rows, width)
         == ComputeModel(coeffs[Count(ok[..lo])..Count(ok[..hi])], kept, width)
  {
    CountSplit(ok, lo, hi);
    CountSplit(ok, hi, |ok|);
    assert ok[..|ok|] == ok;
    var sel := ok[lo..hi];
    var vals := coeffs[Count(ok[..lo])..Count(ok[..hi])];
    var kept := Compress(rows, sel);
    forall j | 0 <= j < |kept| ensures |kept[j]| == width {
      CompressFrom(rows, sel, j);
    }
    forall p | 0 <= p < width
      ensures ComputeModel(Scatter(ok, coeffs, lo, hi), rows, width)[p] == ComputeModel(vals, kept, width)[p]
    {
      DotPlace(sel, vals, Column(rows, p));
      ColumnOfKept(rows, sel, p);
    }
  }

  /** Selecting rows and then taking a column is taking the column and then selecting. */
  lemma {:induction false} ColumnOfKept(rows: seq<seq<real>>, sel: seq<bool>, p: nat)
    requires |rows| == |sel| && forall j :: 0 <= j < |rows| ==> p < |rows[j]|
    ensures forall j :: 0 <= j < |Compress(rows, sel)| ==> p < |Compress(rows, sel)[j]|
    ensures Column(Compress(rows, sel), p) == Compress(Column(rows, p), sel)
    decreases |rows|
  {
    forall j | 0 <= j < |Compress(rows, sel)| ensures p < |Compress(rows, sel)[j]| {
      CompressFrom(rows, sel, j);
    }
    if |rows| > 0 {
      var n := |rows| - 1;
      ColumnOfKept(rows[..n], sel[..n], p);
      assert Column(rows, p)[..n] == Column(rows[..n], p);
    }
  }

  /** The pedestal added to the data before the fit and subtracted from the background. */
  const Pedestal: real := 0.04

  /**
   * The result of `fit_at_z`: chi-squared, background, template model,
   * per-template coefficients and, pixel by pixel, whether the source's
   * template model is a number there. The source divides the weighted rows
   * back by `sivarf`, which is `0/0` at a pixel of zero weight as soon as
   * one template row takes part; at every other pixel its model is `full`.
   */
  datatype FitResult = FitResult(chi2: real, background: seq<real>, full: seq<real>,
                                 coeffs: seq<real>, coeffsErr: seq<real>, fullDefined: seq<bool>)

  /** The pixels where a model of `n` rows divided back by `sivarf` is a number. */
  function FullDefined(sivarf: seq<real>, n: nat): (d: seq<bool>)
    ensures |d| == |sivarf|
    ensures forall k :: 0 <= k < |sivarf| ==> (d[k] <==> n == 0 || sivarf[k] != 0.0)
  {
    seq(|sivarf|, k requires 0 <= k < |sivarf| => n == 0 || sivarf[k] != 0.0)
  }

  /** `(a*b)` entrywise. */
  function Mul(a: seq<real>, b: seq<real>): (r: seq<real>)
    requires |a| == |b|
    ensures |r| == |a| && forall k :: 0 <= k < |a| ==> r[k] == a[k] * b[k]
  {
    seq(|a|, k requires 0 <= k < |a| => a[k] * b[k])
  }

  /** `Ax = A[oktemp,:]*self.sivarf`: the kept design rows, weighted pixel by pixel. */
  function Weighted(a: seq<seq<real>>, ok: seq<bool>, sivarf: seq<real>): (ax: seq<seq<real>>)
    requires |ok| == |a| && forall i :: 0 <= i < |a| ==> |a[i]| == |sivarf|
    ensures |ax| == Count(ok) && forall r :: 0 <= r < |ax| ==> |ax[r]| == |sivarf|
  {
    KeptWidths(a, ok, |sivarf|);
    var kept := Compress(a, ok);
    seq(|kept|, r requires 0 <= r < |kept| => Mul(kept[r], sivarf))
  }

  /** Every row that boolean indexing keeps has the common width of the rows. */
  lemma {:induction false} KeptWidths(a: seq<seq<real>>, ok: seq<bool>, width: nat)
    requires |ok| == |a| && forall i :: 0 <= i < |a| ==> |a[i]| == width
    ensures forall j :: 0 <= j < Count(ok) ==> |Compress(a, ok)[j]| == width
  {
    forall j | 0 <= j < Count(ok) ensures |Compress(a, ok)[j]| == width {
      CompressAt(a, ok, j);
    }
  }

  /** A column of the weighted rows is the column of the kept rows times the pixel's weight. */
  lemma {:induction false} WeightedColumn(a: seq<seq<real>>, ok: seq<bool>, sivarf: seq<real>, k: nat)
    requires |ok| == |a| && forall i :: 0 <= i < |a| ==> |a[i]| == |sivarf|
    requires k < |sivarf|
    ensures forall j :: 0 <= j < Count(ok) ==> |Compress(a, ok)[j]| == |sivarf|
    ensures Column(Weighted(a, ok, sivarf), k) == Scale(Column(Compress(a, ok), k), sivarf[k])
  {
    KeptWidths(a, ok, |sivarf|);
    var ax, col := Weighted(a, ok, sivarf), Column(Compress(a, ok), k);
    forall j | 0 <= j < |ax| ensures Column(ax, k)[j] == Scale(col, sivarf[k])[j] {
      assert ax[j] == Mul(Compress(a, ok)[j], sivarf);
    }
  }

  /** Rows restricted to the fitted pixels (`[:, fit_mask]`). */
  function AtPixels(rows: seq<seq<real>>, mask: seq<bool>): (r: seq<seq<real>>)
    requires forall j :: 0 <= j < |rows| ==> |rows[j]| == |mask|
    ensures |r| == |rows| && forall j :: 0 <= j < |r| ==> |r[j]| == Count(mask)
  {
    seq(|rows|, j requires 0 <= j < |rows| => Compress(rows[j], mask))
  }

  /** The weighted design rows handed to the solver, restricted to the fitted pixels (`AxT` transposed). */
  function SolverRows(a: seq<seq<real>>, ok: seq<bool>, sivarf: seq<real>, mask: seq<bool>): (rows: seq<seq<real>>)
    requires |ok| == |a| && |sivarf| == |mask| && forall i :: 0 <= i < |a| ==> |a[i]| == |mask|
    ensures |rows| == Count(ok) && forall r :: 0 <= r < |rows| ==> |rows[r]| == Count(mask)
  {
    AtPixels(Weighted(a, ok, sivarf), mask)
  }

  /** `(self.scif+pedestal)*self.sivarf`: the weighted data with the pedestal, at every pixel. */
  function WeightedData(scif: seq<real>, sivarf: seq<real>): (d: seq<real>)
    requires |scif| == |sivarf|
    ensures |d| == |scif| && forall k :: 0 <= k < |scif| ==> d[k] == (scif[k] + Pedestal) * sivarf[k]
  {
    Mul(seq(|scif|, k requires 0 <= k < |scif| => scif[k] + Pedestal), sivarf)
  }

  /** The weighted data with the pedestal, restricted to the fitted pixels. */
  function SolverData(scif: seq<real>, sivarf: seq<real>, mask: seq<bool>): (d: seq<real>)
    requires |scif| == |sivarf| == |mask|
    ensures |d| == Count(mask)
  {
    Compress(WeightedData(scif, sivarf), mask)
  }

  /** The residual `data - np.dot(coeffs, rows)` of coefficients `sol` for rows and data, entry by entry. */
  function SolverResidual(rows: seq<seq<real>>, data: seq<real>, sol: seq<real>): (res: seq<real>)
    requires |sol| == |rows| && forall j :: 0 <= j < |rows| ==> |rows[j]| == |data|
    ensures |res| == |data| && forall p :: 0 <= p < |data| ==> res[p] == data[p] - Dot(sol, Column(rows, p))
  {
    seq(|data|, p requires 0 <= p < |data| => data[p] - Dot(sol, Column(rows, p)))
  }

  /** Selecting pixels commutes with taking the residual: the residual on the fitted pixels is the solver's residual. */
  lemma {:induction false} ResidualAtPixels(rows: seq<seq<real>>, data: seq<real>, sol: seq<real>, mask: seq<bool>)
    requires |data| == |mask| && |sol| == |rows| && forall j :: 0 <= j < |rows| ==> |rows[j]| == |mask|
    ensures Compress(SolverResidual(rows, data, sol), mask)
         == SolverResidual(AtPixels(rows, mask), Compress(data, mask), sol)
  {
    var res := SolverResidual(rows, data, sol);
    var at := AtPixels(rows, mask);
    forall r | 0 <= r < Count(mask)
      ensures Compress(res, mask)[r] == SolverResidual(at, Compress(data, mask), sol)[r]
    {
      var k := Selected(mask, r);
      CompressAt(res, mask, r);
      CompressAt(data, mask, r);
      forall j | 0 <= j < |rows| ensures Column(at, r)[j] == Column(rows, k)[j] {
        CompressAt(rows[j], mask, r);
      }
      assert Column(at, r) == Column(rows, k);
    }
  }

  /** The solver returns one coefficient per design row it is given. */
  ghost predicate SolverShape(solver: (seq<seq<real>>, seq<real>) -> seq<real>)
  {
    forall rows, data :: |solver(rows, data)| == |rows|
  }

  /** `resid = scif - full - background`, then `np.sum(resid[fit_mask]**2*sivarf[fit_mask]**2)`. */
  function Chi2(scif: seq<real>, full: seq<real>, background: seq<real>, sivarf: seq<real>, mask: seq<bool>): real
    requires |full| == |background| == |scif| == |sivarf| == |mask|
  {
    var n := |mask|;
    var resid := seq(n, k requires 0 <= k < n => scif[k] - full[k] - background[k]);
    MaskedSum(seq(n, k requires 0 <= k < n => resid[k] * resid[k] * sivarf[k] * sivarf[k]), mask)
  }

  /** A model with the pedestal taken off. */
  function LessPedestal(model: seq<real>): (r: seq<real>)
    ensures |r| == |model| && forall k :: 0 <= k < |model| ==> r[k] == model[k] - Pedestal
  {
    seq(|model|, k requires 0 <= k < |model| => model[k] - Pedestal)
  }

  /**
   * Everything `fit_at_z` computes from the solver's coefficients `sol`
   * (one per kept row) and their uncertainties `err`: the background with
   * the pedestal taken off, the template model, chi-squared over the fitted
   * pixels and the per-template coefficients.
   */
  function Assemble(a: seq<seq<real>>, next: nat, mask: seq<bool>, scif: seq<real>, sivarf: seq<real>,
                    sol: seq<real>, err: seq<real>): (f: FitResult)
    requires next <= |a| && |scif| == |sivarf| == |mask|
    requires forall i :: 0 <= i < |a| ==> |a[i]| == |mask|
    requires |sol| == |err| == Count(OkRows(a, mask))
    ensures var ok := OkRows(a, mask);
      |f.background| == |f.full| == |mask| && |f.coeffs| == |f.coeffsErr| == |a| - next
      && f.coeffs == Scatter(ok, sol, next, |a|) && f.coeffsErr == Scatter(ok, err, next, |a|)
      && (forall t :: 0 <= t < |a| - next && !ok[next + t] ==> f.coeffs[t] == 0.0 && f.coeffsErr[t] == 0.0)
      && (forall k :: 0 <= k < |mask| ==>
            f.background[k] == Dot(Scatter(ok, sol, 0, next), Column(a[..next], k)) - Pedestal)
      && |f.fullDefined| == |mask|
  {
    var ok := OkRows(a, mask);
    var n := |mask|;
    var background := LessPedestal(ComputeModel(Scatter(ok, sol, 0, next), a[..next], n));
    var full := ComputeModel(Scatter(ok, sol, next, |a|), a[next..], n);
    FitResult(Chi2(scif, full, background, sivarf, mask), background, full,
              Scatter(ok, sol, next, |a|), Scatter(ok, err, next, |a|), FullDefined(sivarf, Count(ok[next..])))
  }

  /** Some row from position `lo` on is kept exactly when the kept rows from `lo` on are counted. */
  lemma {:induction false} KeptFrom(ok: seq<bool>, lo: nat)
    requires lo <= |ok|
    ensures Count(ok[lo..]) > 0 <==> exists t :: lo <= t < |ok| && ok[t]
  {
    CountPositive(ok[lo..]);
    if exists t :: lo <= t < |ok| && ok[t] {
      var t :| lo <= t < |ok| && ok[t];
      assert ok[lo..][t - lo];
    }
    if exists i :: 0 <= i < |ok[lo..]| && ok[lo..][i] {
      var i :| 0 <= i < |ok[lo..]| && ok[lo..][i];
      assert ok[lo + i];
    }
  }

  /**
   * The source's template model is not a number exactly at the pixels of
   * zero weight, and only when some template row is kept.
   */
  lemma {:induction false} AssembleFullDefined(a: seq<seq<real>>, next: nat, mask: seq<bool>, scif: seq<real>,
                                               sivarf: seq<real>, sol: seq<real>, err: seq<real>, k: nat)
    requires next <= |a| && |scif| == |sivarf| == |mask|
    requires forall i :: 0 <= i < |a| ==> |a[i]| == |mask|
    requires |sol| == |err| == Count(OkRows(a, mask))
    requires k < |mask|
    ensures var f := Assemble(a, next, mask, scif, sivarf, sol, err);
      !f.fullDefined[k] <==> sivarf[k] == 0.0 && exists t :: next <= t < |a| && OkRows(a, mask)[t]
  {
    KeptFrom(OkRows(a, mask), next);
  }

  /**
   * The template model is built from the solver's coefficients of the kept
   * template rows and those rows only (`np.dot(coeffs[Next:], Ax[Next:,:]/sivarf)`
   * with every background row kept).
   */
  lemma {:induction false} AssembleFull(a: seq<seq<real>>, next: nat, mask: seq<bool>, scif: seq<real>, sivarf: seq<real>,
                                        sol: seq<real>, err: seq<real>)
    requires next <= |a| && |scif| == |sivarf| == |mask|
    requires forall i :: 0 <= i < |a| ==> |a[i]| == |mask|
    requires |sol| == |err| == Count(OkRows(a, mask))
    ensures var ok := OkRows(a, mask);
      var kept := Compress(a[next..], ok[next..]);
      Count(ok[..next]) + Count(ok[next..]) == |sol| && (forall j :: 0 <= j < |kept| ==> |kept[j]| == |mask|)
      && Assemble(a, next, mask, scif, sivarf, sol, err).full == ComputeModel(sol[Count(ok[..next])..], kept, |mask|)
  {
    var ok := OkRows(a, mask);
    ScatterModel(ok, sol, next, |a|, a[next..], |mask|);
    assert ok[..|a|] == ok && ok[next..|a|] == ok[next..];
    CountSplit(ok, next, |ok|);
    assert sol[Count(ok[..next])..Count(ok)] == sol[Count(ok[..next])..];
  }

  /**
   * The background is built from the solver's coefficients of the kept
   * background rows and those rows only, less the pedestal.
   */
  lemma {:induction false} AssembleBackground(a: seq<seq<real>>, next: nat, mask: seq<bool>, scif: seq<real>, sivarf: seq<real>,
                                              sol: seq<real>, err: seq<real>)
    requires next <= |a| && |scif| == |sivarf| == |mask|
    requires forall i :: 0 <= i < |a| ==> |a[i]| == |mask|
    requires |sol| == |err| == Count(OkRows(a, mask))
    ensures var ok := OkRows(a, mask);
      var kept := Compress(a[..next], ok[..next]);
      Count(ok[..next]) <= |sol| && (forall j :: 0 <= j < |kept| ==> |kept[j]| == |mask|)
      && Assemble(a, next, mask, scif, sivarf, sol, err).background
         == LessPedestal(ComputeModel(sol[..Count(ok[..next])], kept, |mask|))
  {
    var ok := OkRows(a, mask);
    ScatterModel(ok, sol, 0, next, a[..next], |mask|);
    CountSplit(ok, next, |ok|);
    assert ok[..|ok|] == ok && ok[0..next] == ok[..next] && ok[..0] == [];
    assert sol[0..Count(ok[..next])] == sol[..Count(ok[..next])];
  }

  /** Boolean indexing of the rows before and after `next`. */
  lemma {:induction false} KeptSplit(a: seq<seq<real>>, ok: seq<bool>, next: nat)
    requires |ok| == |a| && next <= |a|
    ensures Compress(a, ok) == Compress(a[..next], ok[..next]) + Compress(a[next..], ok[next..])
  {
    assert a == a[..next] + a[next..] && ok == ok[..next] + ok[next..];
    CompressAppend(a[..next], ok[..next], a[next..], ok[next..]);
  }

  /** The model of two blocks of rows is the sum of the models of the blocks with their own coefficients. */
  lemma {:induction false} ModelSplit(sol: seq<real>, c: nat, k1: seq<seq<real>>, k2: seq<seq<real>>, k: nat)
    requires c == |k1| && |sol| == |k1| + |k2|
    requires (forall j :: 0 <= j < |k1| ==> k < |k1[j]|) && (forall j :: 0 <= j < |k2| ==> k < |k2[j]|)
    ensures forall j :: 0 <= j < |k1 + k2| ==> k < |(k1 + k2)[j]|
    ensures Dot(sol[..c], Column(k1, k)) + Dot(sol[c..], Column(k2, k)) == Dot(sol, Column(k1 + k2, k))
  {
    assert sol == sol[..c] + sol[c..];
    assert Column(k1 + k2, k) == Column(k1, k) + Column(k2, k);
    DotAppend(sol[..c], Column(k1, k), sol[c..], Column(k2, k));
  }

  /** `resid*self.sivarf` with `resid = scif - full - background`: the weighted residual at every pixel. */
  function WeightedResiduals(scif: seq<real>, full: seq<real>, bg: seq<real>, sivarf: seq<real>): (r: seq<real>)
    requires |full| == |bg| == |scif| == |sivarf|
    ensures |r| == |scif| && forall k :: 0 <= k < |scif| ==> r[k] == (scif[k] - full[k] - bg[k]) * sivarf[k]
  {
    seq(|scif|, k requires 0 <= k < |scif| => (scif[k] - full[k] - bg[k]) * sivarf[k])
  }

  /** The residual with the pedestal in the data and taken off the background, weighted. */
  lemma {:induction false} PedestalCancels(scif: seq<real>, full: seq<real>, bg: seq<real>, sivarf: seq<real>, k: nat,
                                           sol: seq<real>, kept: seq<seq<real>>)
    requires k < |scif| == |full| == |bg| == |sivarf|
    requires |sol| == |kept| && forall j :: 0 <= j < |kept| ==> k < |kept[j]|
    requires Dot(sol, Column(kept, k)) == full[k] + bg[k] + Pedestal
    ensures (scif[k] - full[k] - bg[k]) * sivarf[k] == (scif[k] + Pedestal - Dot(sol, Column(kept, k))) * sivarf[k]
  {
    assert scif[k] - full[k] - bg[k] == scif[k] + Pedestal - Dot(sol, Column(kept, k));
  }

  /**
   * A background and a template model that add up, with the pedestal, to
   * the model of the kept rows leave, once weighted, the solver's residual
   * on the weighted data with the pedestal at every pixel.
   */
  lemma {:induction false} FitResidual(a: seq<seq<real>>, ok: seq<bool>, scif: seq<real>, sivarf: seq<real>, sol: seq<real>,
                                       full: seq<real>, bg: seq<real>)
    requires |ok| == |a| && |scif| == |sivarf| == |full| == |bg| && forall i :: 0 <= i < |a| ==> |a[i]| == |sivarf|
    requires |sol| == Count(ok)
    requires forall j :: 0 <= j < Count(ok) ==> |Compress(a, ok)[j]| == |sivarf|
    requires forall k :: 0 <= k < |scif| ==> Dot(sol, Column(Compress(a, ok), k)) == full[k] + bg[k] + Pedestal
    ensures WeightedResiduals(scif, full, bg, sivarf) == SolverResidual(Weighted(a, ok, sivarf), WeightedData(scif, sivarf), sol)
  {
    var wr := WeightedResiduals(scif, full, bg, sivarf);
    var res := SolverResidual(Weighted(a, ok, sivarf), WeightedData(scif, sivarf), sol);
    forall k | 0 <= k < |scif| ensures wr[k] == res[k] {
      FitResidualAt(a, ok, scif, sivarf, sol, full, bg, k);
    }
  }

  /** `FitResidual` at one pixel. */
  lemma {:induction false} FitResidualAt(a: seq<seq<real>>, ok: seq<bool>, scif: seq<real>, sivarf: seq<real>, sol: seq<real>,
                                         full: seq<real>, bg: seq<real>, k: nat)
    requires |ok| == |a| && |scif| == |sivarf| == |full| == |bg| && forall i :: 0 <= i < |a| ==> |a[i]| == |sivarf|
    requires |sol| == Count(ok) && k < |scif|
    requires forall j :: 0 <= j < Count(ok) ==> |Compress(a, ok)[j]| == |sivarf|
    requires Dot(sol, Column(Compress(a, ok), k)) == full[k] + bg[k] + Pedestal
    ensures WeightedResiduals(scif, full, bg, sivarf)[k]
         == SolverResidual(Weighted(a, ok, sivarf), WeightedData(scif, sivarf), sol)[k]
  {
    WeightedResidual(a, ok, scif, sivarf, sol, k);
    PedestalCancels(scif, full, bg, sivarf, k, sol, Compress(a, ok));
  }

  /** The background and the template model add up, with the pedestal, to the model of the kept rows. */
  lemma {:induction false} AssembleAddsUp(a: seq<seq<real>>, next: nat, mask: seq<bool>, scif: seq<real>, sivarf: seq<real>,
                                          sol: seq<real>, err: seq<real>, k: nat)
    requires next <= |a| && |scif| == |sivarf| == |mask|
    requires forall i :: 0 <= i < |a| ==> |a[i]| == |mask|
    requires |sol| == |err| == Count(OkRows(a, mask))
    requires k < |mask|
    ensures forall j :: 0 <= j < |sol| ==> |Compress(a, OkRows(a, mask))[j]| == |mask|
    ensures var f := Assemble(a, next, mask, scif, sivarf, sol, err);
      Dot(sol, Column(Compress(a, OkRows(a, mask)), k)) == f.full[k] + f.background[k] + Pedestal
  {
    var ok := OkRows(a, mask);
    var f := Assemble(a, next, mask, scif, sivarf, sol, err);
    var c := Count(ok[..next]);
    var k1 := Compress(a[..next], ok[..next]);
    var k2 := Compress(a[next..], ok[next..]);
    KeptWidths(a[..next], ok[..next], |mask|);
    KeptWidths(a[next..], ok[next..], |mask|);
    KeptWidths(a, ok, |mask|);
    CountSplit(ok, next, |ok|);
    assert ok[..|ok|] == ok && ok[next..|ok|] == ok[next..];
    var x := Dot(sol[..c], Column(k1, k));
    var y := Dot(sol[c..], Column(k2, k));
    assert f.background[k] == x - Pedestal && f.full[k] == y by {
      AssembleFull(a, next, mask, scif, sivarf, sol, err);
      AssembleBackground(a, next, mask, scif, sivarf, sol, err);
    }
    assert x + y == Dot(sol, Column(Compress(a, ok), k)) by {
      KeptSplit(a, ok, next);
      ModelSplit(sol, c, k1, k2, k);
    }
  }

  /**
   * The weighted residual of the fit, `resid*self.sivarf`, is at every
   * pixel the solver's residual on the weighted data with the pedestal: the
   * pedestal added to the data is the one taken off the background, so it
   * cancels.
   */
  lemma {:induction false} AssembleResidual(a: seq<seq<real>>, next: nat, mask: seq<bool>, scif: seq<real>, sivarf: seq<real>,
                                            sol: seq<real>, err: seq<real>)
    requires next <= |a| && |scif| == |sivarf| == |mask|
    requires forall i :: 0 <= i < |a| ==> |a[i]| == |mask|
    requires |sol| == |err| == Count(OkRows(a, mask))
    ensures var f := Assemble(a, next, mask, scif, sivarf, sol, err);
      WeightedResiduals(scif, f.full, f.background, sivarf)
      == SolverResidual(Weighted(a, OkRows(a, mask), sivarf), WeightedData(scif, sivarf), sol)
  {
    var ok := OkRows(a, mask);
    var f := Assemble(a, next, mask, scif, sivarf, sol, err);
    KeptWidths(a, ok, |mask|);
    forall k | 0 <= k < |mask| ensures Dot(sol, Column(Compress(a, ok), k)) == f.full[k] + f.background[k] + Pedestal {
      AssembleAddsUp(a, next, mask, scif, sivarf, sol, err, k);
    }
    FitResidual(a, ok, scif, sivarf, sol, f.full, f.background);
  }

  /** The solver's residual at a pixel: weighted data with the pedestal less the weighted model of the kept rows. */
  lemma {:induction false} WeightedResidual(a: seq<seq<real>>, ok: seq<bool>, scif: seq<real>, sivarf: seq<real>,
                                            sol: seq<real>, k: nat)
    requires |ok| == |a| && |scif| == |sivarf| && forall i :: 0 <= i < |a| ==> |a[i]| == |sivarf|
    requires |sol| == Count(ok) && k < |sivarf|
    ensures forall j :: 0 <= j < Count(ok) ==> |Compress(a, ok)[j]| == |sivarf|
    ensures SolverResidual(Weighted(a, ok, sivarf), WeightedData(scif, sivarf), sol)[k]
         == (scif[k] + Pedestal - Dot(sol, Column(Compress(a, ok), k))) * sivarf[k]
  {
    WeightedColumn(a, ok, sivarf, k);
    DotScaleRight(sol, Column(Compress(a, ok), k), sivarf[k]);
  }

  /** `resid**2*sivarf**2` summed over the fitted pixels is the sum of the squared weighted residuals there. */
  lemma {:induction false} Chi2Weighted(scif: seq<real>, full: seq<real>, bg: seq<real>, sivarf: seq<real>, mask: seq<bool>)
    requires |full| == |bg| == |scif| == |sivarf| == |mask|
    ensures Chi2(scif, full, bg, sivarf, mask) == Sum(Compress(Squares(WeightedResiduals(scif, full, bg, sivarf)), mask))
  {
    var n := |mask|;
    var wr := WeightedResiduals(scif, full, bg, sivarf);
    var resid := seq(n, k requires 0 <= k < n => scif[k] - full[k] - bg[k]);
    var terms := seq(n, k requires 0 <= k < n => resid[k] * resid[k] * sivarf[k] * sivarf[k]);
    forall k | 0 <= k < n ensures terms[k] == Squares(wr)[k] {
      var r, w := resid[k], sivarf[k];
      assert wr[k] == r * w;
      assert r * r * w * w == (r * w) * (r * w);
    }
    assert terms == Squares(wr);
    MaskedSumIsSum(terms, mask);
  }

  /**
   * The chi-squared of the fit is the solver's squared residual: the sum of
   * squares of the weighted data with the pedestal less the weighted model
   * of the kept rows, over the fitted pixels; hence it is never negative.
   */
  lemma {:induction false} AssembleChi(a: seq<seq<real>>, next: nat, mask: seq<bool>, scif: seq<real>, sivarf: seq<real>,
                                       sol: seq<real>, err: seq<real>)
    requires next <= |a| && |scif| == |sivarf| == |mask|
    requires forall i :: 0 <= i < |a| ==> |a[i]| == |mask|
    requires |sol| == |err| == Count(OkRows(a, mask))
    ensures var f := Assemble(a, next, mask, scif, sivarf, sol, err);
      var ok := OkRows(a, mask);
      f.chi2 == Sum(Squares(SolverResidual(SolverRows(a, ok, sivarf, mask), SolverData(scif, sivarf, mask), sol)))
      && f.chi2 >= 0.0
  {
    var ok := OkRows(a, mask);
    var f := Assemble(a, next, mask, scif, sivarf, sol, err);
    var wd := WeightedData(scif, sivarf);
    var ax := Weighted(a, ok, sivarf);
    var res := SolverResidual(ax, wd, sol);
    assert f.chi2 == Chi2(scif, f.full, f.background, sivarf, mask);
    Chi2Weighted(scif, f.full, f.background, sivarf, mask);
    AssembleResidual(a, next, mask, scif, sivarf, sol, err);
    CompressSquares(res, mask);
    ResidualAtPixels(ax, wd, sol, mask);
    SumNonNegative(Squares(Compress(res, mask)));
  }

  // ---------------------------------------------------------------------
  // The scatter as written
  // ---------------------------------------------------------------------

  /**
   * `full_coeffs[oktemp[Next:]] = coeffs[Next:]` as numpy evaluates it: the
   * solver's coefficients from position `Next` on go to the kept template
   * slots in order; a single value is broadcast to all of them; any other
   * length mismatch raises (`None`).
   */
  function ScatterAsWritten(ok: seq<bool>, coeffs: seq<real>, next: nat): (r: Option<seq<real>>)
    requires next <= |ok|
    ensures r.Some? ==> |r.value| == |ok| - next
  {
    var sel := ok[next..];
    var tail := if next <= |coeffs| then coeffs[next..] else [];
    if |tail| == Count(sel) then Some(Place(sel, tail))
    else if |tail| == 1 then Some(Place(sel, Fill(Count(sel), tail[0])))
    else None
  }

  /** When every background row is kept, the scatter as written is the rank-based scatter. */
  lemma {:induction false} ScatterAsWrittenAgrees(ok: seq<bool>, coeffs: seq<real>, next: nat)
    requires next <= |ok| && |coeffs| == Count(ok)
    requires forall i :: 0 <= i < next ==> ok[i]
    ensures ScatterAsWritten(ok, coeffs, next) == Some(Scatter(ok, coeffs, next, |ok|))
  {
    CountAllTrue(ok[..next]);
    CountSplit(ok, next, |ok|);
    assert ok[..|ok|] == ok && ok[next..|ok|] == ok[next..];
    var sel := ok[next..];
    assert Count(sel) == |coeffs| - next;
    var tail := coeffs[next..];
    assert |tail| == Count(sel);
    assert ScatterAsWritten(ok, coeffs, next) == Some(Place(sel, tail));
    assert tail == coeffs[Count(ok[..next])..Count(ok[..|ok|])];
  }

  /**
   * One background row dropped: with `Next = 1`, rows `[bg, t0, t1]` of
   * which the background is dropped, the solver returns `[a, b]` for
   * `t0, t1`; as written `coeffs[1:] = [b]` is broadcast to both templates,
   * while `t0`'s coefficient is `a`.
   */
  lemma {:induction false} ScatterMisaligned(a: real, b: real)
    ensures Count([false, true, true]) == 2
    ensures ScatterAsWritten([false, true, true], [a, b], 1) == Some([b, b])
    ensures Scatter([false, true, true], [a, b], 1, 3) == [a, b]
  {
    var ok := [false, true, true];
    assert ok[1..] == [true, true];
    assert [true, true][..0] == [] && [true, true][..1] == [true];
    assert Count([true, true]) == 2;
    assert [a, b][1..] == [b];
    assert Place([true, true], Fill(2, b)) == [b, b];
    assert ok[..1] == [false] && ok[..3] == ok && ok[1..3] == [true, true];
    assert [false][..0] == [];
    assert Count(ok) == 2 && Count([false]) == 0;
    assert [a, b][0..2] == [a, b];
    assert Place([true, true], [a, b]) == [a, b];
  }

  /** The masked sum of a 0/1 row is never negative, and zero exactly when the row is zero on every fitted pixel. */
  lemma {:induction false} MaskedSumIndicator(w: seq<real>, m: seq<bool>)
    requires |w| == |m| && forall k :: 0 <= k < |w| ==> w[k] == 0.0 || w[k] == 1.0
    ensures MaskedSum(w, m) >= 0.0
    ensures MaskedSum(w, m) == 0.0 <==> forall k :: 0 <= k < |w| && m[k] ==> w[k] == 0.0
    decreases |w|
  {
    if |w| > 0 {
      var n := |w| - 1;
      MaskedSumIndicator(w[..n], m[..n]);
      assert forall k :: 0 <= k < n ==> w[..n][k] == w[k] && m[..n][k] == m[k];
    }
  }

  /**
   * What `fit_at_z` assembles, as written, from the solver's coefficients
   * `sol` (one per kept row): `np.dot(coeffs[:Next], A[:Next,:])` pairs the
   * first `Next` coefficients with all `Next` background rows, kept or not,
   * and raises (`None`) when fewer than `Next` rows were kept; `full` pairs
   * the coefficients from position `Next` on with the kept rows from
   * position `Next` on; the coefficients and uncertainties are scattered as
   * `full_coeffs[oktemp[Next:]] = coeffs[Next:]` does; the template model is
   * not a number at pixels of zero weight when more than `Next` rows are kept.
   */
  function AssembleAsWritten(a: seq<seq<real>>, next: nat, mask: seq<bool>, scif: seq<real>, sivarf: seq<real>,
                             sol: seq<real>, err: seq<real>): (r: Option<FitResult>)
    requires next <= |a| && |scif| == |sivarf| == |mask|
    requires forall i :: 0 <= i < |a| ==> |a[i]| == |mask|
    requires |sol| == |err| == Count(OkRows(a, mask))
    ensures r.Some? ==> |r.value.background| == |r.value.full| == |mask| && |r.value.coeffs| == |r.value.coeffsErr| == |a| - next
    ensures r.Some? ==> |r.value.fullDefined| == |mask|
    ensures r.Some? <==> next <= |sol| && ScatterAsWritten(OkRows(a, mask), sol, next).Some?
  {
    var ok := OkRows(a, mask);
    var n := |mask|;
    if |sol| < next then None
    else
      var coeffs, coeffsErr := ScatterAsWritten(ok, sol, next), ScatterAsWritten(ok, err, next);
      if coeffs.None? || coeffsErr.None? then None
      else
        KeptWidths(a, ok, n);
        var background := LessPedestal(ComputeModel(sol[..next], a[..next], n));
        var full := ComputeModel(sol[next..], Compress(a, ok)[next..], n);
        Some(FitResult(Chi2(scif, full, background, sivarf, mask), background, full, coeffs.value, coeffsErr.value,
                       FullDefined(sivarf, |sol| - next)))
  }

  /** When every background row is kept, the fit as written is the fit. */
  lemma {:induction false} AssembleAsWrittenAgrees(a: seq<seq<real>>, next: nat, mask: seq<bool>, scif: seq<real>,
                                                   sivarf: seq<real>, sol: seq<real>, err: seq<real>)
    requires next <= |a| && |scif| == |sivarf| == |mask|
    requires forall i :: 0 <= i < |a| ==> |a[i]| == |mask|
    requires |sol| == |err| == Count(OkRows(a, mask))
    requires forall i :: 0 <= i < next ==> OkRows(a, mask)[i]
    ensures AssembleAsWritten(a, next, mask, scif, sivarf, sol, err) == Some(Assemble(a, next, mask, scif, sivarf, sol, err))
  {
    var ok := OkRows(a, mask);
    var n := |mask|;
    var f := Assemble(a, next, mask, scif, sivarf, sol, err);
    CountAllTrue(ok[..next]);
    CompressAllTrue(a[..next], ok[..next]);
    CountSplit(ok, next, |ok|);
    assert ok[..|ok|] == ok && ok[next..|ok|] == ok[next..];
    ScatterAsWrittenAgrees(ok, sol, next);
    ScatterAsWrittenAgrees(ok, err, next);
    KeptWidths(a, ok, n);
    var background := LessPedestal(ComputeModel(sol[..next], a[..next], n));
    var full := ComputeModel(sol[next..], Compress(a, ok)[next..], n);
    assert f.background == background by {
      AssembleBackground(a, next, mask, scif, sivarf, sol, err);
    }
    assert f.full == full by {
      AssembleFull(a, next, mask, scif, sivarf, sol, err);
      KeptSplit(a, ok, next);
      assert Compress(a, ok)[next..] == Compress(a[next..], ok[next..]);
    }
    assert AssembleAsWritten(a, next, mask, scif, sivarf, sol, err)
        == Some(FitResult(Chi2(scif, full, background, sivarf, mask), background, full,
                          Scatter(ok, sol, next, |a|), Scatter(ok, err, next, |a|),
                          FullDefined(sivarf, Count(ok[next..]))));
  }

  /**
   * One background row dropped: rows `[bg, t0, t1]` = `[[1, 0], [0, 1],
   * [0, 2]]`, `Next = 1`, only the second pixel fitted, so the background
   * row is dropped and the solver returns `[x, y]` for `t0, t1`. As
   * written, `x` becomes the background level, `y` is broadcast to both
   * templates and the template model is `2y`; the kept rows' own model is
   * `x + 2y` with coefficients `[x, y]` and no background.
   */
  lemma {:induction false} AssembleMisaligned(x: real, y: real)
    ensures var a, mask := [[1.0, 0.0], [0.0, 1.0], [0.0, 2.0]], [false, true];
      OkRows(a, mask) == [false, true, true] && Count(OkRows(a, mask)) == 2
      && var w := AssembleAsWritten(a, 1, mask, [0.0, 0.0], [1.0, 1.0], [x, y], [0.0, 0.0]);
         var f := Assemble(a, 1, mask, [0.0, 0.0], [1.0, 1.0], [x, y], [0.0, 0.0]);
         w.Some? && w.value.coeffs == [y, y] && w.value.background == [x - Pedestal, -Pedestal]
         && w.value.full == [0.0, 2.0 * y]
         && f.coeffs == [x, y] && f.background == [-Pedestal, -Pedestal] && f.full == [0.0, x + 2.0 * y]
  {
    MisalignedKept();
    MisalignedAsWritten(x, y);
    MisalignedCorrected(x, y);
  }

  /** The rows kept in the example with the background row dropped. */
  lemma {:induction false} MisalignedKept()
    ensures var a, mask := [[1.0, 0.0], [0.0, 1.0], [0.0, 2.0]], [false, true];
      OkRows(a, mask) == [false, true, true] && Count(OkRows(a, mask)) == 2
      && Compress(a, OkRows(a, mask)) == [[0.0, 1.0], [0.0, 2.0]]
  {
    var a, mask := [[1.0, 0.0], [0.0, 1.0], [0.0, 2.0]], [false, true];
    assert a[0][..1] == [1.0] && a[1][..1] == [0.0] && a[2][..1] == [0.0] && mask[..1] == [false];
    assert MaskedSum(a[0], mask) == 0.0 && MaskedSum(a[1], mask) == 1.0 && MaskedSum(a[2], mask) == 2.0;
    var ok := OkRows(a, mask);
    assert ok == [false, true, true];
    ScatterMisaligned(0.0, 0.0);
    assert a[1..] == [[0.0, 1.0], [0.0, 2.0]] && ok[1..] == [true, true];
    CompressAllTrue(a[1..], ok[1..]);
    KeptSplit(a, ok, 1);
    assert ok[..1] == [false] && a[..1] == [[1.0, 0.0]];
    assert Compress([[1.0, 0.0]], [false]) == [];
  }

  /** The example's fit as written. */
  lemma {:induction false} MisalignedAsWritten(x: real, y: real)
    ensures var a, mask := [[1.0, 0.0], [0.0, 1.0], [0.0, 2.0]], [false, true];
      Count(OkRows(a, mask)) == 2
      && var w := AssembleAsWritten(a, 1, mask, [0.0, 0.0], [1.0, 1.0], [x, y], [0.0, 0.0]);
         w.Some? && w.value.coeffs == [y, y] && w.value.background == [x - Pedestal, -Pedestal]
         && w.value.full == [0.0, 2.0 * y]
  {
    var a, mask := [[1.0, 0.0], [0.0, 1.0], [0.0, 2.0]], [false, true];
    var sol := [x, y];
    MisalignedKept();
    var ok := OkRows(a, mask);
    ScatterMisaligned(x, y);
    ScatterMisaligned(0.0, 0.0);
    var bgw := ComputeModel([x], [[1.0, 0.0]], 2);
    assert bgw == [x, 0.0] by {
      assert Column([[1.0, 0.0]], 0) == [1.0] && Column([[1.0, 0.0]], 1) == [0.0];
      assert [x][..0] == [] && [1.0][..0] == [] && [0.0][..0] == [];
      assert bgw[0] == Dot([x], [1.0]) == x && bgw[1] == Dot([x], [0.0]) == 0.0;
    }
    var fw := ComputeModel([y], [[0.0, 2.0]], 2);
    assert fw == [0.0, 2.0 * y] by {
      assert Column([[0.0, 2.0]], 0) == [0.0] && Column([[0.0, 2.0]], 1) == [2.0];
      assert [y][..0] == [] && [0.0][..0] == [] && [2.0][..0] == [];
      assert fw[0] == Dot([y], [0.0]) == 0.0 && fw[1] == Dot([y], [2.0]) == 2.0 * y;
    }
    assert Compress(a, ok)[1..] == [[0.0, 2.0]] && sol[1..] == [y] && sol[..1] == [x] && a[..1] == [[1.0, 0.0]];
  }

  /** The example's fit by the kept rows' own coefficients. */
  lemma {:induction false} MisalignedCorrected(x: real, y: real)
    ensures var a, mask := [[1.0, 0.0], [0.0, 1.0], [0.0, 2.0]], [false, true];
      Count(OkRows(a, mask)) == 2
      && var f := Assemble(a, 1, mask, [0.0, 0.0], [1.0, 1.0], [x, y], [0.0, 0.0]);
         f.coeffs == [x, y] && f.background == [-Pedestal, -Pedestal] && f.full == [0.0, x + 2.0 * y]
  {
    MisalignedKept();
    ScatterMisaligned(x, y);
    MisalignedCorrectedFull(x, y);
    MisalignedCorrectedBackground(x, y);
  }

  /** The example's template model by the kept rows' own coefficients. */
  lemma {:induction false} MisalignedCorrectedFull(x: real, y: real)
    ensures var a, mask := [[1.0, 0.0], [0.0, 1.0], [0.0, 2.0]], [false, true];
      Count(OkRows(a, mask)) == 2
      && Assemble(a, 1, mask, [0.0, 0.0], [1.0, 1.0], [x, y], [0.0, 0.0]).full == [0.0, x + 2.0 * y]
  {
    var a, mask := [[1.0, 0.0], [0.0, 1.0], [0.0, 2.0]], [false, true];
    var sc, sv, sol, err := [0.0, 0.0], [1.0, 1.0], [x, y], [0.0, 0.0];
    MisalignedKept();
    var ok := OkRows(a, mask);
    var kept := [[0.0, 1.0], [0.0, 2.0]];
    assert Assemble(a, 1, mask, sc, sv, sol, err).full == ComputeModel(sol, kept, 2) by {
      AssembleFull(a, 1, mask, sc, sv, sol, err);
      KeptSplit(a, ok, 1);
      assert ok[..1] == [false] && a[..1] == [[1.0, 0.0]];
      assert Compress([[1.0, 0.0]], [false]) == [];
      assert Count(ok[..1]) == 0 && sol[0..] == sol;
    }
    ModelOfKept(x, y);
  }

  /** The kept rows' own model in the example. */
  lemma {:induction false} ModelOfKept(x: real, y: real)
    ensures ComputeModel([x, y], [[0.0, 1.0], [0.0, 2.0]], 2) == [0.0, x + 2.0 * y]
  {
    var sol, kept := [x, y], [[0.0, 1.0], [0.0, 2.0]];
    var m := ComputeModel(sol, kept, 2);
    assert Column(kept, 0) == [0.0, 0.0] && Column(kept, 1) == [1.0, 2.0];
    assert sol[..1] == [x] && [x][..0] == [] && [0.0, 0.0][..1] == [0.0] && [1.0, 2.0][..1] == [1.0];
    assert [0.0][..0] == [] && [1.0][..0] == [];
    assert Dot([x], [0.0]) == 0.0 && Dot([x], [1.0]) == x;
    assert m[0] == Dot(sol, [0.0, 0.0]) == 0.0 && m[1] == Dot(sol, [1.0, 2.0]) == x + 2.0 * y;
  }

  /** The example's background by the kept rows' own coefficients: none, so the pedestal only. */
  lemma {:induction false} MisalignedCorrectedBackground(x: real, y: real)
    ensures var a, mask := [[1.0, 0.0], [0.0, 1.0], [0.0, 2.0]], [false, true];
      Count(OkRows(a, mask)) == 2
      && Assemble(a, 1, mask, [0.0, 0.0], [1.0, 1.0], [x, y], [0.0, 0.0]).background == [-Pedestal, -Pedestal]
  {
    var a, mask := [[1.0, 0.0], [0.0, 1.0], [0.0, 2.0]], [false, true];
    var sc, sv, sol, err := [0.0, 0.0], [1.0, 1.0], [x, y], [0.0, 0.0];
    MisalignedKept();
    var ok := OkRows(a, mask);
    assert Assemble(a, 1, mask, sc, sv, sol, err).background == LessPedestal(ComputeModel([], [], 2)) by {
      AssembleBackground(a, 1, mask, sc, sv, sol, err);
      assert ok[..1] == [false] && a[..1] == [[1.0, 0.0]];
      assert Compress([[1.0, 0.0]], [false]) == [];
      assert Count(ok[..1]) == 0 && sol[..0] == [];
    }
    assert ComputeModel([], [], 2) == [0.0, 0.0];
  }
}
