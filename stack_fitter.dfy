/**
 * `StackFitter`: the joint fit of all drizzled stacks of one object.  The
 * constructor opens the selected stacks, drops those with a degenerate
 * kernel, optionally masks drizzle overlaps, concatenates the per-stack
 * vectors into joint ones and appends the photometry; `fit_at_z` fits a
 * template set at one redshift and `fit_zgrid` scans a redshift grid with
 * six refinement passes.
 */
module Fitter {
  import opened Numerics
  import opened Spectrum
  import opened Assembly
  import opened Coefficients
  import opened Templates
  import opened RedshiftScan

  // ---------------------------------------------------------------------
  // Inputs of the constructor
  // ---------------------------------------------------------------------

  /** The primary header: `GRISMnnn` in order and, per grism, its position angles. */
  datatype PrimaryHeader = PrimaryHeader(grisms: seq<string>, pasOf: seq<seq<string>>)

  /**
   * The catalogue row of the photometric fit: fluxes, errors, pivot
   * wavelengths, the per-filter factor `to_flam*zp*ext_corr` and
   * `NOT_OBS_THRESHOLD`.
   */
  datatype Photometry = Photometry(fnu: seq<real>, efnu: seq<real>, lc: seq<real>, toFlam: seq<real>,
                                   notObsThreshold: real)

  /** One value per filter, and a positive calibration factor for each. */
  predicate PhotometryValid(ph: Photometry)
  {
    |ph.efnu| == |ph.fnu| && |ph.lc| == |ph.fnu| && |ph.toFlam| == |ph.fnu|
    && forall k :: 0 <= k < |ph.fnu| ==> ph.toFlam[k] > 0.0
  }

  /** `ok_phot`: filters with a positive error and a flux above the not-observed threshold. */
  function OkPhot(ph: Photometry): (ok: seq<bool>)
    requires PhotometryValid(ph)
    ensures |ok| == |ph.fnu|
  {
    seq(|ph.fnu|, k requires 0 <= k < |ph.fnu| => ph.efnu[k] > 0.0 && ph.fnu[k] > ph.notObsThreshold)
  }

  /** `v*to_flam*zp*ext_corr/100.`: f-nu to f-lambda in the units of the spectra. */
  function Flam(v: seq<real>, toFlam: seq<real>): (r: seq<real>)
    requires |v| == |toFlam|
    ensures |r| == |v|
  {
    seq(|v|, k requires 0 <= k < |v| => v[k] * toFlam[k] / 100.0)
  }

  /** The f-lambda errors of the kept filters. */
  function PhotErrors(ph: Photometry): (e: seq<real>)
    requires PhotometryValid(ph)
    ensures |e| == Count(OkPhot(ph))
  {
    Compress(Flam(ph.efnu, ph.toFlam), OkPhot(ph))
  }

  /** Every kept filter has a positive f-lambda error. */
  lemma {:induction false} PhotErrorsPositive(ph: Photometry)
    requires PhotometryValid(ph)
    ensures forall k :: 0 <= k < |PhotErrors(ph)| ==> PhotErrors(ph)[k] > 0.0
  {
    var ok := OkPhot(ph);
    var fl := Flam(ph.efnu, ph.toFlam);
    forall k | 0 <= k < |PhotErrors(ph)| ensures PhotErrors(ph)[k] > 0.0 {
      CompressFrom(fl, ok, k);
      var i :| 0 <= i < |fl| && ok[i] && PhotErrors(ph)[k] == fl[i];
      PositiveProduct(ph.efnu[i], ph.toFlam[i]);
    }
  }

  lemma {:induction false} PositiveProduct(a: real, b: real)
    requires a > 0.0 && b > 0.0
    ensures a * b / 100.0 > 0.0
  {
  }

  /** `1/eflam**2` and `1/eflam` of positive errors. */
  function InverseSquares(e: seq<real>): (r: seq<real>)
    requires forall k :: 0 <= k < |e| ==> e[k] > 0.0
    ensures |r| == |e|
  {
    seq(|e|, k requires 0 <= k < |e| => 1.0 / (e[k] * e[k]))
  }

  function Inverses(e: seq<real>): (r: seq<real>)
    requires forall k :: 0 <= k < |e| ==> e[k] > 0.0
    ensures |r| == |e|
  {
    seq(|e|, k requires 0 <= k < |e| => 1.0 / e[k])
  }

  // ---------------------------------------------------------------------
  // Opening the stacks
  // ---------------------------------------------------------------------

  /** Every selected extension is present in the file and well formed. */
  predicate Readable(ext: seq<string>, hdus: map<string, StackHdu>)
  {
    forall i :: 0 <= i < |ext| ==> ext[i] in hdus && HduValid(hdus[ext[i]])
  }

  /** `np.isfinite(E_i.kernel.sum())`: the normalised kernel of each selected extension exists. */
  function KernelOk(ext: seq<string>, hdus: map<string, StackHdu>): (ok: seq<bool>)
    requires Readable(ext, hdus)
    ensures |ok| == |ext|
    ensures forall i :: 0 <= i < |ext| ==> (ok[i] <==> NormaliseKernel(hdus[ext[i]].kernel).Some?)
  {
    seq(|ext|, i requires 0 <= i < |ext| => NormaliseKernel(hdus[ext[i]].kernel).Some?)
  }

  /** The number of pixels of an extension. */
  function Area(h: StackHdu): nat
  {
    h.naxis2 * h.naxis1
  }

  /**
   * The extensions of one grism have the same number of pixels, as the
   * drizzle-overlap mask combines them pixel by pixel.
   */
  predicate GrismShapes(grisms: seq<string>, ext: seq<string>, hdus: map<string, StackHdu>)
  {
    forall g, e1, e2 ::
      (g in grisms && e1 in ext && e2 in ext && e1 in hdus && e2 in hdus
       && StartsWith(e1, g) && StartsWith(e2, g)) ==> Area(hdus[e1]) == Area(hdus[e2])
  }

  /** `extver.startswith(grism)`. */
  predicate StartsWith(s: string, prefix: string)
  {
    |prefix| <= |s| && s[..|prefix|] == prefix
  }

  function Extvers(es: seq<StackedSpectrum>): (r: seq<string>)
    ensures |r| == |es| && forall k :: 0 <= k < |es| ==> r[k] == es[k].extver
  {
    seq(|es|, k requires 0 <= k < |es| => es[k].extver)
  }

  ghost predicate AllValid(es: seq<StackedSpectrum>)
  {
    forall k :: 0 <= k < |es| ==> es[k].Valid()
  }

  /** Each stack owns its fit mask: no two share the array. */
  predicate Distinct(es: seq<StackedSpectrum>)
  {
    forall k1, k2 :: 0 <= k1 < |es| && 0 <= k2 < |es| && k1 != k2 ==> es[k1].fitMask != es[k2].fitMask
  }

  /** The fit mask a freshly opened stack starts with. */
  function BuiltMask(e: StackedSpectrum, minIvar: real, maskMin: real): (m: seq<bool>)
    requires e.Valid()
    ensures |m| == e.size
  {
    And(IvarMask(e.ivarf, minIvar), ProfileMask(Electrons(e.flat, e.ivarf0, e.isFlambda), e.kernel.Some?, e.size, maskMin))
  }

  /** The current fit masks of the stacks. */
  function MaskContents(es: seq<StackedSpectrum>): (ms: seq<seq<bool>>)
    reads set k | 0 <= k < |es| :: es[k].fitMask
    ensures |ms| == |es| && forall k :: 0 <= k < |es| ==> ms[k] == es[k].fitMask[..]
  {
    seq(|es|, k requires 0 <= k < |es| reads set k' | 0 <= k' < |es| :: es[k'].fitMask => es[k].fitMask[..])
  }

  /** Stack `e` was opened from its extension of the file and kept. */
  ghost predicate Opened(e: StackedSpectrum, ext: seq<string>, hdus: map<string, StackHdu>)
  {
    e.Valid() && e.kernel.Some?
    && e.extver in ext && e.extver in hdus && e.size == Area(hdus[e.extver])
  }

  /** The stacks kept so far: each opened from the file with its own, freshly built fit mask. */
  ghost predicate Kept(es: seq<StackedSpectrum>, ext: seq<string>, hdus: map<string, StackHdu>, minIvar: real, maskMin: real)
    reads set k | 0 <= k < |es| :: es[k].fitMask
  {
    Distinct(es)
    && (forall k :: 0 <= k < |es| ==> Opened(es[k], ext, hdus))
    && (forall k :: 0 <= k < |es| ==> es[k].fitMask[..] == BuiltMask(es[k], minIvar, maskMin))
  }

  /** A newly opened stack with its own mask joins the kept ones. */
  lemma {:induction false} KeepOne(es: seq<StackedSpectrum>, e: StackedSpectrum, ext: seq<string>, hdus: map<string, StackHdu>,
                minIvar: real, maskMin: real)
    requires Kept(es, ext, hdus, minIvar, maskMin) && Opened(e, ext, hdus)
    requires e.fitMask[..] == BuiltMask(e, minIvar, maskMin)
    requires forall k :: 0 <= k < |es| ==> es[k].fitMask != e.fitMask
    ensures Kept(es + [e], ext, hdus, minIvar, maskMin)
  {
    var es' := es + [e];
    assert forall k :: 0 <= k < |es| ==> es'[k] == es[k];
    assert es'[|es|] == e;
    assert Distinct(es') by {
      forall k1, k2 | 0 <= k1 < |es'| && 0 <= k2 < |es'| && k1 != k2 ensures es'[k1].fitMask != es'[k2].fitMask {
      }
    }
    assert forall k :: 0 <= k < |es'| ==> Opened(es'[k], ext, hdus) by {
      forall k | 0 <= k < |es'| ensures Opened(es'[k], ext, hdus) {
      }
    }
    assert forall k :: 0 <= k < |es'| ==> es'[k].fitMask[..] == BuiltMask(es'[k], minIvar, maskMin) by {
      forall k | 0 <= k < |es'| ensures es'[k].fitMask[..] == BuiltMask(es'[k], minIvar, maskMin) {
      }
    }
  }

  /** One step of the loop: the kept extension names and the popped indices grow with index `i`. */
  lemma {:induction false} OpenStep(es: seq<StackedSpectrum>, e: StackedSpectrum, ext: seq<string>, ok: seq<bool>, i: nat)
    requires i < |ext| == |ok| && e.extver == ext[i]
    requires Extvers(es) == Compress(ext[..i], ok[..i])
    ensures ok[i] ==> Extvers(es + [e]) == Compress(ext[..i + 1], ok[..i + 1])
    ensures !ok[i] ==> Extvers(es) == Compress(ext[..i + 1], ok[..i + 1])
    ensures Dropped(ok[..i + 1]) == Dropped(ok[..i]) + (if ok[i] then [] else [i])
  {
    assert ext[..i + 1][..i] == ext[..i] && ok[..i + 1][..i] == ok[..i];
  }

  /** `StackedSpectrum(file, extver=...)` for one selected extension. */
  method OpenStack(extver: string, h: StackHdu, sysErr: real, maskMin: real, fcontam: real, minIvar: real,
                   sqrt: real -> real, exp: real -> real)
    returns (e: StackedSpectrum)
    requires HduValid(h) && PositiveExp(exp)
    ensures fresh(e.fitMask) && e.Valid()
    ensures e.extver == extver && e.size == Area(h) && e.kernel == NormaliseKernel(h.kernel)
    ensures e.fitMask[..] == BuiltMask(e, minIvar, maskMin)
  {
    e := new StackedSpectrum(extver, h, sysErr, maskMin, fcontam, minIvar, sqrt, exp);
  }

  /** The state of the loop of `OpenStacks` after the first `i` extensions. */
  ghost predicate Progress(es: seq<StackedSpectrum>, pop: seq<nat>, ext: seq<string>, hdus: map<string, StackHdu>,
                           ok: seq<bool>, i: nat, minIvar: real, maskMin: real)
    reads set k | 0 <= k < |es| :: es[k].fitMask
  {
    i <= |ext| == |ok|
    && Extvers(es) == Compress(ext[..i], ok[..i]) && pop == Dropped(ok[..i])
    && Kept(es, ext, hdus, minIvar, maskMin)
  }

  /** Extension `i` opened as `e`: kept when its kernel is usable, its index popped otherwise. */
  lemma {:induction false} ProgressStep(es: seq<StackedSpectrum>, pop: seq<nat>, e: StackedSpectrum, ext: seq<string>,
                                        hdus: map<string, StackHdu>, ok: seq<bool>, i: nat, minIvar: real, maskMin: real)
    requires Progress(es, pop, ext, hdus, ok, i, minIvar, maskMin) && i < |ext| && e.extver == ext[i]
    requires ok[i] ==> Opened(e, ext, hdus) && e.fitMask[..] == BuiltMask(e, minIvar, maskMin)
    requires ok[i] ==> forall k :: 0 <= k < |es| ==> es[k].fitMask != e.fitMask
    ensures ok[i] ==> Progress(es + [e], pop, ext, hdus, ok, i + 1, minIvar, maskMin)
    ensures !ok[i] ==> Progress(es, pop + [i], ext, hdus, ok, i + 1, minIvar, maskMin)
  {
    OpenStep(es, e, ext, ok, i);
    if ok[i] {
      KeepOne(es, e, ext, hdus, minIvar, maskMin);
    }
  }

  /**
   * The loop over the selected extensions: each is opened as a
   * `StackedSpectrum`; those whose kernel is degenerate are not kept and
   * their indices are listed in `pop`, in increasing order.
   */
  method OpenStacks(ext: seq<string>, hdus: map<string, StackHdu>, sysErr: real, maskMin: real, fcontam: real,
                    minIvar: real, sqrt: real -> real, exp: real -> real)
    returns (es: seq<StackedSpectrum>, pop: seq<nat>)
    requires Readable(ext, hdus) && PositiveExp(exp)
    ensures Extvers(es) == Compress(ext, KernelOk(ext, hdus)) && pop == Dropped(KernelOk(ext, hdus))
    ensures forall k :: 0 <= k < |es| ==> fresh(es[k].fitMask)
    ensures Kept(es, ext, hdus, minIvar, maskMin)
  {
    ghost var ok := KernelOk(ext, hdus);
    es, pop := [], [];
    for i := 0 to |ext|
      invariant Progress(es, pop, ext, hdus, ok, i, minIvar, maskMin)
      invariant forall k :: 0 <= k < |es| ==> fresh(es[k].fitMask)
    {
      var before := es;
      es, pop := OpenNext(es, pop, ext, hdus, sysErr, maskMin, fcontam, minIvar, sqrt, exp, i, ok);
      forall k | 0 <= k < |es| ensures fresh(es[k].fitMask) {
        if k < |before| {
          assert es[k] == before[k];
        }
      }
    }
    assert ext[..|ext|] == ext && ok[..|ok|] == ok;
  }

  /** One pass of the loop of `OpenStacks`: extension `i` opened, then kept or its index popped. */
  method OpenNext(es: seq<StackedSpectrum>, pop: seq<nat>, ext: seq<string>, hdus: map<string, StackHdu>, sysErr: real,
                  maskMin: real, fcontam: real, minIvar: real, sqrt: real -> real, exp: real -> real, i: nat,
                  ghost ok: seq<bool>)
    returns (es': seq<StackedSpectrum>, pop': seq<nat>)
    requires Readable(ext, hdus) && PositiveExp(exp) && i < |ext| && ok == KernelOk(ext, hdus)
    requires Progress(es, pop, ext, hdus, ok, i, minIvar, maskMin)
    ensures Progress(es', pop', ext, hdus, ok, i + 1, minIvar, maskMin)
    ensures |es| <= |es'| <= |es| + 1 && es'[..|es|] == es
    ensures |es'| > |es| ==> fresh(es'[|es|].fitMask)
  {
    var e := OpenStack(ext[i], hdus[ext[i]], sysErr, maskMin, fcontam, minIvar, sqrt, exp);
    assert forall k :: 0 <= k < |es| ==> es[k].fitMask != e.fitMask;
    ProgressStep(es, pop, e, ext, hdus, ok, i, minIvar, maskMin);
    if e.kernel.Some? {
      es', pop' := es + [e], pop;
    } else {
      es', pop' := es, pop + [i];
    }
  }

  // ---------------------------------------------------------------------
  // mask_drizzle_overlaps
  // ---------------------------------------------------------------------

  /** The stacks of grism `g` have one shape. */
  predicate SameShapeFor(g: string, es: seq<StackedSpectrum>)
  {
    forall k1, k2 :: 0 <= k1 < |es| && 0 <= k2 < |es| && StartsWith(es[k1].extver, g) && StartsWith(es[k2].extver, g)
                     ==> |es[k1].scif| == |es[k2].scif|
  }

  /** One mask per stack, of the stack's shape. */
  predicate MasksFit(es: seq<StackedSpectrum>, masks: seq<seq<bool>>)
  {
    |masks| == |es| && forall k :: 0 <= k < |es| ==> |masks[k]| == |es[k].scif|
  }

  /** Each running minimum has the shape of the stacks of its grism. */
  predicate Shaped(d: map<string, seq<real>>, es: seq<StackedSpectrum>)
  {
    forall g, k :: g in d && 0 <= k < |es| && StartsWith(es[k].extver, g) ==> |d[g]| == |es[k].scif|
  }

  /** `E.scif*E.fit_mask`. */
  function Masked(scif: seq<real>, m: seq<bool>): (r: seq<real>)
    requires |m| == |scif|
    ensures |r| == |scif|
  {
    seq(|scif|, p requires 0 <= p < |scif| => if m[p] then scif[p] else 0.0)
  }

  /**
   * One more stack folded into its grism's running minimum: on the stack's
   * fitted pixels the smaller value, except where the minimum is still zero
   * (`empty`), which takes the stack's flux.
   */
  function MinStep(cur: seq<real>, scif: seq<real>, m: seq<bool>): (r: seq<real>)
    requires |cur| == |scif| == |m|
    ensures |r| == |cur|
  {
    seq(|cur|, p requires 0 <= p < |cur| =>
      if !m[p] then cur[p]
      else if cur[p] == 0.0 then scif[p]
      else if scif[p] < cur[p] then scif[p] else cur[p])
  }

  /** The inner loop of the first pass for grism `g` over the first `j` stacks. */
  function MinPass(d: map<string, seq<real>>, g: string, es: seq<StackedSpectrum>, masks: seq<seq<bool>>,
                   j: nat): (r: map<string, seq<real>>)
    requires j <= |es| && MasksFit(es, masks) && SameShapeFor(g, es) && Shaped(d, es)
    ensures Shaped(r, es)
    ensures forall h :: h in d ==> h in r
    decreases j
  {
    if j == 0 then d
    else
      var prev := MinPass(d, g, es, masks, j - 1);
      var e := es[j - 1];
      if !StartsWith(e.extver, g) then prev
      else if g !in prev then prev[g := Masked(e.scif, masks[j - 1])]
      else prev[g := MinStep(prev[g], e.scif, masks[j - 1])]
  }

  /** `min_grism` after the first pass over the grisms `gs`. */
  function MinDict(gs: seq<string>, es: seq<StackedSpectrum>, masks: seq<seq<bool>>): (d: map<string, seq<real>>)
    requires MasksFit(es, masks) && forall i :: 0 <= i < |gs| ==> SameShapeFor(gs[i], es)
    ensures Shaped(d, es)
    decreases |gs|
  {
    if |gs| == 0 then map[]
    else MinPass(MinDict(gs[..|gs| - 1], es, masks), gs[|gs| - 1], es, masks, |es|)
  }

  /** A running minimum exists for every grism with a stack among the first `j`. */
  lemma {:induction false} MinPassHas(d: map<string, seq<real>>, g: string, es: seq<StackedSpectrum>,
                                      masks: seq<seq<bool>>, j: nat, k: nat)
    requires j <= |es| && MasksFit(es, masks) && SameShapeFor(g, es) && Shaped(d, es)
    requires k < j && StartsWith(es[k].extver, g)
    ensures g in MinPass(d, g, es, masks, j)
    decreases j
  {
    if k < j - 1 {
      MinPassHas(d, g, es, masks, j - 1, k);
    }
  }

  /** After the first pass, every listed grism that has a stack has its running minimum. */
  lemma {:induction false} MinDictHas(gs: seq<string>, es: seq<StackedSpectrum>, masks: seq<seq<bool>>, i: nat, k: nat)
    requires MasksFit(es, masks) && forall i' :: 0 <= i' < |gs| ==> SameShapeFor(gs[i'], es)
    requires i < |gs| && k < |es| && StartsWith(es[k].extver, gs[i])
    ensures gs[i] in MinDict(gs, es, masks)
    decreases |gs|
  {
    var n := |gs| - 1;
    if i < n {
      MinDictHas(gs[..n], es, masks, i, k);
    } else {
      MinPassHas(MinDict(gs[..n], es, masks), gs[n], es, masks, |es|, k);
    }
  }

  /**
   * `new_mask = (E.scif - min_grism[grism]) < threshold/E.sivarf`.  Where
   * `sivarf` is zero the quotient is an infinity of the threshold's sign
   * (not a number for a zero threshold), so the test holds exactly when the
   * threshold is positive.
   */
  function OverlapMask(scif: seq<real>, minv: seq<real>, sivarf: seq<real>, threshold: real): (m: seq<bool>)
    requires |minv| == |scif| == |sivarf|
    ensures |m| == |scif|
  {
    seq(|scif|, p requires 0 <= p < |scif| =>
      if sivarf[p] == 0.0 then threshold > 0.0 else scif[p] - minv[p] < threshold / sivarf[p])
  }

  /** The running minimum of every grism of `gs` that stack `e` belongs to exists, with the stack's shape. */
  predicate Ready(gs: seq<string>, d: map<string, seq<real>>, e: StackedSpectrum)
  {
    forall i :: 0 <= i < |gs| && StartsWith(e.extver, gs[i]) ==> gs[i] in d && |d[gs[i]]| == |e.scif|
  }

  /** The fit mask of stack `e` after the second pass over the grisms `gs`. */
  function Narrowed(gs: seq<string>, d: map<string, seq<real>>, e: StackedSpectrum, m0: seq<bool>,
                    threshold: real): (m: seq<bool>)
    requires |m0| == |e.scif| == |e.sivarf| && Ready(gs, d, e)
    ensures |m| == |m0|
    decreases |gs|
  {
    if |gs| == 0 then m0
    else
      var n := |gs| - 1;
      assert Ready(gs[..n], d, e) by {
        forall i | 0 <= i < n ensures gs[..n][i] == gs[i] { }
      }
      var m := Narrowed(gs[..n], d, e, m0, threshold);
      if StartsWith(e.extver, gs[n]) then And(m, OverlapMask(e.scif, d[gs[n]], e.sivarf, threshold)) else m
  }

  /** The overlap masking only ever removes pixels from a stack's fit mask. */
  lemma {:induction false} NarrowedNarrows(gs: seq<string>, d: map<string, seq<real>>, e: StackedSpectrum,
                                           m0: seq<bool>, threshold: real)
    requires |m0| == |e.scif| == |e.sivarf| && Ready(gs, d, e)
    ensures Narrower(Narrowed(gs, d, e, m0, threshold), m0)
    decreases |gs|
  {
    if |gs| > 0 {
      var n := |gs| - 1;
      assert Ready(gs[..n], d, e) by {
        forall i | 0 <= i < n ensures gs[..n][i] == gs[i] { }
      }
      NarrowedNarrows(gs[..n], d, e, m0, threshold);
    }
  }

  /**
   * With a positive threshold, a fitted pixel where the stack is itself at
   * (or below) the minimum of each of its grisms stays fitted: only pixels
   * brighter than the minimum by the threshold in units of the stack's
   * uncertainty are removed.
   */
  lemma {:induction false} NarrowedKeepsMinimum(gs: seq<string>, d: map<string, seq<real>>, e: StackedSpectrum,
                                                m0: seq<bool>, threshold: real, p: nat)
    requires |m0| == |e.scif| == |e.sivarf| && Ready(gs, d, e)
    requires threshold > 0.0 && p < |m0| && m0[p] && e.sivarf[p] >= 0.0
    requires forall i :: 0 <= i < |gs| && StartsWith(e.extver, gs[i]) ==> e.scif[p] <= d[gs[i]][p]
    ensures Narrowed(gs, d, e, m0, threshold)[p]
    decreases |gs|
  {
    if |gs| > 0 {
      var n := |gs| - 1;
      assert Ready(gs[..n], d, e) by {
        forall i | 0 <= i < n ensures gs[..n][i] == gs[i] { }
      }
      assert forall i :: 0 <= i < n && StartsWith(e.extver, gs[..n][i]) ==> e.scif[p] <= d[gs[..n][i]][p];
      NarrowedKeepsMinimum(gs[..n], d, e, m0, threshold, p);
      if StartsWith(e.extver, gs[n]) && e.sivarf[p] != 0.0 {
        PositiveQuotient(threshold, e.sivarf[p]);
      }
    }
  }

  lemma {:induction false} PositiveQuotient(a: real, b: real)
    requires a > 0.0 && b > 0.0
    ensures a / b > 0.0
  {
  }

  /** The first pass for grism `g`: fold each of its stacks into the running minimum. */
  method MinGrismPass(d0: map<string, seq<real>>, g: string, es: seq<StackedSpectrum>) returns (d: map<string, seq<real>>)
    requires MasksFit(es, MaskContents(es)) && SameShapeFor(g, es) && Shaped(d0, es)
    ensures d == MinPass(d0, g, es, MaskContents(es), |es|)
  {
    ghost var masks := MaskContents(es);
    d := d0;
    for k := 0 to |es|
      invariant d == MinPass(d0, g, es, masks, k)
    {
      var e := es[k];
      if StartsWith(e.extver, g) {
        if g !in d {
          d := d[g := Masked(e.scif, e.fitMask[..])];
        } else {
          d := d[g := MinStep(d[g], e.scif, e.fitMask[..])];
        }
      }
    }
  }

  /** The first pass of `mask_drizzle_overlaps`: `min_grism`. */
  method MinGrism(grisms: seq<string>, es: seq<StackedSpectrum>) returns (d: map<string, seq<real>>)
    requires MasksFit(es, MaskContents(es)) && forall i :: 0 <= i < |grisms| ==> SameShapeFor(grisms[i], es)
    ensures d == MinDict(grisms, es, MaskContents(es))
  {
    d := map[];
    for gi := 0 to |grisms|
      invariant d == MinDict(grisms[..gi], es, MaskContents(es))
    {
      d := MinGrismPass(d, grisms[gi], es);
      assert grisms[..gi + 1][..gi] == grisms[..gi];
    }
    assert grisms[..|grisms|] == grisms;
  }

  /** The second pass for grism `gs[n]`: narrow the fit mask of each of its stacks. */
  method NarrowGrism(gs: seq<string>, n: nat, es: seq<StackedSpectrum>, d: map<string, seq<real>>,
                     ghost masks: seq<seq<bool>>, threshold: real)
    requires n < |gs| && AllValid(es) && Distinct(es) && MasksFit(es, masks)
    requires forall k :: 0 <= k < |es| ==> Ready(gs, d, es[k]) && Ready(gs[..n], d, es[k]) && Ready(gs[..n + 1], d, es[k])
    requires forall k :: 0 <= k < |es| ==> es[k].fitMask[..] == Narrowed(gs[..n], d, es[k], masks[k], threshold)
    modifies set k | 0 <= k < |es| :: es[k].fitMask
    ensures forall k :: 0 <= k < |es| ==> es[k].fitMask[..] == Narrowed(gs[..n + 1], d, es[k], masks[k], threshold)
  {
    var g := gs[n];
    assert gs[..n + 1][..n] == gs[..n];
    for k := 0 to |es|
      invariant forall k' :: 0 <= k' < k ==> es[k'].fitMask[..] == Narrowed(gs[..n + 1], d, es[k'], masks[k'], threshold)
      invariant forall k' :: k <= k' < |es| ==> es[k'].fitMask[..] == Narrowed(gs[..n], d, es[k'], masks[k'], threshold)
    {
      var e := es[k];
      if StartsWith(e.extver, g) {
        NarrowInPlace(e.fitMask, OverlapMask(e.scif, d[g], e.sivarf, threshold));
      }
    }
  }

  /** Readiness for all grisms carries over to a prefix of them. */
  lemma {:induction false} ReadyPrefix(gs: seq<string>, n: nat, d: map<string, seq<real>>, e: StackedSpectrum)
    requires n <= |gs| && Ready(gs, d, e)
    ensures Ready(gs[..n], d, e)
  {
    forall i | 0 <= i < n ensures gs[..n][i] == gs[i] { }
  }

  /**
   * `mask_drizzle_overlaps`: a first pass builds, per grism, the running
   * minimum of the stacks' masked fluxes; a second pass removes from each
   * stack's fit mask the pixels brighter than its grism's minimum by more
   * than `threshold` times the pixel uncertainty.
   */
  method MaskDrizzleOverlaps(grisms: seq<string>, es: seq<StackedSpectrum>, threshold: real)
    requires AllValid(es) && Distinct(es)
    requires forall i :: 0 <= i < |grisms| ==> SameShapeFor(grisms[i], es)
    modifies set k | 0 <= k < |es| :: es[k].fitMask
    ensures MasksFit(es, old(MaskContents(es)))
    ensures forall k :: 0 <= k < |es| ==> Ready(grisms, MinDict(grisms, es, old(MaskContents(es))), es[k])
    ensures forall k :: 0 <= k < |es| ==>
      es[k].fitMask[..] == Narrowed(grisms, MinDict(grisms, es, old(MaskContents(es))), es[k], old(es[k].fitMask[..]), threshold)
  {
    ghost var masks := MaskContents(es);
    var minGrism := MinGrism(grisms, es);
    forall k | 0 <= k < |es| ensures Ready(grisms, minGrism, es[k]) {
      forall i | 0 <= i < |grisms| && StartsWith(es[k].extver, grisms[i]) ensures grisms[i] in minGrism {
        MinDictHas(grisms, es, masks, i, k);
      }
    }
    forall k | 0 <= k < |es| ensures Ready(grisms[..0], minGrism, es[k]) {
      ReadyPrefix(grisms, 0, minGrism, es[k]);
    }
    for gi := 0 to |grisms|
      invariant forall k :: 0 <= k < |es| ==> Ready(grisms[..gi], minGrism, es[k])
      invariant forall k :: 0 <= k < |es| ==>
        es[k].fitMask[..] == Narrowed(grisms[..gi], minGrism, es[k], masks[k], threshold)
    {
      forall k | 0 <= k < |es| ensures Ready(grisms[..gi + 1], minGrism, es[k]) {
        ReadyPrefix(grisms, gi + 1, minGrism, es[k]);
      }
      NarrowGrism(grisms, gi, es, minGrism, masks, threshold);
    }
    assert grisms[..|grisms|] == grisms;
  }

  // ---------------------------------------------------------------------
  // Joint vectors
  // ---------------------------------------------------------------------

  /** `[E.size for E in self.E]`. */
  function Sizes(es: seq<StackedSpectrum>): (s: seq<nat>)
    ensures |s| == |es| && forall k :: 0 <= k < |es| ==> s[k] == es[k].size
  {
    seq(|es|, k requires 0 <= k < |es| => es[k].size)
  }

  function Scifs(es: seq<StackedSpectrum>): (v: seq<seq<real>>)
    ensures |v| == |es| && forall k :: 0 <= k < |es| ==> v[k] == es[k].scif
  {
    seq(|es|, k requires 0 <= k < |es| => es[k].scif)
  }

  function Ivarfs(es: seq<StackedSpectrum>): (v: seq<seq<real>>)
    ensures |v| == |es| && forall k :: 0 <= k < |es| ==> v[k] == es[k].ivarf
  {
    seq(|es|, k requires 0 <= k < |es| => es[k].ivarf)
  }

  function Wavefs(es: seq<StackedSpectrum>): (v: seq<seq<real>>)
    ensures |v| == |es| && forall k :: 0 <= k < |es| ==> v[k] == es[k].wavef
  {
    seq(|es|, k requires 0 <= k < |es| => es[k].wavef)
  }

  function Weightfs(es: seq<StackedSpectrum>): (v: seq<seq<real>>)
    ensures |v| == |es| && forall k :: 0 <= k < |es| ==> v[k] == es[k].weightf
  {
    seq(|es|, k requires 0 <= k < |es| => es[k].weightf)
  }

  /** Parts of the given sizes concatenate to a vector of the total size. */
  lemma {:induction false} ConcatSized<T>(parts: seq<seq<T>>, sizes: seq<nat>)
    requires |parts| == |sizes| && forall k :: 0 <= k < |parts| ==> |parts[k]| == sizes[k]
    ensures |Concat(parts)| == Total(sizes)
  {
    ConcatLength(parts);
    assert Lengths(parts) == sizes;
  }

  /** Concatenating positive parts gives a positive vector. */
  lemma {:induction false} ConcatPositive(parts: seq<seq<real>>)
    requires forall k, t :: 0 <= k < |parts| && 0 <= t < |parts[k]| ==> parts[k][t] > 0.0
    ensures forall p :: 0 <= p < |Concat(parts)| ==> Concat(parts)[p] > 0.0
    decreases |parts|
  {
    if |parts| > 0 {
      ConcatPositive(parts[..|parts| - 1]);
    }
  }

  /** Concatenating parts that are zero everywhere gives a zero vector. */
  lemma {:induction false} ConcatZero(parts: seq<seq<real>>)
    requires forall k, t :: 0 <= k < |parts| && 0 <= t < |parts[k]| ==> parts[k][t] == 0.0
    ensures forall p :: 0 <= p < |Concat(parts)| ==> Concat(parts)[p] == 0.0
    decreases |parts|
  {
    if |parts| > 0 {
      ConcatZero(parts[..|parts| - 1]);
    }
  }

  /** The total of positive sizes, at least one, is positive. */
  lemma {:induction false} TotalPositive(sizes: seq<nat>)
    requires |sizes| > 0 && sizes[|sizes| - 1] > 0
    ensures Total(sizes) > 0
  {
  }

  /** A mask of `n` true entries (`np.ones(n, dtype=bool)`). */
  function Trues(n: nat): (m: seq<bool>)
    ensures |m| == n && forall i :: 0 <= i < n ==> m[i]
  {
    seq(n, i => true)
  }

  // ---------------------------------------------------------------------
  // The design matrix of fit_at_z
  // ---------------------------------------------------------------------

  /**
   * `[ti.wave*(1+z), ti.flux/(1+z)*igmz]` with `igmz = 1`: the template
   * moved to redshift `z`.
   */
  function Redshifted(t: Template, z: real): (s: Spectrum1D)
    requires 1.0 + z != 0.0
    ensures |s.wave| == |t.wave| && |s.flux| == |t.flux|
    ensures forall i :: 0 <= i < |t.wave| ==> s.wave[i] == t.wave[i] * (1.0 + z)
    ensures forall i :: 0 <= i < |t.flux| ==> s.flux[i] == t.flux[i] / (1.0 + z)
  {
    Spectrum1D(Scale(t.wave, 1.0 + z), Scale(t.flux, 1.0 / (1.0 + z)))
  }

  /**
   * The template reaches the covered range `[lo, hi]` of a stack: it does
   * not start above `hi` nor end below `lo`.
   */
  predicate Reaches(s: Spectrum1D, range: (real, real))
    requires |s.wave| > 0
  {
    !(s.wave[0] > range.1 || s.wave[|s.wave| - 1] < range.0)
  }

  /** The part of a template row on stack `e`: its 2D model, or zeros when the template misses the stack. */
  function TemplatePart(e: StackedSpectrum, s: Spectrum1D,
                        resample: (seq<real>, seq<real>, seq<real>) -> seq<real>): (part: seq<real>)
    requires e.Valid() && OnGrid(resample) && |s.wave| > 0 && e.CoveredRange().Some?
    ensures |part| == e.size
    ensures !Reaches(s, e.CoveredRange().value) ==> part == Fill(e.size, 0.0)
  {
    if Reaches(s, e.CoveredRange().value) then e.ComputeModelFor(Some(s), resample) else Fill(e.size, 0.0)
  }

  /** Every stack is usable and every stack has a covered column. */
  ghost predicate Covered(es: seq<StackedSpectrum>)
  {
    forall k :: 0 <= k < |es| ==> es[k].Valid() && es[k].CoveredRange().Some?
  }

  function TemplateParts(es: seq<StackedSpectrum>, s: Spectrum1D,
                         resample: (seq<real>, seq<real>, seq<real>) -> seq<real>): (parts: seq<seq<real>>)
    requires Covered(es) && OnGrid(resample) && (|es| == 0 || |s.wave| > 0)
    ensures |parts| == |es| && forall k :: 0 <= k < |es| ==> |parts[k]| == es[k].size
    ensures forall k :: 0 <= k < |es| ==> parts[k] == TemplatePart(es[k], s, resample)
  {
    seq(|es|, k requires 0 <= k < |es| => TemplatePart(es[k], s, resample))
  }

  /** The design row of one template: its parts laid out along the joint vector. */
  function TemplateRow(es: seq<StackedSpectrum>, s: Spectrum1D,
                       resample: (seq<real>, seq<real>, seq<real>) -> seq<real>): (row: seq<real>)
    requires Covered(es) && OnGrid(resample) && (|es| == 0 || |s.wave| > 0)
    ensures |row| == Total(Sizes(es))
  {
    ConcatSized(TemplateParts(es, s, resample), Sizes(es));
    Concat(TemplateParts(es, s, resample))
  }

  /** The rows of `Abg`. */
  function BackgroundRows(slices: seq<Slice>, ndata: nat): (rows: seq<seq<real>>)
    ensures |rows| == |slices|
    ensures forall i :: 0 <= i < |slices| ==> |rows[i]| == ndata
    ensures forall i, k :: 0 <= i < |slices| && 0 <= k < ndata ==> rows[i][k] == Indicator(slices[i], k)
  {
    seq(|slices|, i requires 0 <= i < |slices| => seq(ndata, k requires 0 <= k < ndata => Indicator(slices[i], k)))
  }

  /** The capabilities standing for the numerical library: a solver, the covariance diagonal and the resampler. */
  ghost predicate Tools(solver: (seq<seq<real>>, seq<real>) -> seq<real>, errs: seq<seq<real>> -> seq<real>,
                        resample: (seq<real>, seq<real>, seq<real>) -> seq<real>)
  {
    SolverShape(solver) && (forall rows :: |errs(rows)| == |rows|) && OnGrid(resample)
  }

  // ---------------------------------------------------------------------
  // fit_zgrid
  // ---------------------------------------------------------------------

  /** `log_zgrid` returns redshifts above -1 (it exponentiates a grid in `log(1+z)`). */
  ghost predicate LogGrid(logZGrid: (real, real, real) -> seq<real>)
  {
    forall lo, hi, dz, i :: 0 <= i < |logZGrid(lo, hi, dz)| ==> logZGrid(lo, hi, dz)[i] > -1.0
  }

  /** The prior, when given, is interpolated at every redshift. */
  ghost predicate PriorOk(prior: Option<seq<real> -> seq<real>>)
  {
    prior.Some? ==> Interpolates(prior.value)
  }

  /** Chi-squared plus the prior interpolated at the redshifts, when a prior is given. */
  function Penalised(z: seq<real>, chi2: seq<real>, prior: Option<seq<real> -> seq<real>>): (c: seq<real>)
    requires |z| == |chi2| && PriorOk(prior)
    ensures |c| == |chi2|
    ensures prior.None? ==> c == chi2
    ensures prior.Some? ==> forall i :: 0 <= i < |c| ==> c[i] == chi2[i] + prior.value(z)[i]
  {
    if prior.Some? then Add(chi2, prior.value(z)) else chi2
  }

  /**
   * The grid of refinement pass `iter`: a `log_zgrid` of step
   * `dz0/2.02**iter` over four steps either side of the redshift of the
   * (first) least penalised chi-squared of the previous grid.
   */
  function RefineGrid(zi: seq<real>, ci: seq<real>, prior: Option<seq<real> -> seq<real>>, dz0: real, iter: nat,
                      logZGrid: (real, real, real) -> seq<real>): (g: seq<real>)
    requires |zi| == |ci| > 0 && PriorOk(prior) && LogGrid(logZGrid)
    ensures forall k :: 0 <= k < |g| ==> g[k] > -1.0
    ensures exists i :: (0 <= i < |zi|
      && (forall j :: 0 <= j < |zi| ==> Penalised(zi, ci, prior)[i] <= Penalised(zi, ci, prior)[j])
      && g == logZGrid(zi[i] - RefineStep(dz0, iter) * 4.0, zi[i] + RefineStep(dz0, iter) * 4.0, RefineStep(dz0, iter)))
  {
    var cp := Penalised(zi, ci, prior);
    var z0 := zi[ArgMin(cp)];
    var dz := RefineStep(dz0, iter);
    logZGrid(z0 - dz * 4.0, z0 + dz * 4.0, dz)
  }

  /** The accumulated redshifts and chi-squared values of a scan, in the order they were computed. */
  datatype Scan = Scan(z: seq<real>, chi2: seq<real>)

  /** Samples `acc` put in front of the samples of later passes, when those succeed. */
  function Prepend(acc: Scan, rest: Option<Scan>): (r: Option<Scan>)
    ensures r.None? <==> rest.None?
    ensures r.Some? ==> r.value == Scan(acc.z + rest.value.z, acc.chi2 + rest.value.chi2)
  {
    match rest
    case None => None
    case Some(t) => Some(Scan(acc.z + t.z, acc.chi2 + t.chi2))
  }

  /** Prepending two blocks of samples in turn is prepending them joined. */
  lemma {:induction false} PrependPrepend(acc: Scan, s: Scan, rest: Option<Scan>)
    ensures Prepend(acc, Prepend(s, rest)) == Prepend(Scan(acc.z + s.z, acc.chi2 + s.chi2), rest)
  {
    if rest.Some? {
      assert acc.z + (s.z + rest.value.z) == acc.z + s.z + rest.value.z;
      assert acc.chi2 + (s.chi2 + rest.value.chi2) == acc.chi2 + s.chi2 + rest.value.chi2;
    }
  }

  /**
   * `outlier_mask = (resid*self.sivarf < outlier_threshold)` with `resid =
   * scif - full - background`. Where the template model is not a number
   * (`defined` is false) the comparison is false, so the pixel is an outlier.
   */
  function OutlierMask(scif: seq<real>, full: seq<real>, bg: seq<real>, sivarf: seq<real>, defined: seq<bool>,
                       threshold: real): (m: seq<bool>)
    requires |full| == |scif| && |bg| == |scif| && |sivarf| == |scif| && |defined| == |scif|
    ensures |m| == |scif|
    ensures forall k :: 0 <= k < |scif| ==>
      (m[k] <==> defined[k] && (scif[k] - full[k] - bg[k]) * sivarf[k] < threshold)
  {
    seq(|scif|, k requires 0 <= k < |scif| => defined[k] && (scif[k] - full[k] - bg[k]) * sivarf[k] < threshold)
  }

  /**
   * With a positive threshold, a pixel of zero weight fails the outlier test
   * of a fit exactly when some template row was kept: its weighted residual
   * is zero otherwise, and not a number then.
   */
  lemma {:induction false} ZeroWeightOutlier(a: seq<seq<real>>, next: nat, mask: seq<bool>, scif: seq<real>,
                                             sivarf: seq<real>, sol: seq<real>, err: seq<real>, threshold: real, k: nat)
    requires next <= |a| && |scif| == |sivarf| == |mask|
    requires forall i :: 0 <= i < |a| ==> |a[i]| == |mask|
    requires |sol| == |err| == Count(OkRows(a, mask))
    requires threshold > 0.0 && k < |mask| && sivarf[k] == 0.0
    ensures var f := Assemble(a, next, mask, scif, sivarf, sol, err);
      !OutlierMask(scif, f.full, f.background, sivarf, f.fullDefined, threshold)[k]
      <==> exists t :: next <= t < |a| && OkRows(a, mask)[t]
  {
    AssembleFullDefined(a, next, mask, scif, sivarf, sol, err, k);
  }

  /** Redshifts above -1, where `1+z` is positive. */
  predicate AboveMinusOne(zs: seq<real>)
  {
    forall i :: 0 <= i < |zs| ==> zs[i] > -1.0
  }

  /**
   * `so = np.argsort(z); z = z[so]; chi2 = chi2[so]`: the redshifts come out
   * ascending, still above -1, and the `(z, chi2)` samples are those of the
   * scan, each chi-squared still paired with its own redshift.
   */
  function SortedScan(s: Scan): (u: Scan)
    requires |s.z| == |s.chi2|
    ensures |u.z| == |u.chi2| == |s.z|
    ensures Ascending(u.z)
    ensures AboveMinusOne(s.z) ==> AboveMinusOne(u.z)
    ensures multiset(Zip(u.z, u.chi2)) == multiset(Zip(s.z, s.chi2))
  {
    var sorted := SortByZ(Zip(s.z, s.chi2));
    CoSort(s.z, s.chi2);
    SortedWithin(s.z, s.chi2, -1.0);
    Scan(Zs(sorted), Chis(sorted))
  }

  /**
   * The sorted scan with the prior added to chi-squared: the redshifts and
   * the unpenalised chi-squared values are the co-sorted samples, and each
   * reported chi-squared is its sample's plus the prior at its redshift.
   */
  function SortScan(s: Scan, prior: Option<seq<real> -> seq<real>>): (t: Scan)
    requires |s.z| == |s.chi2| && PriorOk(prior)
    ensures |t.z| == |t.chi2| == |s.z|
    ensures Ascending(t.z)
    ensures AboveMinusOne(s.z) ==> AboveMinusOne(t.z)
    ensures var u := SortedScan(s).chi2;
      t.z == SortedScan(s).z && multiset(Zip(t.z, u)) == multiset(Zip(s.z, s.chi2))
      && (prior.None? ==> t.chi2 == u)
      && (prior.Some? ==> t.chi2 == Add(u, prior.value(t.z)))
  {
    var u := SortedScan(s);
    Scan(u.z, Penalised(u.z, u.chi2, prior))
  }

  /** Narrowing the fit mask by `keep` can only lower `int((fit_mask*weightf).sum())`. */
  lemma {:induction false} NarrowingLowersDoF(w: seq<real>, m: seq<bool>, keep: seq<bool>)
    requires |w| == |m| == |keep| && forall p :: 0 <= p < |w| ==> w[p] > 0.0
    ensures Narrower(And(m, keep), m)
    ensures Trunc(MaskedSum(w, And(m, keep))) <= Trunc(MaskedSum(w, m))
  {
    MaskedSumMonotone(w, And(m, keep), m);
    MaskedSumNonNegative(w, And(m, keep));
    TruncMonotone(MaskedSum(w, And(m, keep)), MaskedSum(w, m));
  }

  /**
   * What `fit_zgrid` reports: the scan, the best redshift, the chi-squared
   * range, `area25`, the degrees of freedom after outlier masking, whether a
   * prior was given, the fit at the best redshift, the best-fit continuum
   * and full 1D templates and the line table.
   */
  datatype ZFit = ZFit(scan: Scan, zbest: real, chimin: real, chimax: real, area25: Option<real>, dof: int,
                       hasPrior: bool, best: FitResult, continuum: Template, full: Template, lines: seq<LineRecord>)

  /**
   * The report of `fit_zgrid` for the accumulated scan `s`, the fit `best`
   * at the best redshift and the degrees of freedom `dof` after outlier
   * masking: the sorted scan with the prior, the redshift of its (first)
   * least chi-squared, its chi-squared range and `area25`, and the 1D
   * templates and line table built from the best fit's coefficients.
   */
  ghost predicate Reports(r: ZFit, s: Scan, prior: Option<seq<real> -> seq<real>>, tI: seq<NamedTemplate>,
                          best: FitResult, dof: int)
    requires |s.z| == |s.chi2| > 0 && PriorOk(prior) && |best.coeffs| == |best.coeffsErr| == |tI|
    requires |tI| > 0 && SharedGrid(tI)
  {
    var t := SortScan(s, prior);
    var grid := tI[0].template.wave;
    r.scan == t && r.zbest == BestZ(t.z, t.chi2) && r.chimin == Min(t.chi2) && r.chimax == Max(t.chi2)
    && r.area25 == Area25(t.z, t.chi2) && r.dof == dof && r.hasPrior == prior.Some? && r.best == best
    && r.continuum == Template(grid, Combination(tI, ContinuumWeights(tI, best.coeffs), |grid|))
    && r.full == Template(grid, Combination(tI, best.coeffs, |grid|))
    && r.lines == Lines(tI, best.coeffs, best.coeffsErr, r.continuum)
  }

  /** The stacks of one grism have one shape, as their extensions in the file do. */
  lemma {:induction false} SameShapes(grisms: seq<string>, sel: seq<string>, hdus: map<string, StackHdu>, es: seq<StackedSpectrum>)
    requires GrismShapes(grisms, sel, hdus) && forall k :: 0 <= k < |es| ==> Opened(es[k], sel, hdus)
    ensures forall i :: 0 <= i < |grisms| ==> SameShapeFor(grisms[i], es)
  {
    forall i, k1, k2 | 0 <= i < |grisms| && 0 <= k1 < |es| && 0 <= k2 < |es|
                       && StartsWith(es[k1].extver, grisms[i]) && StartsWith(es[k2].extver, grisms[i])
      ensures |es[k1].scif| == |es[k2].scif|
    {
      assert grisms[i] in grisms;
    }
  }

  /** The joint vectors have one entry per pixel of the stacks, and the joint weights are positive. */
  lemma {:induction false} JointShapes(es: seq<StackedSpectrum>)
    requires AllValid(es) && |es| > 0
    ensures Total(Sizes(es)) > 0
    ensures |Concat(Scifs(es))| == |Concat(Ivarfs(es))| == |Concat(Wavefs(es))| == Total(Sizes(es))
    ensures |Concat(Weightfs(es))| == Total(Sizes(es))
    ensures forall p :: 0 <= p < |Concat(Weightfs(es))| ==> Concat(Weightfs(es))[p] > 0.0
  {
    TotalPositive(Sizes(es));
    ConcatSized(Scifs(es), Sizes(es));
    ConcatSized(Ivarfs(es), Sizes(es));
    ConcatSized(Wavefs(es), Sizes(es));
    ConcatSized(Weightfs(es), Sizes(es));
    ConcatPositive(Weightfs(es));
  }

  /** Appending `n` photometric points of unit weight, all fitted, adds `n` degrees of freedom. */
  lemma {:induction false} PhotometryDoF(w: seq<real>, m: seq<bool>, n: nat)
    requires |w| == |m| && forall p :: 0 <= p < |w| ==> w[p] > 0.0
    ensures Trunc(MaskedSum(w + Fill(n, 1.0), m + Trues(n))) == Trunc(MaskedSum(w, m)) + n
  {
    MaskedSumAppend(w, m, Fill(n, 1.0), Trues(n));
    MaskedSumOfOnes(Fill(n, 1.0), Trues(n));
    CountAllTrue(Trues(n));
    MaskedSumNonNegative(w, m);
    TruncShift(MaskedSum(w, m), n);
  }

  /** The joint vectors of the fitter: data, inverse variances and their roots, wavelengths, weights, fit mask and degrees of freedom. */
  datatype Joint = Joint(scif: seq<real>, ivarf: seq<real>, sivarf: seq<real>, wavef: seq<real>, weightf: seq<real>,
                         mask: seq<bool>, dof: int)

  /** All joint vectors have `n` entries, the weights are positive and `dof` counts the weighted fitted pixels. */
  predicate JointValid(j: Joint, n: nat)
  {
    |j.scif| == n && |j.ivarf| == n && |j.sivarf| == n && |j.wavef| == n && |j.weightf| == n && |j.mask| == n
    && (forall p :: 0 <= p < n ==> j.weightf[p] > 0.0)
    && j.dof == Trunc(MaskedSum(j.weightf, j.mask))
  }

  /**
   * The joint vectors of the spectra: the stacks' vectors concatenated, the
   * inverse variance multiplied by the weight, its root, and the stacks'
   * fit masks restricted to pixels above `min_ivar` times the largest
   * joint inverse variance.
   */
  function Joined(es: seq<StackedSpectrum>, masks: seq<seq<bool>>, minIvar: real, sqrt: real -> real): (j: Joint)
    requires AllValid(es) && |es| > 0 && MasksFit(es, masks)
    ensures JointValid(j, Total(Sizes(es)))
    ensures j.scif == Concat(Scifs(es)) && j.wavef == Concat(Wavefs(es)) && j.weightf == Concat(Weightfs(es))
    ensures |Concat(Ivarfs(es))| == |j.weightf| && j.ivarf == Mul(Concat(Ivarfs(es)), j.weightf)
    ensures j.sivarf == MapSqrt(j.ivarf, sqrt)
    ensures |Concat(masks)| == |j.ivarf|
    ensures forall p :: 0 <= p < |j.mask| ==>
      (j.mask[p] <==> Concat(masks)[p] && j.ivarf[p] > Cut(minIvar, Max(j.ivarf)))
  {
    JointShapes(es);
    ConcatSized(masks, Sizes(es));
    var weights := Concat(Weightfs(es));
    var iv := Mul(Concat(Ivarfs(es)), weights);
    var mask := And(Concat(masks), IvarMask(iv, minIvar));
    Joint(Concat(Scifs(es)), iv, MapSqrt(iv, sqrt), Concat(Wavefs(es)), weights, mask,
          Trunc(MaskedSum(weights, mask)))
  }

  /** `self.Nphot`: the number of kept photometric points (0 without photometry). */
  function PhotCount(photometry: Option<Photometry>): nat
    requires photometry.Some? ==> PhotometryValid(photometry.value)
  {
    if photometry.None? then 0 else Count(OkPhot(photometry.value))
  }

  /**
   * The joint vectors with the kept photometric points appended: f-lambda
   * fluxes, inverse squared and inverse errors, pivot wavelengths, unit
   * weights and a fitted mask; each point adds one degree of freedom.
   */
  function WithPhotometry(j: Joint, photometry: Option<Photometry>): (r: Joint)
    requires JointValid(j, |j.scif|) && (photometry.Some? ==> PhotometryValid(photometry.value))
    ensures JointValid(r, |j.scif| + PhotCount(photometry))
    ensures r.dof == j.dof + PhotCount(photometry)
    ensures PhotCount(photometry) == 0 ==> r == j
    ensures var n := |j.scif|;
      r.scif[..n] == j.scif && r.ivarf[..n] == j.ivarf && r.sivarf[..n] == j.sivarf
      && r.wavef[..n] == j.wavef && r.weightf[..n] == j.weightf && r.mask[..n] == j.mask
    ensures PhotCount(photometry) > 0 ==>
      var ph := photometry.value;
      var ok := OkPhot(ph);
      var n := |j.scif|;
      r.scif[n..] == Compress(Flam(ph.fnu, ph.toFlam), ok) && r.wavef[n..] == Compress(ph.lc, ok)
      && (PhotErrorsPositive(ph);
          r.ivarf[n..] == InverseSquares(PhotErrors(ph)) && r.sivarf[n..] == Inverses(PhotErrors(ph)))
      && r.weightf[n..] == Fill(PhotCount(photometry), 1.0) && r.mask[n..] == Trues(PhotCount(photometry))
  {
    var nphot := PhotCount(photometry);
    if nphot == 0 then j
    else
      var ph := photometry.value;
      var ok := OkPhot(ph);
      var eflam := PhotErrors(ph);
      PhotErrorsPositive(ph);
      PhotometryDoF(j.weightf, j.mask, nphot);
      Joint(j.scif + Compress(Flam(ph.fnu, ph.toFlam), ok), j.ivarf + InverseSquares(eflam),
            j.sivarf + Inverses(eflam), j.wavef + Compress(ph.lc, ok), j.weightf + Fill(nphot, 1.0),
            j.mask + Trues(nphot), j.dof + nphot)
  }

  /**
   * The stacks as `__init__` leaves them: each opened from its extension
   * with a usable kernel; with `fit_stacks` each keeps the fit mask it was
   * built with, otherwise `dict` is the per-grism running minimum of those
   * masks' fluxes and each mask is narrowed by the overlap test.
   */
  ghost predicate StacksBuilt(es: seq<StackedSpectrum>, masks: seq<seq<bool>>, sel: seq<string>,
                              hdus: map<string, StackHdu>, minIvar: real, maskMin: real, fitStacks: bool,
                              grisms: seq<string>, dict: map<string, seq<real>>, threshold: real)
  {
    |masks| == |es|
    && (forall k :: 0 <= k < |es| ==> Opened(es[k], sel, hdus))
    && (fitStacks ==> forall k :: 0 <= k < |es| ==> masks[k] == BuiltMask(es[k], minIvar, maskMin))
    && (!fitStacks ==>
      && (forall i :: 0 <= i < |grisms| ==> SameShapeFor(grisms[i], es))
      && dict == MinDict(grisms, es, seq(|es|, k requires 0 <= k < |es| => BuiltMask(es[k], minIvar, maskMin)))
      && forall k :: 0 <= k < |es| ==> (Ready(grisms, dict, es[k])
         && masks[k] == Narrowed(grisms, dict, es[k], BuiltMask(es[k], minIvar, maskMin), threshold)))
  }

  /**
   * The stack part of `__init__`: select the extensions, open each, pop
   * those with a degenerate kernel and, when the position angles are
   * fitted separately, mask drizzle overlaps.
   */
  method OpenSelected(hdr: PrimaryHeader, hdus: map<string, StackHdu>, sysErr: real, maskMin: real, fitStacks: bool,
                      fcontam: real, pas: Option<seq<string>>, extensions: Option<seq<string>>, minIvar: real,
                      overlapThreshold: real, sqrt: real -> real, exp: real -> real)
    returns (kept: seq<string>, next: nat, es: seq<StackedSpectrum>, dict: map<string, seq<real>>)
    requires |hdr.pasOf| == |hdr.grisms| && PositiveExp(exp)
    requires Readable(Extensions(hdr.grisms, hdr.pasOf, fitStacks, pas, extensions), hdus)
    requires Count(KernelOk(Extensions(hdr.grisms, hdr.pasOf, fitStacks, pas, extensions), hdus)) > 0
    requires !fitStacks ==> GrismShapes(hdr.grisms, Extensions(hdr.grisms, hdr.pasOf, fitStacks, pas, extensions), hdus)
    ensures var sel := Extensions(hdr.grisms, hdr.pasOf, fitStacks, pas, extensions);
      var ok := KernelOk(sel, hdus);
      kept == Compress(sel, ok) && next == |sel| - |Dropped(ok)|
      && StacksBuilt(es, MaskContents(es), sel, hdus, minIvar, maskMin, fitStacks, hdr.grisms, dict, overlapThreshold)
    ensures forall k :: 0 <= k < |es| ==> fresh(es[k].fitMask)
    ensures |es| == |kept| == next > 0 && forall k :: 0 <= k < |es| ==> es[k].extver == kept[k]
  {
    var sel := SelectExtensions(hdr.grisms, hdr.pasOf, fitStacks, pas, extensions);
    var pop;
    es, pop := OpenStacks(sel, hdus, sysErr, maskMin, fcontam, minIvar, sqrt, exp);
    var ok := KernelOk(sel, hdus);
    var n;
    kept, n := PopDegenerate(sel, ok, pop, |sel|);
    DroppedExact(ok);
    next := n;
    if !fitStacks {
      dict := NarrowStacks(hdr.grisms, sel, hdus, es, minIvar, maskMin, overlapThreshold);
    } else {
      dict := map[];
      KeptBuilt(es, sel, hdus, minIvar, maskMin, hdr.grisms, dict, overlapThreshold);
    }
  }

  /** With `fit_stacks`, the stacks keep the fit masks they were opened with. */
  lemma {:induction false} KeptBuilt(es: seq<StackedSpectrum>, sel: seq<string>, hdus: map<string, StackHdu>,
                                     minIvar: real, maskMin: real, grisms: seq<string>,
                                     dict: map<string, seq<real>>, threshold: real)
    requires Kept(es, sel, hdus, minIvar, maskMin)
    ensures StacksBuilt(es, MaskContents(es), sel, hdus, minIvar, maskMin, true, grisms, dict, threshold)
  {
    var ms := MaskContents(es);
    forall k | 0 <= k < |es| ensures ms[k] == BuiltMask(es[k], minIvar, maskMin) {
      assert ms[k] == es[k].fitMask[..];
    }
  }

  /**
   * Without `fit_stacks`: `mask_drizzle_overlaps` over the opened stacks,
   * returning the per-grism running minimum of their fluxes.
   */
  method NarrowStacks(grisms: seq<string>, sel: seq<string>, hdus: map<string, StackHdu>, es: seq<StackedSpectrum>,
                      minIvar: real, maskMin: real, threshold: real)
    returns (dict: map<string, seq<real>>)
    requires Kept(es, sel, hdus, minIvar, maskMin) && GrismShapes(grisms, sel, hdus)
    modifies set k | 0 <= k < |es| :: es[k].fitMask
    ensures StacksBuilt(es, MaskContents(es), sel, hdus, minIvar, maskMin, false, grisms, dict, threshold)
  {
    var built := MaskContents(es);
    assert built == seq(|es|, k requires 0 <= k < |es| => BuiltMask(es[k], minIvar, maskMin));
    SameShapes(grisms, sel, hdus, es);
    MaskDrizzleOverlaps(grisms, es, threshold);
    dict := MinDict(grisms, es, built);
  }

  /** A fresh boolean array holding `m`. */
  method NewMask(m: seq<bool>) returns (a: array<bool>)
    ensures fresh(a) && a[..] == m
  {
    a := new bool[|m|](p requires 0 <= p < |m| => m[p]);
  }

  /**
   * The layout of the stacks in the joint vectors: one kept stack per
   * extension name, and the slice table partitioning the joint pixels.
   */
  ghost predicate Layout(es: seq<StackedSpectrum>, ext: seq<string>, next: nat, ndata: nat, slices: seq<Slice>)
  {
    |es| == |ext| == next && next > 0
    && (forall k :: 0 <= k < |es| ==> es[k].Valid() && es[k].extver == ext[k] && es[k].kernel.Some?)
    && ndata == Total(Sizes(es)) && Partition(slices, Sizes(es))
  }

  /** The background matrix `A_bg`: row `i` is the indicator of slice `i`. */
  ghost predicate Background(abg: array2<real>, slices: seq<Slice>, next: nat, ndata: nat)
    reads abg
  {
    |slices| == next && abg.Length0 == next && abg.Length1 == ndata
    && (forall i, k :: 0 <= i < next && 0 <= k < ndata ==> abg[i, k] == Indicator(slices[i], k))
  }

  /**
   * The joint part of `__init__`: concatenate the opened stacks, append the
   * photometry, copy the mask into a fresh array, and build the slice
   * table and the background matrix.
   */
  method JoinStacks(es: seq<StackedSpectrum>, ext: seq<string>, masks: seq<seq<bool>>, minIvar: real,
                    photometry: Option<Photometry>, sqrt: real -> real)
    returns (ndata: nat, j: Joint, slices: seq<Slice>, abg: array2<real>, mask: array<bool>)
    requires |es| == |ext| > 0
    requires forall k :: 0 <= k < |es| ==> es[k].Valid() && es[k].extver == ext[k] && es[k].kernel.Some?
    requires MasksFit(es, masks) && (photometry.Some? ==> PhotometryValid(photometry.value))
    ensures fresh(abg) && fresh(mask)
    ensures Layout(es, ext, |es|, ndata, slices) && Background(abg, slices, |es|, ndata)
    ensures j == WithPhotometry(Joined(es, masks, minIvar, sqrt), photometry)
    ensures JointValid(j, ndata + PhotCount(photometry)) && mask[..] == j.mask
  {
    var sizes := Sizes(es);
    ndata := Total(sizes);
    j := WithPhotometry(Joined(es, masks, minIvar, sqrt), photometry);
    slices := GetSlices(sizes);
    abg := InitBackground(slices, ndata);
    mask := NewMask(j.mask);
  }

  /**
   * The values `__init__` computes: the kept extensions and their count,
   * the opened stacks, the joint length, the joint vectors, the slice
   * table, the running minima of the overlap masking and the stacks' fit
   * masks.
   */
  datatype Built = Built(ext: seq<string>, next: nat, es: seq<StackedSpectrum>, ndata: nat, j: Joint,
                         slices: seq<Slice>, dict: map<string, seq<real>>, masks: seq<seq<bool>>)

  /** What `__init__` computes from its arguments. */
  ghost predicate Setup(hdr: PrimaryHeader, hdus: map<string, StackHdu>, maskMin: real, fitStacks: bool,
                        pas: Option<seq<string>>, extensions: Option<seq<string>>, minIvar: real, threshold: real,
                        photometry: Option<Photometry>, sqrt: real -> real, b: Built)
    requires |hdr.pasOf| == |hdr.grisms| && Readable(Extensions(hdr.grisms, hdr.pasOf, fitStacks, pas, extensions), hdus)
    requires photometry.Some? ==> PhotometryValid(photometry.value)
  {
    var sel := Extensions(hdr.grisms, hdr.pasOf, fitStacks, pas, extensions);
    var ok := KernelOk(sel, hdus);
    b.ext == Compress(sel, ok) && b.next == |sel| - |Dropped(ok)|
    && StacksBuilt(b.es, b.masks, sel, hdus, minIvar, maskMin, fitStacks, hdr.grisms, b.dict, threshold)
    && Layout(b.es, b.ext, b.next, b.ndata, b.slices)
    && AllValid(b.es) && MasksFit(b.es, b.masks)
    && b.j == WithPhotometry(Joined(b.es, b.masks, minIvar, sqrt), photometry)
    && JointValid(b.j, b.ndata + PhotCount(photometry))
  }

  /** Everything `__init__` computes before it sets the fitter's attributes. */
  method Build(hdr: PrimaryHeader, hdus: map<string, StackHdu>, sysErr: real, maskMin: real, fitStacks: bool,
               fcontam: real, pas: Option<seq<string>>, extensions: Option<seq<string>>, minIvar: real,
               overlapThreshold: real, photometry: Option<Photometry>, sqrt: real -> real, exp: real -> real)
    returns (b: Built, abg: array2<real>, mask: array<bool>)
    requires |hdr.pasOf| == |hdr.grisms| && PositiveExp(exp)
    requires Readable(Extensions(hdr.grisms, hdr.pasOf, fitStacks, pas, extensions), hdus)
    requires Count(KernelOk(Extensions(hdr.grisms, hdr.pasOf, fitStacks, pas, extensions), hdus)) > 0
    requires !fitStacks ==> GrismShapes(hdr.grisms, Extensions(hdr.grisms, hdr.pasOf, fitStacks, pas, extensions), hdus)
    requires photometry.Some? ==> PhotometryValid(photometry.value)
    ensures fresh(abg) && fresh(mask) && mask[..] == b.j.mask
    ensures forall k :: 0 <= k < |b.es| ==> fresh(b.es[k].fitMask)
    ensures Background(abg, b.slices, b.next, b.ndata)
    ensures Setup(hdr, hdus, maskMin, fitStacks, pas, extensions, minIvar, overlapThreshold, photometry, sqrt, b)
  {
    var kept, next, es, dict := OpenSelected(hdr, hdus, sysErr, maskMin, fitStacks, fcontam, pas, extensions,
                                             minIvar, overlapThreshold, sqrt, exp);
    var masks := MaskContents(es);
    var ndata, j, sl;
    ndata, j, sl, abg, mask := JoinStacks(es, kept, masks, minIvar, photometry, sqrt);
    b := Built(kept, next, es, ndata, j, sl, dict, masks);
  }

  // ---------------------------------------------------------------------
  // fit_at_z: filling the design matrix
  // ---------------------------------------------------------------------

  /** Every template has a wavelength grid to take its first and last redshifted wavelength from. */
  predicate HasWavelengths(ts: seq<NamedTemplate>)
  {
    WavelengthsBefore(ts, |ts|)
  }

  /** The first `n` templates have wavelengths. */
  predicate WavelengthsBefore(ts: seq<NamedTemplate>, n: nat)
    requires n <= |ts|
  {
    forall i :: 0 <= i < n ==> |ts[i].template.wave| > 0
  }

  /**
   * The design matrix `A` of `fit_at_z`: the rows of `Abg`, then one row
   * per template moved to redshift `z`.
   */
  function Design(es: seq<StackedSpectrum>, slices: seq<Slice>, ts: seq<NamedTemplate>, z: real,
                  resample: (seq<real>, seq<real>, seq<real>) -> seq<real>): (a: seq<seq<real>>)
    requires OnGrid(resample) && 1.0 + z != 0.0
    requires |ts| > 0 ==> Covered(es) && HasWavelengths(ts)
    ensures |a| == |slices| + |ts|
    ensures forall i :: 0 <= i < |a| ==> |a[i]| == Total(Sizes(es))
    ensures a[..|slices|] == BackgroundRows(slices, Total(Sizes(es)))
  {
    BackgroundRows(slices, Total(Sizes(es))) + TemplateRows(es, ts, z, resample)
  }

  /** The template rows of the design matrix, in template order. */
  function TemplateRows(es: seq<StackedSpectrum>, ts: seq<NamedTemplate>, z: real,
                        resample: (seq<real>, seq<real>, seq<real>) -> seq<real>): (rows: seq<seq<real>>)
    requires OnGrid(resample) && 1.0 + z != 0.0
    requires |ts| > 0 ==> Covered(es) && HasWavelengths(ts)
    ensures |rows| == |ts|
    ensures forall i :: 0 <= i < |ts| ==> rows[i] == TemplateRow(es, Redshifted(ts[i].template, z), resample)
    ensures forall i :: 0 <= i < |ts| ==> |rows[i]| == Total(Sizes(es))
  {
    seq(|ts|, i requires 0 <= i < |ts| => TemplateRow(es, Redshifted(ts[i].template, z), resample))
  }

  /** A partly written row: the values written so far, then the zeros `np.zeros` put there. */
  function Padded(v: seq<real>, n: nat): (r: seq<real>)
    requires |v| <= n
    ensures |r| == n
    ensures forall k :: 0 <= k < |v| ==> r[k] == v[k]
    ensures forall k :: |v| <= k < n ==> r[k] == 0.0
  {
    v + Fill(n - |v|, 0.0)
  }

  /** `A[row, start:start+len(part)] = part`. */
  method WritePart(a: array2<real>, row: nat, start: nat, part: seq<real>)
    modifies a
    requires row < a.Length0 && start + |part| <= a.Length1
    ensures forall i, k :: 0 <= i < a.Length0 && 0 <= k < a.Length1 ==>
      a[i, k] == if i == row && start <= k < start + |part| then part[k - start] else old(a[i, k])
  {
    for p := 0 to |part|
      invariant forall i, k :: 0 <= i < a.Length0 && 0 <= k < a.Length1 ==>
        a[i, k] == if i == row && start <= k < start + p then part[k - start] else old(a[i, k])
    {
      a[row, start + p] := part[p];
    }
  }

  /**
   * One stack of the inner loop: its part goes into the row right after the
   * parts already written, or, when the template misses the stack, the row
   * keeps its zeros there (which is then what the part is).
   */
  method PlaceNext(a: array2<real>, row: nat, start: nat, ghost done: seq<real>, part: seq<real>, write: bool)
    modifies a
    requires row < a.Length0 && start == |done| && |done| + |part| <= a.Length1
    requires forall k :: 0 <= k < a.Length1 ==> a[row, k] == Padded(done, a.Length1)[k]
    requires !write ==> part == Fill(|part|, 0.0)
    ensures forall k :: 0 <= k < a.Length1 ==> a[row, k] == Padded(done + part, a.Length1)[k]
    ensures forall i, k :: 0 <= i < a.Length0 && i != row && 0 <= k < a.Length1 ==> a[i, k] == old(a[i, k])
  {
    if write {
      WritePart(a, row, start, part);
    }
  }

  /**
   * Whether every stack has a covered column. The inner loop of `fit_at_z`
   * takes the largest covered wavelength of each stack, which raises on a
   * stack without one.
   */
  method AllCovered(es: seq<StackedSpectrum>) returns (covered: bool)
    requires AllValid(es)
    ensures covered <==> Covered(es)
  {
    for j := 0 to |es|
      invariant forall m :: 0 <= m < j ==> es[m].CoveredRange().Some?
    {
      if es[j].CoveredRange().None? {
        return false;
      }
    }
    return true;
  }

  /**
   * The inner loop of `fit_at_z` for one template: for every stack whose
   * covered wavelengths the redshifted template reaches, its 2D model goes
   * into the stack's slice of the template's row; the others leave their
   * slice at zero.
   */
  method FillTemplateRow(a: array2<real>, row: nat, es: seq<StackedSpectrum>, slices: seq<Slice>, s: Spectrum1D,
                         resample: (seq<real>, seq<real>, seq<real>) -> seq<real>)
    modifies a
    requires Covered(es) && OnGrid(resample) && |s.wave| > 0 && Partition(slices, Sizes(es))
    requires row < a.Length0 && a.Length1 == Total(Sizes(es))
    requires forall k :: 0 <= k < a.Length1 ==> a[row, k] == 0.0
    ensures Rows(a) == old(Rows(a))[row := TemplateRow(es, s, resample)]
  {
    ghost var before := Rows(a);
    var parts, sizes, reaches := TemplateParts(es, s, resample), Sizes(es), Reaching(es, s);
    RowParts(es, s, resample);
    WriteParts(a, row, slices, parts, sizes, reaches);
    RowReplaced(a, row, Concat(parts), before);
  }

  /** A matrix changed only in one row, to `t`, has the old rows with that row replaced. */
  lemma {:induction false} RowReplaced(a: array2<real>, row: nat, t: seq<real>, before: seq<seq<real>>)
    requires row < a.Length0 == |before| && |t| == a.Length1
    requires forall i :: 0 <= i < |before| ==> |before[i]| == a.Length1
    requires forall k :: 0 <= k < a.Length1 ==> a[row, k] == t[k]
    requires forall i, k :: 0 <= i < a.Length0 && i != row && 0 <= k < a.Length1 ==> a[i, k] == before[i][k]
    ensures Rows(a) == before[row := t]
  {
    var after := Rows(a);
    forall i | 0 <= i < a.Length0 ensures after[i] == before[row := t][i] {
      if i != row {
        assert after[i] == before[i];
      }
    }
  }

  /** Which stacks' covered wavelengths the template reaches. */
  function Reaching(es: seq<StackedSpectrum>, s: Spectrum1D): (r: seq<bool>)
    requires Covered(es) && |s.wave| > 0
    ensures |r| == |es| && forall j :: 0 <= j < |es| ==> r[j] == Reaches(s, es[j].CoveredRange().value)
  {
    seq(|es|, j requires 0 <= j < |es| => Reaches(s, es[j].CoveredRange().value))
  }

  /**
   * The parts of a template row, one per stack, are as long as the stacks,
   * zero where the template misses the stack, and laid end to end they make
   * the row.
   */
  lemma {:induction false} RowParts(es: seq<StackedSpectrum>, s: Spectrum1D, resample: (seq<real>, seq<real>, seq<real>) -> seq<real>)
    requires Covered(es) && OnGrid(resample) && |s.wave| > 0
    ensures var parts, sizes, write := TemplateParts(es, s, resample), Sizes(es), Reaching(es, s);
      |parts| == |sizes| == |write| && (forall j :: 0 <= j < |parts| ==> |parts[j]| == sizes[j])
      && (forall j :: 0 <= j < |parts| && !write[j] ==> parts[j] == Fill(sizes[j], 0.0))
      && TemplateRow(es, s, resample) == Concat(parts)
  {
    var parts, sizes, write := TemplateParts(es, s, resample), Sizes(es), Reaching(es, s);
    forall j | 0 <= j < |parts| && !write[j] ensures parts[j] == Fill(sizes[j], 0.0) {
      assert parts[j] == TemplatePart(es[j], s, resample);
    }
  }

  /**
   * The loop over the stacks in `fit_at_z`: part `j` goes to slice `j` of
   * the row, and a part that is not written (the template misses the
   * stack) is the zeros already there.
   */
  method WriteParts(a: array2<real>, row: nat, slices: seq<Slice>, parts: seq<seq<real>>, sizes: seq<nat>, write: seq<bool>)
    modifies a
    requires |parts| == |sizes| == |write| && forall j :: 0 <= j < |parts| ==> |parts[j]| == sizes[j]
    requires forall j :: 0 <= j < |parts| && !write[j] ==> parts[j] == Fill(sizes[j], 0.0)
    requires Partition(slices, sizes) && row < a.Length0 && a.Length1 == Total(sizes)
    requires forall k :: 0 <= k < a.Length1 ==> a[row, k] == 0.0
    ensures |Concat(parts)| == a.Length1
    ensures forall k :: 0 <= k < a.Length1 ==> a[row, k] == Concat(parts)[k]
    ensures forall i, k :: 0 <= i < a.Length0 && i != row && 0 <= k < a.Length1 ==> a[i, k] == old(a[i, k])
  {
    var n := a.Length1;
    ghost var done: seq<real> := [];
    assert sizes[..0] == [] && parts[..0] == [];
    for j := 0 to |parts|
      invariant done == Concat(parts[..j]) && |done| == Total(sizes[..j]) <= n
      invariant forall k :: 0 <= k < n ==> a[row, k] == Padded(done, n)[k]
      invariant forall i, k :: 0 <= i < a.Length0 && i != row && 0 <= k < n ==> a[i, k] == old(a[i, k])
    {
      PartitionStart(slices, sizes, j);
      TotalStep(sizes, j);
      ConcatStep(parts, j);
      PlaceNext(a, row, slices[j].start, done, parts[j], write[j]);
      done := done + parts[j];
    }
    assert parts[..|parts|] == parts && sizes[..|parts|] == sizes;
  }

  /** `A[:Next,:] += self.Abg`. */
  method AddBackground(a: array2<real>, abg: array2<real>)
    modifies a
    requires a != abg && abg.Length0 <= a.Length0 && abg.Length1 == a.Length1
    ensures forall i, k :: 0 <= i < a.Length0 && 0 <= k < a.Length1 ==>
      a[i, k] == if i < abg.Length0 then old(a[i, k]) + abg[i, k] else old(a[i, k])
  {
    for i := 0 to abg.Length0
      invariant forall i', k :: 0 <= i' < a.Length0 && 0 <= k < a.Length1 ==>
        a[i', k] == if i' < i then old(a[i', k]) + abg[i', k] else old(a[i', k])
    {
      for k := 0 to a.Length1
        invariant forall i', k' :: 0 <= i' < a.Length0 && 0 <= k' < a.Length1 ==>
          a[i', k'] == if i' < i || (i' == i && k' < k) then old(a[i', k']) + abg[i', k'] else old(a[i', k'])
      {
        a[i, k] := a[i, k] + abg[i, k];
      }
    }
  }

  /** The rows of a matrix. */
  function Rows(a: array2<real>): (rows: seq<seq<real>>)
    reads a
    ensures |rows| == a.Length0 && forall i :: 0 <= i < a.Length0 ==> |rows[i]| == a.Length1
    ensures forall i, k :: 0 <= i < a.Length0 && 0 <= k < a.Length1 ==> rows[i][k] == a[i, k]
  {
    seq(a.Length0, i requires 0 <= i < a.Length0 reads a => seq(a.Length1, k requires 0 <= k < a.Length1 reads a => a[i, k]))
  }
  /** The design matrix before its template rows are filled: the background rows, then zeros. */
  ghost predicate Started(a: array2<real>, slices: seq<Slice>, ntemp: nat, ndata: nat)
    reads a
  {
    a.Length0 == |slices| + ntemp && a.Length1 == ndata
    && (forall r, k :: 0 <= r < |slices| && 0 <= k < ndata ==> a[r, k] == Indicator(slices[r], k))
    && (forall r, k :: |slices| <= r < a.Length0 && 0 <= k < ndata ==> a[r, k] == 0.0)
  }

  /** `m` rows of `n` zeros. */
  function ZeroRows(m: nat, n: nat): (rows: seq<seq<real>>)
    ensures |rows| == m && forall i :: 0 <= i < m ==> rows[i] == Fill(n, 0.0)
  {
    seq(m, i => Fill(n, 0.0))
  }

  /**
   * The design matrix with the first `i` template rows filled: the
   * background rows `bg`, the first `i` of the template rows `tr`, then the
   * zero rows of width `n` still to fill.
   */
  function PartlyFilled(bg: seq<seq<real>>, tr: seq<seq<real>>, n: nat, i: nat): (rows: seq<seq<real>>)
    requires i <= |tr|
    ensures |rows| == |bg| + |tr|
  {
    bg + tr[..i] + ZeroRows(|tr| - i, n)
  }

  /** Before the template loop only the background rows are set. */
  lemma {:induction false} StartedRows(a: array2<real>, slices: seq<Slice>, tr: seq<seq<real>>, ndata: nat)
    requires Started(a, slices, |tr|, ndata)
    ensures Rows(a) == PartlyFilled(BackgroundRows(slices, ndata), tr, ndata, 0)
  {
    var rows, want := Rows(a), PartlyFilled(BackgroundRows(slices, ndata), tr, ndata, 0);
    forall i | 0 <= i < |rows| ensures rows[i] == want[i] {
      if i < |slices| {
        assert want[i] == BackgroundRows(slices, ndata)[i];
      } else {
        assert want[i] == Fill(ndata, 0.0);
      }
    }
  }

  /**
   * One pass of the template loop: the next row is still zero, and making
   * it template row `i` gives the matrix with one more template filled.
   */
  lemma {:induction false} PartlyFilledNext(bg: seq<seq<real>>, tr: seq<seq<real>>, n: nat, i: nat, row: nat)
    requires i < |tr| && row == |bg| + i
    ensures var rows := PartlyFilled(bg, tr, n, i);
      rows[row] == Fill(n, 0.0) && rows[row := tr[i]] == PartlyFilled(bg, tr, n, i + 1)
  {
    var rows, next := PartlyFilled(bg, tr, n, i), PartlyFilled(bg, tr, n, i + 1);
    forall j | 0 <= j < |next| ensures rows[row := tr[i]][j] == next[j] {
      if j < row {
        assert rows[j] == next[j];
      }
    }
  }

  /** A row of zeros in `Rows(a)` is a row of zeros in `a`. */
  lemma {:induction false} ZeroRow(a: array2<real>, row: nat)
    requires row < a.Length0 && Rows(a)[row] == Fill(a.Length1, 0.0)
    ensures forall k :: 0 <= k < a.Length1 ==> a[row, k] == 0.0
  {
    forall k | 0 <= k < a.Length1 ensures a[row, k] == 0.0 {
      assert a[row, k] == Rows(a)[row][k];
    }
  }

  /** With every template filled, the rows are the background rows followed by the template rows. */
  lemma {:induction false} PartlyFilledAll(bg: seq<seq<real>>, tr: seq<seq<real>>, n: nat)
    ensures PartlyFilled(bg, tr, n, |tr|) == bg + tr
  {
    assert tr[..|tr|] == tr;
  }

  /** `A = np.zeros((Next+NTEMP, Ndata)); A[:Next,:] += self.Abg`. */
  method NewDesign(slices: seq<Slice>, abg: array2<real>, ntemp: nat, ndata: nat) returns (a: array2<real>)
    requires Background(abg, slices, |slices|, ndata)
    ensures fresh(a) && Started(a, slices, ntemp, ndata)
  {
    a := new real[|slices| + ntemp, ndata]((i, k) => 0.0);
    AddBackground(a, abg);
  }

  /** The template loop of `fit_at_z`: each template's row filled in turn, which gives the design matrix. */
  method FillTemplates(a: array2<real>, es: seq<StackedSpectrum>, slices: seq<Slice>, ts: seq<NamedTemplate>, z: real,
                       resample: (seq<real>, seq<real>, seq<real>) -> seq<real>)
    modifies a
    requires OnGrid(resample) && 1.0 + z != 0.0 && (|ts| > 0 ==> Covered(es) && HasWavelengths(ts))
    requires Partition(slices, Sizes(es)) && Started(a, slices, |ts|, Total(Sizes(es)))
    ensures Rows(a) == Design(es, slices, ts, z, resample)
  {
    ghost var bg, tr, n := BackgroundRows(slices, Total(Sizes(es))), TemplateRows(es, ts, z, resample), Total(Sizes(es));
    StartedRows(a, slices, tr, n);
    for i := 0 to |ts|
      invariant a.Length1 == n
      invariant Rows(a) == PartlyFilled(bg, tr, n, i)
    {
      FillNext(a, es, slices, Redshifted(ts[i].template, z), resample, bg, tr, i);
    }
    PartlyFilledAll(bg, tr, n);
  }

  /** One pass of the template loop: the zero row after the background rows and the `i` rows filled becomes template row `i`. */
  method FillNext(a: array2<real>, es: seq<StackedSpectrum>, slices: seq<Slice>, s: Spectrum1D,
                  resample: (seq<real>, seq<real>, seq<real>) -> seq<real>, ghost bg: seq<seq<real>>,
                  ghost tr: seq<seq<real>>, i: nat)
    modifies a
    requires Covered(es) && OnGrid(resample) && |s.wave| > 0 && Partition(slices, Sizes(es))
    requires |bg| == |slices| && i < |tr| && tr[i] == TemplateRow(es, s, resample)
    requires a.Length1 == Total(Sizes(es)) && Rows(a) == PartlyFilled(bg, tr, a.Length1, i)
    ensures Rows(a) == PartlyFilled(bg, tr, a.Length1, i + 1)
  {
    var row := |slices| + i;
    PartlyFilledNext(bg, tr, a.Length1, i, row);
    ZeroRow(a, row);
    FillTemplateRow(a, row, es, slices, s, resample);
  }

  /**
   * The design matrix of `fit_at_z` filled in place. `None` where the
   * source raises while filling it: a template without wavelengths, or a
   * stack without a covered column.
   */
  method FillDesign(es: seq<StackedSpectrum>, slices: seq<Slice>, abg: array2<real>, ts: seq<NamedTemplate>, z: real,
                    resample: (seq<real>, seq<real>, seq<real>) -> seq<real>) returns (r: Option<array2<real>>)
    requires AllValid(es) && OnGrid(resample) && 1.0 + z != 0.0
    requires Partition(slices, Sizes(es)) && Background(abg, slices, |es|, Total(Sizes(es)))
    ensures r.None? <==> |ts| > 0 && !(Covered(es) && HasWavelengths(ts))
    ensures r.Some? ==> fresh(r.value) && Rows(r.value) == Design(es, slices, ts, z, resample)
  {
    var a := NewDesign(slices, abg, |ts|, Total(Sizes(es)));
    if |ts| > 0 {
      var covered := AllCovered(es);
      if !covered {
        return None;
      }
    }
    if !HasWavelengths(ts) {
      return None;
    }
    FillTemplates(a, es, slices, ts, z, resample);
    return Some(a);
  }


  /**
   * Where `fit_at_z` raises: the joint vectors carry photometric points
   * that the design matrix has no columns for (`A*self.fit_mask` cannot
   * broadcast), or there are templates and one of them has no wavelengths
   * (`s[0][0]`) or a stack has no covered column (`max()` of an empty
   * array).
   */
  ghost predicate FitRaises(es: seq<StackedSpectrum>, ts: seq<NamedTemplate>, nphot: nat)
  {
    nphot > 0 || (|ts| > 0 && !(Covered(es) && HasWavelengths(ts)))
  }

  /**
   * `fit_at_z`: the design matrix, the rows that are non-zero on the
   * fitted pixels, the solver's coefficients for those rows on the
   * weighted data with the pedestal, the uncertainties (zeros unless asked
   * for), and what is assembled from them.
   */
  ghost function FitAt(es: seq<StackedSpectrum>, slices: seq<Slice>, nphot: nat, mask: seq<bool>, scif: seq<real>,
                       sivarf: seq<real>, ts: seq<NamedTemplate>, z: real,
                       solver: (seq<seq<real>>, seq<real>) -> seq<real>, errs: seq<seq<real>> -> seq<real>,
                       resample: (seq<real>, seq<real>, seq<real>) -> seq<real>, getUncertainties: bool)
    : (r: Option<FitResult>)
    requires Tools(solver, errs, resample) && 1.0 + z != 0.0
    requires |mask| == |scif| == |sivarf| == Total(Sizes(es)) + nphot
    ensures r.None? <==> FitRaises(es, ts, nphot)
    ensures r.Some? ==> |r.value.coeffs| == |ts| && |r.value.coeffsErr| == |ts|
    ensures r.Some? ==> |r.value.background| == |r.value.full| == |r.value.fullDefined| == Total(Sizes(es))
  {
    if FitRaises(es, ts, nphot) then None
    else Some(Solve(Design(es, slices, ts, z, resample), |slices|, mask, scif, sivarf, solver, errs, getUncertainties))
  }

  /**
   * `nnls(AxT, data)`: the solver's coefficients, one per row of `a` that is
   * non-zero on the fitted pixels, for those rows weighted by `sivarf` on
   * the weighted data with the pedestal.
   */
  function Solution(a: seq<seq<real>>, mask: seq<bool>, scif: seq<real>, sivarf: seq<real>,
                        solver: (seq<seq<real>>, seq<real>) -> seq<real>): (sol: seq<real>)
    requires SolverShape(solver)
    requires |scif| == |sivarf| == |mask| && forall i :: 0 <= i < |a| ==> |a[i]| == |mask|
    ensures |sol| == Count(OkRows(a, mask))
  {
    var ok := OkRows(a, mask);
    solver(SolverRows(a, ok, sivarf, mask), SolverData(scif, sivarf, mask))
  }

  /**
   * The fit for a filled design matrix `a` whose first `next` rows are the
   * background: the solver's coefficients, the uncertainties (zeros unless
   * asked for), and what is assembled from them.
   */
  function Solve(a: seq<seq<real>>, next: nat, mask: seq<bool>, scif: seq<real>, sivarf: seq<real>,
                 solver: (seq<seq<real>>, seq<real>) -> seq<real>, errs: seq<seq<real>> -> seq<real>,
                 getUncertainties: bool): (f: FitResult)
    requires SolverShape(solver) && (forall rows :: |errs(rows)| == |rows|)
    requires next <= |a| && |scif| == |sivarf| == |mask| && forall i :: 0 <= i < |a| ==> |a[i]| == |mask|
    ensures |f.background| == |f.full| == |f.fullDefined| == |mask| && |f.coeffs| == |f.coeffsErr| == |a| - next
    ensures var ok := OkRows(a, mask); var sol := Solution(a, mask, scif, sivarf, solver);
      f.coeffs == Scatter(ok, sol, next, |a|)
      && (forall t :: 0 <= t < |a| - next && !ok[next + t] ==> f.coeffs[t] == 0.0 && f.coeffsErr[t] == 0.0)
      && (forall k :: 0 <= k < |mask| ==>
            f.background[k] == Dot(Scatter(ok, sol, 0, next), Column(a[..next], k)) - Pedestal)
  {
    Assemble(a, next, mask, scif, sivarf, Solution(a, mask, scif, sivarf, solver),
             Uncertainties(a, mask, sivarf, errs, getUncertainties))
  }

  /**
   * `covard`: the square roots of the covariance diagonal of the kept,
   * weighted rows on the fitted pixels when asked for, zeros otherwise; one
   * per kept row.
   */
  function Uncertainties(a: seq<seq<real>>, mask: seq<bool>, sivarf: seq<real>, errs: seq<seq<real>> -> seq<real>,
                         getUncertainties: bool): (err: seq<real>)
    requires (forall rows :: |errs(rows)| == |rows|)
    requires |sivarf| == |mask| && forall i :: 0 <= i < |a| ==> |a[i]| == |mask|
    ensures |err| == Count(OkRows(a, mask))
    ensures !getUncertainties ==> forall j :: 0 <= j < |err| ==> err[j] == 0.0
  {
    var ok := OkRows(a, mask);
    if getUncertainties then errs(SolverRows(a, ok, sivarf, mask)) else Fill(Count(ok), 0.0)
  }

  /**
   * `fit_at_z` as written: where it does not raise while building the
   * design matrix, the solver's coefficients assembled by
   * `AssembleAsWritten`, which also raises when background rows were
   * dropped and the coefficients cannot be scattered.
   */
  ghost function FitAtAsWritten(es: seq<StackedSpectrum>, slices: seq<Slice>, nphot: nat, mask: seq<bool>, scif: seq<real>,
                                sivarf: seq<real>, ts: seq<NamedTemplate>, z: real,
                                solver: (seq<seq<real>>, seq<real>) -> seq<real>, errs: seq<seq<real>> -> seq<real>,
                                resample: (seq<real>, seq<real>, seq<real>) -> seq<real>, getUncertainties: bool)
    : (r: Option<FitResult>)
    requires Tools(solver, errs, resample) && 1.0 + z != 0.0
    requires |mask| == |scif| == |sivarf| == Total(Sizes(es)) + nphot
    ensures FitRaises(es, ts, nphot) ==> r.None?
    ensures r.Some? ==> |r.value.coeffs| == |ts| && |r.value.coeffsErr| == |ts|
    ensures r.Some? ==> |r.value.background| == |r.value.full| == |r.value.fullDefined| == Total(Sizes(es))
  {
    if FitRaises(es, ts, nphot) then None
    else
      var a := Design(es, slices, ts, z, resample);
      AssembleAsWritten(a, |slices|, mask, scif, sivarf, Solution(a, mask, scif, sivarf, solver),
                        Uncertainties(a, mask, sivarf, errs, getUncertainties))
  }

  /**
   * `oktemp` keeps the background row of exposure `i` exactly when the
   * exposure has a fitted pixel.
   */
  lemma {:induction false} BackgroundRowKept(es: seq<StackedSpectrum>, slices: seq<Slice>, mask: seq<bool>,
                                             ts: seq<NamedTemplate>, z: real,
                                             resample: (seq<real>, seq<real>, seq<real>) -> seq<real>, i: nat)
    requires OnGrid(resample) && 1.0 + z != 0.0 && (|ts| > 0 ==> Covered(es) && HasWavelengths(ts))
    requires |mask| == Total(Sizes(es)) && i < |slices|
    ensures OkRows(Design(es, slices, ts, z, resample), mask)[i]
            <==> exists k :: slices[i].start <= k < slices[i].stop && k < |mask| && mask[k]
  {
    var a := Design(es, slices, ts, z, resample);
    var row := a[i];
    assert row == BackgroundRows(slices, Total(Sizes(es)))[i] by {
      assert a[..|slices|][i] == a[i];
    }
    assert forall k :: 0 <= k < |row| ==> row[k] == Indicator(slices[i], k);
    MaskedSumIndicator(row, mask);
    if exists k :: slices[i].start <= k < slices[i].stop && k < |mask| && mask[k] {
      var k :| slices[i].start <= k < slices[i].stop && k < |mask| && mask[k];
      assert row[k] == 1.0;
    }
  }

  /**
   * When every exposure has a fitted pixel, no background row is dropped
   * and `fit_at_z` as written is the fit.
   */
  lemma {:induction false} FitAtAsWrittenAgrees(es: seq<StackedSpectrum>, slices: seq<Slice>, nphot: nat, mask: seq<bool>,
                                                scif: seq<real>, sivarf: seq<real>, ts: seq<NamedTemplate>, z: real,
                                                solver: (seq<seq<real>>, seq<real>) -> seq<real>, errs: seq<seq<real>> -> seq<real>,
                                                resample: (seq<real>, seq<real>, seq<real>) -> seq<real>, getUncertainties: bool)
    requires Tools(solver, errs, resample) && 1.0 + z != 0.0
    requires |mask| == |scif| == |sivarf| == Total(Sizes(es)) + nphot
    requires forall i :: 0 <= i < |slices| ==> exists k :: slices[i].start <= k < slices[i].stop && k < |mask| && mask[k]
    ensures FitAtAsWritten(es, slices, nphot, mask, scif, sivarf, ts, z, solver, errs, resample, getUncertainties)
            == FitAt(es, slices, nphot, mask, scif, sivarf, ts, z, solver, errs, resample, getUncertainties)
  {
    if !FitRaises(es, ts, nphot) {
      var a := Design(es, slices, ts, z, resample);
      var sol, err := Solution(a, mask, scif, sivarf, solver), Uncertainties(a, mask, sivarf, errs, getUncertainties);
      forall i | 0 <= i < |slices| ensures OkRows(a, mask)[i] {
        BackgroundRowKept(es, slices, mask, ts, z, resample, i);
      }
      AssembleAsWrittenAgrees(a, |slices|, mask, scif, sivarf, sol, err);
      assert FitAtAsWritten(es, slices, nphot, mask, scif, sivarf, ts, z, solver, errs, resample, getUncertainties)
          == AssembleAsWritten(a, |slices|, mask, scif, sivarf, sol, err);
      assert Solve(a, |slices|, mask, scif, sivarf, solver, errs, getUncertainties)
          == Assemble(a, |slices|, mask, scif, sivarf, sol, err);
    }
  }

  /** Entry `p` of stack `j`'s part sits at offset `Total(Sizes(es)[..j]) + p` of a template row. */
  lemma {:induction false} TemplateRowAt(es: seq<StackedSpectrum>, s: Spectrum1D, resample: (seq<real>, seq<real>, seq<real>) -> seq<real>,
                      j: nat, p: nat)
    requires Covered(es) && OnGrid(resample) && |s.wave| > 0 && j < |es| && p < es[j].size
    ensures Total(Sizes(es)[..j]) + p < Total(Sizes(es))
    ensures TemplateRow(es, s, resample)[Total(Sizes(es)[..j]) + p] == TemplatePart(es[j], s, resample)[p]
  {
    var parts, sizes := TemplateParts(es, s, resample), Sizes(es);
    ConcatAtSized(parts, sizes, j, p);
    assert Concat(parts)[Total(sizes[..j]) + p] == parts[j][p];
    assert TemplateRow(es, s, resample) == Concat(parts);
  }

  /**
   * `A[self.Next+i, sl] = E.compute_model(spectrum_1d=s)`: on the slice of
   * stack `j`, the row of template `t` is the stack's 2D model of the
   * redshifted template where the template reaches the stack's covered
   * wavelengths, and zero where it does not.
   */
  lemma {:induction false} TemplateRowOnSlice(es: seq<StackedSpectrum>, slices: seq<Slice>, ts: seq<NamedTemplate>, z: real,
                           resample: (seq<real>, seq<real>, seq<real>) -> seq<real>, t: nat, j: nat, p: nat)
    requires OnGrid(resample) && 1.0 + z != 0.0 && Covered(es) && HasWavelengths(ts)
    requires Partition(slices, Sizes(es)) && t < |ts| && j < |es| && p < es[j].size
    ensures slices[j].start + p < Total(Sizes(es))
    ensures var s := Redshifted(ts[t].template, z);
      Design(es, slices, ts, z, resample)[|slices| + t][slices[j].start + p]
      == if Reaches(s, es[j].CoveredRange().value) then es[j].ComputeModelFor(Some(s), resample)[p] else 0.0
  {
    var s := Redshifted(ts[t].template, z);
    var row, part := TemplateRow(es, s, resample), TemplatePart(es[j], s, resample);
    PartitionStart(slices, Sizes(es), j);
    TemplateRowAt(es, s, resample, j, p);
    assert row[slices[j].start + p] == part[p];
    assert Design(es, slices, ts, z, resample)[|slices| + t] == row;
  }

  /** A template that reaches none of the stacks has an all-zero design row. */
  lemma {:induction false} MissedTemplateZeroRow(es: seq<StackedSpectrum>, slices: seq<Slice>, ts: seq<NamedTemplate>, z: real,
                              resample: (seq<real>, seq<real>, seq<real>) -> seq<real>, t: nat)
    requires OnGrid(resample) && 1.0 + z != 0.0 && Covered(es) && HasWavelengths(ts) && t < |ts|
    requires forall j :: 0 <= j < |es| ==> !Reaches(Redshifted(ts[t].template, z), es[j].CoveredRange().value)
    ensures var row := Design(es, slices, ts, z, resample)[|slices| + t];
      |row| == Total(Sizes(es)) && forall k :: 0 <= k < |row| ==> row[k] == 0.0
  {
    var s := Redshifted(ts[t].template, z);
    ConcatZero(TemplateParts(es, s, resample));
    assert Design(es, slices, ts, z, resample)[|slices| + t] == TemplateRow(es, s, resample);
  }

  /**
   * A template that reaches none of the stacks has an all-zero design row,
   * which `oktemp` drops: its coefficient and its uncertainty are zero.
   */
  lemma {:induction false} MissedTemplateZeroCoefficient(es: seq<StackedSpectrum>, slices: seq<Slice>, nphot: nat, mask: seq<bool>,
                                      scif: seq<real>, sivarf: seq<real>, ts: seq<NamedTemplate>, z: real,
                                      solver: (seq<seq<real>>, seq<real>) -> seq<real>, errs: seq<seq<real>> -> seq<real>,
                                      resample: (seq<real>, seq<real>, seq<real>) -> seq<real>, getUncertainties: bool,
                                      t: nat)
    requires Tools(solver, errs, resample) && 1.0 + z != 0.0
    requires |mask| == |scif| == |sivarf| == Total(Sizes(es)) + nphot
    requires !FitRaises(es, ts, nphot) && t < |ts|
    requires forall j :: 0 <= j < |es| ==> !Reaches(Redshifted(ts[t].template, z), es[j].CoveredRange().value)
    ensures var r := FitAt(es, slices, nphot, mask, scif, sivarf, ts, z, solver, errs, resample, getUncertainties);
      r.Some? && |r.value.coeffs| == |ts| && r.value.coeffs[t] == 0.0 && r.value.coeffsErr[t] == 0.0
  {
    assert nphot == 0 && Covered(es) && HasWavelengths(ts);
    MissedTemplateDropped(es, slices, mask, ts, z, resample, t);
    FitAtSolves(es, slices, nphot, mask, scif, sivarf, ts, z, solver, errs, resample, getUncertainties);
  }

  /** The all-zero row of a template that reaches none of the stacks is not among the rows `oktemp` keeps. */
  lemma {:induction false} MissedTemplateDropped(es: seq<StackedSpectrum>, slices: seq<Slice>, mask: seq<bool>,
                                                 ts: seq<NamedTemplate>, z: real,
                                                 resample: (seq<real>, seq<real>, seq<real>) -> seq<real>, t: nat)
    requires OnGrid(resample) && 1.0 + z != 0.0 && Covered(es) && HasWavelengths(ts) && t < |ts|
    requires |mask| == Total(Sizes(es))
    requires forall j :: 0 <= j < |es| ==> !Reaches(Redshifted(ts[t].template, z), es[j].CoveredRange().value)
    ensures !OkRows(Design(es, slices, ts, z, resample), mask)[|slices| + t]
  {
    var a := Design(es, slices, ts, z, resample);
    var row := |slices| + t;
    MissedTemplateZeroRow(es, slices, ts, z, resample, t);
    assert forall k :: 0 <= k < |mask| && mask[k] ==> a[row][k] == 0.0;
    ZeroRowDropped(a, mask, row);
  }

  /** Where `fit_at_z` does not raise, its result is the fit of the filled design matrix. */
  lemma {:induction false} FitAtSolves(es: seq<StackedSpectrum>, slices: seq<Slice>, nphot: nat, mask: seq<bool>,
                                       scif: seq<real>, sivarf: seq<real>, ts: seq<NamedTemplate>, z: real,
                                       solver: (seq<seq<real>>, seq<real>) -> seq<real>, errs: seq<seq<real>> -> seq<real>,
                                       resample: (seq<real>, seq<real>, seq<real>) -> seq<real>, getUncertainties: bool)
    requires Tools(solver, errs, resample) && 1.0 + z != 0.0
    requires |mask| == |scif| == |sivarf| == Total(Sizes(es)) + nphot
    requires !FitRaises(es, ts, nphot)
    ensures FitAt(es, slices, nphot, mask, scif, sivarf, ts, z, solver, errs, resample, getUncertainties)
            == Some(Solve(Design(es, slices, ts, z, resample), |slices|, mask, scif, sivarf, solver, errs, getUncertainties))
  {
  }

  /**
   * Over a partition, column `k` of the background rows picks out the
   * level of the one exposure whose slice holds `k`.
   */
  lemma {:induction false} BackgroundLevel(rows: seq<seq<real>>, slices: seq<Slice>, sizes: seq<nat>, levels: seq<real>, i: nat, k: nat)
    requires Partition(slices, sizes) && |rows| == |levels| == |slices|
    requires forall r :: 0 <= r < |rows| ==> |rows[r]| == Total(sizes)
    requires forall r, q :: 0 <= r < |rows| && 0 <= q < Total(sizes) ==> rows[r][q] == Indicator(slices[r], q)
    requires i < |slices| && slices[i].start <= k < slices[i].stop
    ensures k < Total(sizes)
    ensures Dot(levels, Column(rows, k)) == levels[i]
  {
    PartitionStart(slices, sizes, i);
    TotalPrefixMonotone(sizes, i + 1, |sizes|);
    assert sizes[..|sizes|] == sizes;
    PartitionOwner(slices, sizes, k);
    DotOneHot(levels, Column(rows, k), i);
  }

  /**
   * `background = np.dot(coeffs[:Next], A[:Next,:]) - pedestal`: on the
   * slice of exposure `i` the background is that exposure's own level
   * (its background row's coefficient, zero if the row was dropped) less
   * the pedestal.
   */
  lemma {:induction false} BackgroundPerExposure(es: seq<StackedSpectrum>, slices: seq<Slice>, nphot: nat, mask: seq<bool>,
                              scif: seq<real>, sivarf: seq<real>, ts: seq<NamedTemplate>, z: real,
                              solver: (seq<seq<real>>, seq<real>) -> seq<real>, errs: seq<seq<real>> -> seq<real>,
                              resample: (seq<real>, seq<real>, seq<real>) -> seq<real>, getUncertainties: bool,
                              i: nat, k: nat)
    requires Tools(solver, errs, resample) && 1.0 + z != 0.0
    requires |mask| == |scif| == |sivarf| == Total(Sizes(es)) + nphot
    requires !FitRaises(es, ts, nphot) && Partition(slices, Sizes(es))
    requires i < |slices| && slices[i].start <= k < slices[i].stop
    ensures var a := Design(es, slices, ts, z, resample);
      var r := FitAt(es, slices, nphot, mask, scif, sivarf, ts, z, solver, errs, resample, getUncertainties);
      r.Some? && k < |r.value.background|
      && r.value.background[k] == Scatter(OkRows(a, mask), Solution(a, mask, scif, sivarf, solver), 0, |slices|)[i] - Pedestal
  {
    var a := Design(es, slices, ts, z, resample);
    var bg := a[..|slices|];
    var levels := Scatter(OkRows(a, mask), Solution(a, mask, scif, sivarf, solver), 0, |slices|);
    BackgroundLevel(bg, slices, Sizes(es), levels, i, k);
    var f := Solve(a, |slices|, mask, scif, sivarf, solver, errs, getUncertainties);
    assert FitAt(es, slices, nphot, mask, scif, sivarf, ts, z, solver, errs, resample, getUncertainties) == Some(f);
    assert f.background[k] == Dot(levels, Column(bg, k)) - Pedestal;
  }

  /** What a fit reads of the fitter: the stacks, the slice table, the photometric count, the fit mask, the data and its weights. */
  datatype FitData = FitData(es: seq<StackedSpectrum>, slices: seq<Slice>, nphot: nat, mask: seq<bool>,
                             scif: seq<real>, sivarf: seq<real>)

  ghost predicate FitDataValid(d: FitData)
  {
    |d.mask| == |d.scif| == |d.sivarf| == Total(Sizes(d.es)) + d.nphot
  }

  /** `fit_at_z` on fitter data `d`. */
  ghost function FitOn(d: FitData, z: real, ts: seq<NamedTemplate>, solver: (seq<seq<real>>, seq<real>) -> seq<real>,
                       errs: seq<seq<real>> -> seq<real>, resample: (seq<real>, seq<real>, seq<real>) -> seq<real>,
                       getUncertainties: bool): Option<FitResult>
    requires FitDataValid(d) && Tools(solver, errs, resample) && 1.0 + z != 0.0
  {
    FitAt(d.es, d.slices, d.nphot, d.mask, d.scif, d.sivarf, ts, z, solver, errs, resample, getUncertainties)
  }

  /** The chi-squared of `fit_at_z` (without uncertainties) at redshift `z`, where it does not raise. */
  ghost function ChiAt(d: FitData, z: real, ts: seq<NamedTemplate>, solver: (seq<seq<real>>, seq<real>) -> seq<real>,
                       errs: seq<seq<real>> -> seq<real>, resample: (seq<real>, seq<real>, seq<real>) -> seq<real>): real
    requires FitDataValid(d) && Tools(solver, errs, resample) && z > -1.0 && !FitRaises(d.es, ts, d.nphot)
  {
    FitOn(d, z, ts, solver, errs, resample, false).value.chi2
  }

  /** The chi-squared of `fit_at_z` at each redshift of a grid, in grid order; `None` where it raises. */
  ghost function GridChis(d: FitData, grid: seq<real>, ts: seq<NamedTemplate>,
                          solver: (seq<seq<real>>, seq<real>) -> seq<real>, errs: seq<seq<real>> -> seq<real>,
                          resample: (seq<real>, seq<real>, seq<real>) -> seq<real>): (c: Option<seq<real>>)
    requires FitDataValid(d) && Tools(solver, errs, resample) && AboveMinusOne(grid)
    ensures c.None? <==> |grid| > 0 && FitRaises(d.es, ts, d.nphot)
    ensures c.Some? ==> |c.value| == |grid|
  {
    if |grid| > 0 && FitRaises(d.es, ts, d.nphot) then None
    else Some(seq(|grid|, i requires 0 <= i < |grid| => ChiAt(d, grid[i], ts, solver, errs, resample)))
  }

  /** The chi-squared values of a grid's prefix are a prefix of the grid's. */
  lemma {:induction false} GridChisPrefix(d: FitData, grid: seq<real>, n: nat, ts: seq<NamedTemplate>,
                       solver: (seq<seq<real>>, seq<real>) -> seq<real>, errs: seq<seq<real>> -> seq<real>,
                       resample: (seq<real>, seq<real>, seq<real>) -> seq<real>)
    requires FitDataValid(d) && Tools(solver, errs, resample) && AboveMinusOne(grid) && n <= |grid|
    requires !FitRaises(d.es, ts, d.nphot)
    ensures GridChis(d, grid[..n], ts, solver, errs, resample).value == GridChis(d, grid, ts, solver, errs, resample).value[..n]
  {
    var p, g := GridChis(d, grid[..n], ts, solver, errs, resample).value, GridChis(d, grid, ts, solver, errs, resample).value;
    forall k | 0 <= k < n ensures p[k] == g[k] {
      assert grid[..n][k] == grid[k];
    }
  }

  /** The chi-squared values of a grid prefix, extended by the fit at the next redshift. */
  lemma {:induction false} GridChisSnoc(d: FitData, grid: seq<real>, i: nat, ts: seq<NamedTemplate>,
                     solver: (seq<seq<real>>, seq<real>) -> seq<real>, errs: seq<seq<real>> -> seq<real>,
                     resample: (seq<real>, seq<real>, seq<real>) -> seq<real>, c: seq<real>)
    requires FitDataValid(d) && Tools(solver, errs, resample) && AboveMinusOne(grid) && i < |grid|
    requires !FitRaises(d.es, ts, d.nphot) && GridChis(d, grid[..i], ts, solver, errs, resample) == Some(c)
    ensures GridChis(d, grid[..i + 1], ts, solver, errs, resample) == Some(c + [ChiAt(d, grid[i], ts, solver, errs, resample)])
  {
    var pre := grid[..i + 1];
    var g := GridChis(d, pre, ts, solver, errs, resample).value;
    assert pre[..i] == grid[..i];
    GridChisPrefix(d, pre, i, ts, solver, errs, resample);
    assert g[i] == ChiAt(d, grid[i], ts, solver, errs, resample) by {
      assert pre[i] == grid[i];
    }
    LastSplit(g);
  }

  /** A non-empty sequence is its entries but the last, then the last. */
  lemma {:induction false} LastSplit<T>(s: seq<T>)
    requires |s| > 0
    ensures s == s[..|s| - 1] + [s[|s| - 1]]
  {
  }

  /** The coarse grid: `log_zgrid(zr, dz0)`. */
  function CoarseGrid(zr: (real, real), dz0: real, logZGrid: (real, real, real) -> seq<real>): (g: seq<real>)
    requires LogGrid(logZGrid)
    ensures AboveMinusOne(g)
  {
    var lo, hi := zr.0, zr.1;
    assert forall k :: 0 <= k < |logZGrid(lo, hi, dz0)| ==> logZGrid(lo, hi, dz0)[k] > -1.0;
    logZGrid(lo, hi, dz0)
  }

  /**
   * Refinement passes `iter` to 6 of `fit_zgrid`, each on the grid of
   * `RefineGrid` around the previous pass's least penalised chi-squared;
   * `None` where a pass raises (`argmin` of an empty grid, or `fit_at_z`).
   */
  ghost function Refinements(d: FitData, zi: seq<real>, ci: seq<real>, iter: nat, ts: seq<NamedTemplate>,
                             prior: Option<seq<real> -> seq<real>>, dz0: real,
                             solver: (seq<seq<real>>, seq<real>) -> seq<real>, errs: seq<seq<real>> -> seq<real>,
                             resample: (seq<real>, seq<real>, seq<real>) -> seq<real>,
                             logZGrid: (real, real, real) -> seq<real>): (r: Option<Scan>)
    requires FitDataValid(d) && Tools(solver, errs, resample) && PriorOk(prior) && LogGrid(logZGrid)
    requires |zi| == |ci| && 1 <= iter <= 7
    ensures r.Some? ==> |r.value.z| == |r.value.chi2| && AboveMinusOne(r.value.z)
    decreases 7 - iter
  {
    if iter == 7 then Some(Scan([], []))
    else if |zi| == 0 then None
    else
      var g := RefineGrid(zi, ci, prior, dz0, iter, logZGrid);
      match GridChis(d, g, ts, solver, errs, resample)
      case None => None
      case Some(c) => Prepend(Scan(g, c), Refinements(d, g, c, iter + 1, ts, prior, dz0, solver, errs, resample, logZGrid))
  }

  /**
   * One refinement pass: it raises where the previous grid is empty or the
   * fits on the new grid raise, and otherwise its samples join the
   * accumulated ones ahead of the later passes'.
   */
  lemma {:induction false} RefinementStep(d: FitData, zi: seq<real>, ci: seq<real>, iter: nat, ts: seq<NamedTemplate>,
                       prior: Option<seq<real> -> seq<real>>, dz0: real,
                       solver: (seq<seq<real>>, seq<real>) -> seq<real>, errs: seq<seq<real>> -> seq<real>,
                       resample: (seq<real>, seq<real>, seq<real>) -> seq<real>,
                       logZGrid: (real, real, real) -> seq<real>, acc: Scan)
    requires FitDataValid(d) && Tools(solver, errs, resample) && PriorOk(prior) && LogGrid(logZGrid)
    requires |zi| == |ci| && 1 <= iter < 7
    ensures |zi| == 0 ==> Refinements(d, zi, ci, iter, ts, prior, dz0, solver, errs, resample, logZGrid).None?
    ensures |zi| > 0 ==>
      var g := RefineGrid(zi, ci, prior, dz0, iter, logZGrid);
      var c := GridChis(d, g, ts, solver, errs, resample);
      (c.None? ==> Refinements(d, zi, ci, iter, ts, prior, dz0, solver, errs, resample, logZGrid).None?)
      && (c.Some? ==> Prepend(acc, Refinements(d, zi, ci, iter, ts, prior, dz0, solver, errs, resample, logZGrid))
                      == Prepend(Scan(acc.z + g, acc.chi2 + c.value),
                                 Refinements(d, g, c.value, iter + 1, ts, prior, dz0, solver, errs, resample, logZGrid)))
  {
    if |zi| > 0 {
      var g := RefineGrid(zi, ci, prior, dz0, iter, logZGrid);
      var c := GridChis(d, g, ts, solver, errs, resample);
      if c.Some? {
        PrependPrepend(acc, Scan(g, c.value), Refinements(d, g, c.value, iter + 1, ts, prior, dz0, solver, errs, resample, logZGrid));
      }
    }
  }

  /**
   * The scan of `fit_zgrid`: the coarse grid (fitted with `nnls`), then the
   * six refinement passes (fitted with `solver`), all samples appended in
   * the order computed.
   */
  ghost function ScanSpec(d: FitData, zr: (real, real), dz0: real, ts: seq<NamedTemplate>,
                          prior: Option<seq<real> -> seq<real>>, nnls: (seq<seq<real>>, seq<real>) -> seq<real>,
                          solver: (seq<seq<real>>, seq<real>) -> seq<real>, errs: seq<seq<real>> -> seq<real>,
                          resample: (seq<real>, seq<real>, seq<real>) -> seq<real>,
                          logZGrid: (real, real, real) -> seq<real>): (r: Option<Scan>)
    requires FitDataValid(d) && Tools(nnls, errs, resample) && Tools(solver, errs, resample)
    requires PriorOk(prior) && LogGrid(logZGrid)
    ensures r.Some? ==> |r.value.z| == |r.value.chi2| > 0 && AboveMinusOne(r.value.z)
  {
    var g := CoarseGrid(zr, dz0, logZGrid);
    match GridChis(d, g, ts, nnls, errs, resample)
    case None => None
    case Some(c) => Prepend(Scan(g, c), Refinements(d, g, c, 1, ts, prior, dz0, solver, errs, resample, logZGrid))
  }

  // ---------------------------------------------------------------------
  // StackFitter
  // ---------------------------------------------------------------------

  class StackFitter {
    const grisms: seq<string>
    const ext: seq<string>
    const E: seq<StackedSpectrum>
    const Next: nat
    const Ndata: nat
    const Nphot: nat
    const scif: seq<real>
    const ivarf: seq<real>
    const sivarf: seq<real>
    const wavef: seq<real>
    const weightf: seq<real>
    const fitMask: array<bool>
    var DoF: int
    const slices: seq<Slice>
    const Abg: array2<real>
    /** What `__init__` computed, the running minima and stack masks included. */
    ghost const built: Built

    /** The shapes every fit relies on. */
    ghost predicate Valid()
      reads this, Abg
    {
      Layout(E, ext, Next, Ndata, slices) && Background(Abg, slices, Next, Ndata)
      && |scif| == Ndata + Nphot && |ivarf| == Ndata + Nphot && |sivarf| == Ndata + Nphot
      && |wavef| == Ndata + Nphot && |weightf| == Ndata + Nphot && fitMask.Length == Ndata + Nphot
      && (forall p :: 0 <= p < |weightf| ==> weightf[p] > 0.0)
    }

    /** `DoF = int((fit_mask*weightf).sum())`. */
    ghost predicate Counted()
      requires Valid()
      reads this, Abg, fitMask
    {
      DoF == Trunc(MaskedSum(weightf, fitMask[..]))
    }

    /** Set the fitter's attributes to the values `__init__` computed. */
    constructor (grisms: seq<string>, b: Built, abg: array2<real>, mask: array<bool>, nphot: nat)
      requires Layout(b.es, b.ext, b.next, b.ndata, b.slices) && Background(abg, b.slices, b.next, b.ndata)
      requires JointValid(b.j, b.ndata + nphot) && mask[..] == b.j.mask
      ensures Valid() && Counted()
      ensures this.grisms == grisms && Nphot == nphot && built == b && Abg == abg && fitMask == mask
      ensures ext == b.ext && Next == b.next && E == b.es && Ndata == b.ndata && slices == b.slices
      ensures Joint(scif, ivarf, sivarf, wavef, weightf, fitMask[..], DoF) == b.j
    {
      this.grisms, ext, E, Next, Ndata, Nphot := grisms, b.ext, b.es, b.next, b.ndata, nphot;
      scif, ivarf, sivarf, wavef, weightf := b.j.scif, b.j.ivarf, b.j.sivarf, b.j.wavef, b.j.weightf;
      fitMask, DoF, slices, Abg, built := mask, b.j.dof, b.slices, abg, b;
    }

    /**
     * `fit_at_z`: fill the design matrix, keep the rows that are non-zero
     * on the fitted pixels, solve for their coefficients and assemble the
     * fit. `None` where the source raises.
     */
    method FitAtZ(z: real, ts: seq<NamedTemplate>, solver: (seq<seq<real>>, seq<real>) -> seq<real>,
                  errs: seq<seq<real>> -> seq<real>, resample: (seq<real>, seq<real>, seq<real>) -> seq<real>,
                  getUncertainties: bool)
      returns (r: Option<FitResult>)
      requires Valid() && Tools(solver, errs, resample) && 1.0 + z != 0.0
      ensures r == FitAt(E, slices, Nphot, fitMask[..], scif, sivarf, ts, z, solver, errs, resample, getUncertainties)
    {
      var design := FillDesign(E, slices, Abg, ts, z, resample);
      if design.None? || Nphot > 0 {
        assert FitRaises(E, ts, Nphot);
        return None;
      }
      FitAtSolves(E, slices, Nphot, fitMask[..], scif, sivarf, ts, z, solver, errs, resample, getUncertainties);
      r := Some(Solve(Rows(design.value), Next, fitMask[..], scif, sivarf, solver, errs, getUncertainties));
    }

    /** What a fit reads of the fitter's current state. */
    ghost function Data(): (d: FitData)
      requires Valid()
      reads this, Abg, fitMask
      ensures FitDataValid(d)
    {
      FitData(E, slices, Nphot, fitMask[..], scif, sivarf)
    }

    /** `fit_at_z(z, ...).chi2`, without uncertainties; `None` where it raises. */
    method ChiAtZ(z: real, ts: seq<NamedTemplate>, solver: (seq<seq<real>>, seq<real>) -> seq<real>,
                  errs: seq<seq<real>> -> seq<real>, resample: (seq<real>, seq<real>, seq<real>) -> seq<real>)
      returns (c: Option<real>)
      requires Valid() && Tools(solver, errs, resample) && z > -1.0
      ensures c.None? <==> FitRaises(E, ts, Nphot)
      ensures c.Some? ==> c.value == ChiAt(Data(), z, ts, solver, errs, resample)
    {
      var r := FitAtZ(z, ts, solver, errs, resample, false);
      if r.None? {
        return None;
      }
      return Some(r.value.chi2);
    }

    /** One pass of the scan: `fit_at_z` at each redshift of the grid, keeping its chi-squared. */
    method ScanGrid(grid: seq<real>, ts: seq<NamedTemplate>, solver: (seq<seq<real>>, seq<real>) -> seq<real>,
                    errs: seq<seq<real>> -> seq<real>, resample: (seq<real>, seq<real>, seq<real>) -> seq<real>)
      returns (chi2: Option<seq<real>>)
      requires Valid() && Tools(solver, errs, resample) && AboveMinusOne(grid)
      ensures chi2 == GridChis(Data(), grid, ts, solver, errs, resample)
    {
      ghost var d := Data();
      var c: seq<real> := [];
      for i := 0 to |grid|
        invariant GridChis(d, grid[..i], ts, solver, errs, resample) == Some(c)
      {
        var r := ChiAtZ(grid[i], ts, solver, errs, resample);
        if r.None? {
          return None;
        }
        GridChisSnoc(d, grid, i, ts, solver, errs, resample, c);
        c := c + [r.value];
      }
      assert grid[..|grid|] == grid;
      return Some(c);
    }

    /** The coarse pass and the six refinement passes of `fit_zgrid`, appending every pass's samples. */
    method ScanRedshifts(zr: (real, real), dz0: real, ts: seq<NamedTemplate>, prior: Option<seq<real> -> seq<real>>,
                         nnls: (seq<seq<real>>, seq<real>) -> seq<real>, solver: (seq<seq<real>>, seq<real>) -> seq<real>,
                         errs: seq<seq<real>> -> seq<real>, resample: (seq<real>, seq<real>, seq<real>) -> seq<real>,
                         logZGrid: (real, real, real) -> seq<real>)
      returns (r: Option<Scan>)
      requires Valid() && Tools(nnls, errs, resample) && Tools(solver, errs, resample) && PriorOk(prior) && LogGrid(logZGrid)
      ensures r == ScanSpec(Data(), zr, dz0, ts, prior, nnls, solver, errs, resample, logZGrid)
    {
      ghost var d := Data();
      var z := CoarseGrid(zr, dz0, logZGrid);
      var chi2 := ScanGrid(z, ts, nnls, errs, resample);
      if chi2.None? {
        return None;
      }
      var acc := Scan(z, chi2.value);
      var zi, ci := z, chi2.value;
      for iter := 1 to 7
        invariant |zi| == |ci| && AboveMinusOne(zi)
        invariant Prepend(acc, Refinements(d, zi, ci, iter, ts, prior, dz0, solver, errs, resample, logZGrid))
                  == ScanSpec(d, zr, dz0, ts, prior, nnls, solver, errs, resample, logZGrid)
      {
        RefinementStep(d, zi, ci, iter, ts, prior, dz0, solver, errs, resample, logZGrid, acc);
        if |zi| == 0 {
          return None;
        }
        var g := RefineGrid(zi, ci, prior, dz0, iter, logZGrid);
        var c := ScanGrid(g, ts, solver, errs, resample);
        if c.None? {
          return None;
        }
        acc := Scan(acc.z + g, acc.chi2 + c.value);
        zi, ci := g, c.value;
      }
      assert acc.z + [] == acc.z && acc.chi2 + [] == acc.chi2;
      return Some(acc);
    }

    /**
     * Outlier rejection: `fit_mask &= (resid*sivarf < outlier_threshold)`
     * and the degrees of freedom recounted, when the threshold is positive.
     */
    method MaskOutliers(full: seq<real>, bg: seq<real>, defined: seq<bool>, threshold: real)
      modifies this, fitMask
      requires Valid() && Counted() && |full| == |scif| && |bg| == |scif| && |defined| == |scif|
      ensures Valid() && Counted() && DoF <= old(DoF)
      ensures fitMask[..] == if threshold > 0.0 then And(old(fitMask[..]), OutlierMask(scif, full, bg, sivarf, defined, threshold))
                             else old(fitMask[..])
    {
      if threshold > 0.0 {
        var keep := OutlierMask(scif, full, bg, sivarf, defined, threshold);
        NarrowingLowersDoF(weightf, fitMask[..], keep);
        NarrowInPlace(fitMask, keep);
        DoF := Trunc(MaskedSum(weightf, fitMask[..]));
      }
    }

    /**
     * `fit_zgrid`: scan the redshifts, co-sort the samples and add the
     * prior, fit the individual templates `tI` with uncertainties at the
     * best redshift, reject outliers, and build the 1D templates and the
     * line table. `None` where the source raises.
     */
    method FitZGrid(zr: (real, real), dz0: real, tComplex: seq<NamedTemplate>, tI: seq<NamedTemplate>,
                    prior: Option<seq<real> -> seq<real>>, nnls: (seq<seq<real>>, seq<real>) -> seq<real>,
                    solver: (seq<seq<real>>, seq<real>) -> seq<real>, errs: seq<seq<real>> -> seq<real>,
                    resample: (seq<real>, seq<real>, seq<real>) -> seq<real>, logZGrid: (real, real, real) -> seq<real>,
                    outlierThreshold: real)
      returns (r: Option<ZFit>)
      modifies this, fitMask
      requires Valid() && Counted() && Tools(nnls, errs, resample) && Tools(solver, errs, resample)
      requires PriorOk(prior) && LogGrid(logZGrid) && (|tI| > 0 ==> SharedGrid(tI))
      ensures Valid() && Counted() && Narrower(fitMask[..], old(fitMask[..])) && DoF <= old(DoF)
      ensures ZGridFit(old(Data()), r, zr, dz0, tComplex, tI, prior, nnls, solver, errs, resample, logZGrid, DoF)
      ensures ScanSpec(old(Data()), zr, dz0, tComplex, prior, nnls, solver, errs, resample, logZGrid).None?
              || FitRaises(old(Data()).es, tI, old(Data()).nphot)
              ==> fitMask[..] == old(fitMask[..]) && DoF == old(DoF)
      ensures r.Some? ==> fitMask[..] == if outlierThreshold > 0.0
        then And(old(fitMask[..]), OutlierMask(scif, r.value.best.full, r.value.best.background, sivarf,
                                               r.value.best.fullDefined, outlierThreshold))
        else old(fitMask[..])
    {
      var s := ScanRedshifts(zr, dz0, tComplex, prior, nnls, solver, errs, resample, logZGrid);
      if s.None? {
        return None;
      }
      var t := SortScan(s.value, prior);
      var zbest := BestZ(t.z, t.chi2);
      var best := FitAtZ(zbest, tI, solver, errs, resample, true);
      if best.None? {
        return None;
      }
      MaskOutliers(best.value.full, best.value.background, best.value.fullDefined, outlierThreshold);
      r := Report(s.value, t, zbest, prior, tI, best.value, DoF);
    }
  }

  /**
   * The end of `fit_zgrid`: the 1D templates and the line table built from
   * the best fit's coefficients, and the summary of the sorted scan.
   * `None` where the source raises, with no individual templates.
   */
  method Report(s: Scan, t: Scan, zbest: real, prior: Option<seq<real> -> seq<real>>, tI: seq<NamedTemplate>,
                best: FitResult, dof: int)
    returns (r: Option<ZFit>)
    requires |s.z| == |s.chi2| > 0 && PriorOk(prior) && t == SortScan(s, prior) && zbest == BestZ(t.z, t.chi2)
    requires |best.coeffs| == |best.coeffsErr| == |tI| && (|tI| > 0 ==> SharedGrid(tI))
    ensures r.None? <==> |tI| == 0
    ensures r.Some? ==> |tI| > 0 && Reports(r.value, s, prior, tI, best, dof)
  {
    var templates := Generate1DTemplates(tI, best.coeffs);
    if templates.None? {
      return None;
    }
    var tc := templates.value.0;
    var lines := LineTable(tI, best.coeffs, best.coeffsErr, tc);
    r := Some(ZFit(t, zbest, Min(t.chi2), Max(t.chi2), Area25(t.z, t.chi2), dof, prior.Some?, best,
                   tc, templates.value.1, lines));
  }

  /**
   * What `fit_zgrid` returns on fitter data `d`: `None` where the scan, the
   * fit of the individual templates or the 1D templates raise; otherwise
   * the report of the scan and of the fit with uncertainties at the best
   * redshift, with `dof` degrees of freedom.
   */
  ghost predicate ZGridFit(d: FitData, r: Option<ZFit>, zr: (real, real), dz0: real, tComplex: seq<NamedTemplate>,
                           tI: seq<NamedTemplate>, prior: Option<seq<real> -> seq<real>>,
                           nnls: (seq<seq<real>>, seq<real>) -> seq<real>, solver: (seq<seq<real>>, seq<real>) -> seq<real>,
                           errs: seq<seq<real>> -> seq<real>, resample: (seq<real>, seq<real>, seq<real>) -> seq<real>,
                           logZGrid: (real, real, real) -> seq<real>, dof: int)
    requires FitDataValid(d) && Tools(nnls, errs, resample) && Tools(solver, errs, resample)
    requires PriorOk(prior) && LogGrid(logZGrid) && (|tI| > 0 ==> SharedGrid(tI))
  {
    var s := ScanSpec(d, zr, dz0, tComplex, prior, nnls, solver, errs, resample, logZGrid);
    (r.None? <==> s.None? || FitRaises(d.es, tI, d.nphot) || |tI| == 0)
    && (r.Some? ==>
      s.Some? && |tI| > 0 && |r.value.best.coeffs| == |r.value.best.coeffsErr| == |tI|
      && Reports(r.value, s.value, prior, tI, r.value.best, dof) && r.value.zbest > -1.0
      && r.value.best == FitOn(d, r.value.zbest, tI, solver, errs, resample, true).value)
  }

  /**
   * `StackFitter.__init__`: select the extensions, open them, drop those
   * with a degenerate kernel, mask drizzle overlaps when fitting the
   * position angles separately, concatenate the stacks into joint
   * vectors, build the slice table and the background matrix, and append
   * the kept photometric points.
   */
  method NewStackFitter(hdr: PrimaryHeader, hdus: map<string, StackHdu>, sysErr: real, maskMin: real, fitStacks: bool,
                        fcontam: real, pas: Option<seq<string>>, extensions: Option<seq<string>>, minIvar: real,
                        overlapThreshold: real, photometry: Option<Photometry>, sqrt: real -> real, exp: real -> real)
    returns (f: StackFitter)
    requires |hdr.pasOf| == |hdr.grisms| && PositiveExp(exp)
    requires Readable(Extensions(hdr.grisms, hdr.pasOf, fitStacks, pas, extensions), hdus)
    requires Count(KernelOk(Extensions(hdr.grisms, hdr.pasOf, fitStacks, pas, extensions), hdus)) > 0
    requires !fitStacks ==> GrismShapes(hdr.grisms, Extensions(hdr.grisms, hdr.pasOf, fitStacks, pas, extensions), hdus)
    requires photometry.Some? ==> PhotometryValid(photometry.value)
    ensures fresh(f) && fresh(f.fitMask) && fresh(f.Abg)
    ensures forall k :: 0 <= k < |f.E| ==> fresh(f.E[k].fitMask)
    ensures f.Valid() && f.Counted()
    ensures f.grisms == hdr.grisms && f.Nphot == PhotCount(photometry)
    ensures Setup(hdr, hdus, maskMin, fitStacks, pas, extensions, minIvar, overlapThreshold, photometry, sqrt, f.built)
    ensures f.ext == f.built.ext && f.Next == f.built.next && f.E == f.built.es && f.Ndata == f.built.ndata
    ensures f.slices == f.built.slices
    ensures Joint(f.scif, f.ivarf, f.sivarf, f.wavef, f.weightf, f.fitMask[..], f.DoF) == f.built.j
  {
    var b, abg, mask := Build(hdr, hdus, sysErr, maskMin, fitStacks, fcontam, pas, extensions, minIvar,
                              overlapThreshold, photometry, sqrt, exp);
    f := new StackFitter(hdr.grisms, b, abg, mask, PhotCount(photometry));
  }
}
