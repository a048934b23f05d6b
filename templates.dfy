/**
 * The best-fit 1D templates of `StackFitter.generate_1D_templates` and the
 * line table of `fit_zgrid`: line numbering, line fluxes and equivalent
 * widths with their sentinel.
 *
 * Templates are added in the source by an addition operator of the template
 * class, which is not part of this model; here every template of a set is
 * taken on one shared, non-empty wavelength grid, where that addition is the
 * addition of fluxes.
 */
module Templates {
  import opened Numerics

  /** A 1D template: wavelengths and fluxes. */
  datatype Template = Template(wave: seq<real>, flux: seq<real>)

  /** An entry of the template dictionary: its key and its template. */
  datatype NamedTemplate = NamedTemplate(name: string, template: Template)

  /** A line template: its key starts with `line`. */
  predicate IsLine(name: string)
  {
    |name| >= 4 && name[..4] == "line"
  }

  /** Every template of the set is sampled on the first template's non-empty grid. */
  predicate SharedGrid(ts: seq<NamedTemplate>)
  {
    |ts| > 0 && |ts[0].template.wave| > 0
    && forall i :: 0 <= i < |ts| ==>
         ts[i].template.wave == ts[0].template.wave && |ts[i].template.flux| == |ts[0].template.wave|
  }

  /** `zscale(0, scalar=c)`: at redshift zero the wavelengths stay and the flux is scaled by `c`. */
  function ZScale0(t: Template, c: real): (r: Template)
    ensures r.wave == t.wave && r.flux == Scale(t.flux, c)
  {
    Template(t.wave, Scale(t.flux, c))
  }

  /** The linear combination `sum_i w[i] * flux_i` on a grid of `m` samples. */
  function Combination(ts: seq<NamedTemplate>, w: seq<real>, m: nat): (r: seq<real>)
    requires |w| == |ts| && forall i :: 0 <= i < |ts| ==> |ts[i].template.flux| == m
    ensures |r| == m
    decreases |ts|
  {
    if |ts| == 0 then Fill(m, 0.0)
    else
      var n := |ts| - 1;
      Add(Combination(ts[..n], w[..n], m), Scale(ts[n].template.flux, w[n]))
  }

  /** The weights of the continuum template: every line after the first template is weighted zero. */
  function ContinuumWeights(ts: seq<NamedTemplate>, coeffs: seq<real>): (w: seq<real>)
    requires |coeffs| == |ts|
    ensures |w| == |ts|
  {
    seq(|ts|, i requires 0 <= i < |ts| => if i > 0 && IsLine(ts[i].name) then 0.0 else coeffs[i])
  }

  /** The weights of the line part: the coefficients of the lines after the first template. */
  function LineWeights(ts: seq<NamedTemplate>, coeffs: seq<real>): (w: seq<real>)
    requires |coeffs| == |ts|
    ensures |w| == |ts|
  {
    seq(|ts|, i requires 0 <= i < |ts| => if i > 0 && IsLine(ts[i].name) then coeffs[i] else 0.0)
  }

  /**
   * `generate_1D_templates(coeffs)`: the continuum template `tc` adds every
   * template scaled by its coefficient except lines (scaled by zero), the
   * full template `tl` adds every template; the first template enters both
   * with its coefficient. With no templates the source fails on an unbound
   * name (`None`).
   */
  method Generate1DTemplates(tI: seq<NamedTemplate>, coeffs: seq<real>) returns (r: Option<(Template, Template)>)
    requires |coeffs| == |tI| && (|tI| == 0 || SharedGrid(tI))
    ensures r.None? <==> |tI| == 0
    ensures r.Some? ==> var grid := tI[0].template.wave;
      r.value.0 == Template(grid, Combination(tI, ContinuumWeights(tI, coeffs), |grid|))
      && r.value.1 == Template(grid, Combination(tI, coeffs, |grid|))
  {
    if |tI| == 0 {
      return None;
    }
    var grid := tI[0].template.wave;
    var m := |grid|;
    var tc := ZScale0(tI[0].template, coeffs[0]);
    var tl := ZScale0(tI[0].template, coeffs[0]);
    CombinationFirst(tI, ContinuumWeights(tI, coeffs), m);
    CombinationFirst(tI, coeffs, m);
    for i := 1 to |tI|
      invariant tc == Template(grid, Combination(tI[..i], ContinuumWeights(tI, coeffs)[..i], m))
      invariant tl == Template(grid, Combination(tI[..i], coeffs[..i], m))
    {
      var t := tI[i].template;
      if IsLine(tI[i].name) {
        tc := Template(tc.wave, Add(tc.flux, ZScale0(t, 0.0).flux));
      } else {
        tc := Template(tc.wave, Add(tc.flux, ZScale0(t, coeffs[i]).flux));
      }
      tl := Template(tl.wave, Add(tl.flux, ZScale0(t, coeffs[i]).flux));
      assert tI[..i + 1][..i] == tI[..i] && coeffs[..i + 1][..i] == coeffs[..i];
      assert ContinuumWeights(tI, coeffs)[..i + 1][..i] == ContinuumWeights(tI, coeffs)[..i];
    }
    assert tI[..|tI|] == tI && coeffs[..|tI|] == coeffs;
    assert ContinuumWeights(tI, coeffs)[..|tI|] == ContinuumWeights(tI, coeffs);
    return Some((tc, tl));
  }

  /** The combination of the first template alone is that template scaled by its weight. */
  lemma {:induction false} CombinationFirst(ts: seq<NamedTemplate>, w: seq<real>, m: nat)
    requires |ts| > 0 && |w| == |ts| && forall i :: 0 <= i < |ts| ==> |ts[i].template.flux| == m
    ensures Combination(ts[..1], w[..1], m) == Scale(ts[0].template.flux, w[0])
  {
    assert ts[..1][..0] == [] && w[..1][..0] == [];
  }

  /** Combining with the sum of two weight vectors adds the two combinations. */
  lemma {:induction false} CombinationAdd(ts: seq<NamedTemplate>, w1: seq<real>, w2: seq<real>, m: nat)
    requires |w1| == |w2| == |ts| && forall i :: 0 <= i < |ts| ==> |ts[i].template.flux| == m
    ensures Combination(ts, Add(w1, w2), m) == Add(Combination(ts, w1, m), Combination(ts, w2, m))
    decreases |ts|
  {
    if |ts| > 0 {
      var n := |ts| - 1;
      assert Add(w1, w2)[..n] == Add(w1[..n], w2[..n]);
      CombinationAdd(ts[..n], w1[..n], w2[..n], m);
      CombinationAddStep(ts, w1, w2, m);
    }
  }

  /** The step of `CombinationAdd`: adding the last template keeps the sum of the combinations. */
  lemma {:induction false} CombinationAddStep(ts: seq<NamedTemplate>, w1: seq<real>, w2: seq<real>, m: nat)
    requires |ts| > 0 && |w1| == |w2| == |ts| && forall i :: 0 <= i < |ts| ==> |ts[i].template.flux| == m
    requires var n := |ts| - 1;
      Combination(ts[..n], Add(w1, w2)[..n], m) == Add(Combination(ts[..n], w1[..n], m), Combination(ts[..n], w2[..n], m))
    ensures Combination(ts, Add(w1, w2), m) == Add(Combination(ts, w1, m), Combination(ts, w2, m))
  {
    var n := |ts| - 1;
    var w, f := Add(w1, w2), ts[n].template.flux;
    var c, c1, c2 := Combination(ts, w, m), Combination(ts, w1, m), Combination(ts, w2, m);
    var p, p1, p2 := Combination(ts[..n], w[..n], m), Combination(ts[..n], w1[..n], m), Combination(ts[..n], w2[..n], m);
    forall k | 0 <= k < m ensures c[k] == c1[k] + c2[k] {
      CombinationLast(ts, w, m, k);
      CombinationLast(ts, w1, m, k);
      CombinationLast(ts, w2, m, k);
      assert p[k] == p1[k] + p2[k];
      ScaleSplit(f, w1[n], w2[n], w[n], k);
    }
    assert c == Add(c1, c2);
  }

  /** Scaling by a sum of two weights adds the two scalings, sample by sample. */
  lemma {:induction false} ScaleSplit(f: seq<real>, a: real, b: real, s: real, k: nat)
    requires s == a + b && k < |f|
    ensures Scale(f, s)[k] == Scale(f, a)[k] + Scale(f, b)[k]
  {
    assert f[k] * (a + b) == f[k] * a + f[k] * b;
  }

  /** Sample `k` of a combination: the combination of all but the last template, plus the last one weighted. */
  lemma {:induction false} CombinationLast(ts: seq<NamedTemplate>, w: seq<real>, m: nat, k: nat)
    requires |ts| > 0 && |w| == |ts| && forall i :: 0 <= i < |ts| ==> |ts[i].template.flux| == m
    requires k < m
    ensures var n := |ts| - 1;
      Combination(ts, w, m)[k] == Combination(ts[..n], w[..n], m)[k] + Scale(ts[n].template.flux, w[n])[k]
  {
    var n := |ts| - 1;
    var front, last := Combination(ts[..n], w[..n], m), Scale(ts[n].template.flux, w[n]);
    assert Combination(ts, w, m) == Add(front, last);
  }

  /** The full template is the continuum template plus the line part. */
  lemma {:induction false} ContinuumPlusLines(ts: seq<NamedTemplate>, coeffs: seq<real>, m: nat)
    requires |coeffs| == |ts| && forall i :: 0 <= i < |ts| ==> |ts[i].template.flux| == m
    ensures Combination(ts, coeffs, m)
      == Add(Combination(ts, ContinuumWeights(ts, coeffs), m), Combination(ts, LineWeights(ts, coeffs), m))
  {
    assert coeffs == Add(ContinuumWeights(ts, coeffs), LineWeights(ts, coeffs));
    CombinationAdd(ts, ContinuumWeights(ts, coeffs), LineWeights(ts, coeffs), m);
  }

  /**
   * The continuum does not depend on the line coefficients: two coefficient
   * vectors that differ only on lines after the first template give the
   * same continuum template.
   */
  lemma {:induction false} ContinuumIgnoresLines(ts: seq<NamedTemplate>, c1: seq<real>, c2: seq<real>, m: nat)
    requires |c1| == |c2| == |ts| && forall i :: 0 <= i < |ts| ==> |ts[i].template.flux| == m
    requires forall i :: 0 <= i < |ts| && !(i > 0 && IsLine(ts[i].name)) ==> c1[i] == c2[i]
    ensures Combination(ts, ContinuumWeights(ts, c1), m) == Combination(ts, ContinuumWeights(ts, c2), m)
  {
    assert ContinuumWeights(ts, c1) == ContinuumWeights(ts, c2);
  }

  // ---------------------------------------------------------------------
  // Line table
  // ---------------------------------------------------------------------

  /** The header cards `LINE{n:03d}F/E/W` of one line: its number, name, flux, uncertainty and equivalent width. */
  datatype LineRecord = LineRecord(number: nat, name: string, flux: real, err: real, ew: real)

  /** `te[5:]`: the key without its `line ` prefix. */
  function LineName(key: string): string
  {
    if |key| >= 5 then key[5..] else []
  }

  /** The sentinel reported for an equivalent width that is not finite. */
  const EwSentinel: real := -1000.0

  /** `clip`: the samples of the continuum grid within the line template's wavelength range. */
  function EwClip(line: Template, tdWave: seq<real>): (clip: seq<bool>)
    requires |line.wave| > 0
    ensures |clip| == |tdWave|
  {
    seq(|tdWave|, k requires 0 <= k < |tdWave| => tdWave[k] <= Max(line.wave) && tdWave[k] >= Min(line.wave))
  }

  /** `tn/td - 1` sample by sample (the zeros of `td` are reported through the sentinel instead). */
  function EwIntegrand(tn: seq<real>, td: seq<real>): (y: seq<real>)
    requires |tn| == |td|
    ensures |y| == |tn|
  {
    seq(|tn|, k requires 0 <= k < |tn| => if td[k] == 0.0 then 0.0 else tn[k] / td[k] - 1.0)
  }

  /**
   * The rest-frame equivalent width of a line with coefficient `c` against
   * the continuum `tc`: 0 for a zero coefficient; otherwise the trapezoidal
   * integral of `tn/td - 1` over the clipped grid, with `tn` the line plus
   * continuum and `td` the line scaled by zero plus continuum; the sentinel
   * when a zero of `td` makes that integral not finite.
   */
  function EquivalentWidth(line: Template, tc: Template, c: real): (ew: real)
    requires |line.wave| > 0 && line.wave == tc.wave
    requires |line.flux| == |tc.flux| == |tc.wave|
    ensures c == 0.0 ==> ew == 0.0
  {
    if c == 0.0 then 0.0
    else
      var tn := Add(Scale(line.flux, c), tc.flux);
      var td := Add(Scale(line.flux, 0.0), tc.flux);
      var clip := EwClip(line, tc.wave);
      var num := Compress(tn, clip);
      var den := Compress(td, clip);
      var x := Compress(tc.wave, clip);
      EwOfSamples(num, den, x)
  }

  /** The width from the clipped samples: the sentinel when `td` vanishes at a sample of a grid of two or more, else the integral. */
  function EwOfSamples(num: seq<real>, den: seq<real>, x: seq<real>): real
    requires |num| == |den| == |x|
  {
    if |x| >= 2 && exists k :: 0 <= k < |den| && den[k] == 0.0 then EwSentinel
    else Trapz(EwIntegrand(num, den), x)
  }

  /** On the shared grid the clip keeps every sample. */
  lemma {:induction false} EwClipAll(line: Template, tdWave: seq<real>)
    requires |line.wave| > 0 && tdWave == line.wave
    ensures forall k :: 0 <= k < |tdWave| ==> EwClip(line, tdWave)[k]
  {
  }

  /** On the shared grid, with a continuum that never vanishes, the width is the integral over the whole grid. */
  lemma {:induction false} EwOnGrid(line: Template, tc: Template, c: real)
    requires |line.wave| > 0 && line.wave == tc.wave
    requires |line.flux| == |tc.flux| == |tc.wave|
    requires c != 0.0 && forall k :: 0 <= k < |tc.flux| ==> tc.flux[k] != 0.0
    ensures EquivalentWidth(line, tc, c)
      == Trapz(EwIntegrand(Add(Scale(line.flux, c), tc.flux), Add(Scale(line.flux, 0.0), tc.flux)), tc.wave)
  {
    EwClipAll(line, tc.wave);
    var clip := EwClip(line, tc.wave);
    var tn := Add(Scale(line.flux, c), tc.flux);
    var td := Add(Scale(line.flux, 0.0), tc.flux);
    CompressAllTrue(tc.wave, clip);
    CompressAllTrue(tn, clip);
    CompressAllTrue(td, clip);
    assert forall k :: 0 <= k < |td| ==> td[k] == tc.flux[k];
  }

  /** On the shared grid the clip keeps every sample, so the width is computed from the unclipped samples. */
  lemma {:induction false} EwUnclipped(line: Template, tc: Template, c: real)
    requires |line.wave| > 0 && line.wave == tc.wave
    requires |line.flux| == |tc.flux| == |tc.wave|
    requires c != 0.0
    ensures EquivalentWidth(line, tc, c)
      == EwOfSamples(Add(Scale(line.flux, c), tc.flux), Add(Scale(line.flux, 0.0), tc.flux), tc.wave)
  {
    EwClipAll(line, tc.wave);
    var clip := EwClip(line, tc.wave);
    CompressAllTrue(tc.wave, clip);
    CompressAllTrue(Add(Scale(line.flux, c), tc.flux), clip);
    CompressAllTrue(Add(Scale(line.flux, 0.0), tc.flux), clip);
  }

  /**
   * On the shared grid, with a non-zero coefficient: the width is the
   * sentinel exactly when there are at least two samples and the continuum
   * vanishes at one of them (`tn/td` is then not finite), and otherwise the
   * integral over the whole grid.
   */
  lemma {:induction false} EwCases(line: Template, tc: Template, c: real)
    requires |line.wave| > 0 && line.wave == tc.wave
    requires |line.flux| == |tc.flux| == |tc.wave|
    requires c != 0.0
    ensures |tc.wave| >= 2 && (exists k :: 0 <= k < |tc.flux| && tc.flux[k] == 0.0)
      ==> EquivalentWidth(line, tc, c) == EwSentinel
    ensures !(|tc.wave| >= 2 && exists k :: 0 <= k < |tc.flux| && tc.flux[k] == 0.0)
      ==> EquivalentWidth(line, tc, c)
          == Trapz(EwIntegrand(Add(Scale(line.flux, c), tc.flux), Add(Scale(line.flux, 0.0), tc.flux)), tc.wave)
  {
    EwUnclipped(line, tc, c);
    var td := Add(Scale(line.flux, 0.0), tc.flux);
    assert td == tc.flux by {
      assert forall k :: 0 <= k < |td| ==> td[k] == tc.flux[k];
    }
  }

  /**
   * An emission line (non-negative flux, positive coefficient) over a
   * positive continuum on an ascending grid has a non-negative equivalent
   * width: in particular it is never the sentinel.
   */
  lemma {:induction false} EmissionLineEw(line: Template, tc: Template, c: real)
    requires |line.wave| > 0 && line.wave == tc.wave && Ascending(tc.wave)
    requires |line.flux| == |tc.flux| == |tc.wave|
    requires c > 0.0
    requires forall k :: 0 <= k < |line.flux| ==> line.flux[k] >= 0.0 && tc.flux[k] > 0.0
    ensures EquivalentWidth(line, tc, c) >= 0.0
  {
    EwOnGrid(line, tc, c);
    IntegrandNonNegative(line.flux, tc.flux, c);
    TrapzNonNegative(EwIntegrand(Add(Scale(line.flux, c), tc.flux), Add(Scale(line.flux, 0.0), tc.flux)), tc.wave);
  }

  /** Every sample of the integrand of an emission line over a positive continuum is non-negative. */
  lemma {:induction false} IntegrandNonNegative(f: seq<real>, t: seq<real>, c: real)
    requires |f| == |t| && c > 0.0
    requires forall k :: 0 <= k < |f| ==> f[k] >= 0.0 && t[k] > 0.0
    ensures forall k :: 0 <= k < |f| ==> EwIntegrand(Add(Scale(f, c), t), Add(Scale(f, 0.0), t))[k] >= 0.0
  {
    forall k | 0 <= k < |f| ensures EwIntegrand(Add(Scale(f, c), t), Add(Scale(f, 0.0), t))[k] >= 0.0 {
      IntegrandEntry(f[k], t[k], c);
    }
  }

  /** One sample of the integrand of an emission line over a positive continuum. */
  lemma {:induction false} IntegrandEntry(f: real, t: real, c: real)
    requires f >= 0.0 && t > 0.0 && c > 0.0
    ensures var tn, td := f * c + t, f * 0.0 + t;
      (if td == 0.0 then 0.0 else tn / td - 1.0) >= 0.0
  {
    var e := f * c;
    assert e >= 0.0 by {
      MulNonNegative(f, c);
    }
    RatioAboveOne(e, t);
  }

  lemma {:induction false} MulNonNegative(a: real, b: real)
    requires a >= 0.0 && b > 0.0
    ensures a * b >= 0.0
  {
  }

  /** `(e + t) / t - 1` is non-negative for a non-negative excess over a positive continuum. */
  lemma {:induction false} RatioAboveOne(e: real, t: real)
    requires e >= 0.0 && t > 0.0
    ensures (e + t) / t - 1.0 >= 0.0
  {
    var q := (e + t) / t;
    assert q * t == e + t;
    assert (q - 1.0) * t == e;
  }

  /** Which templates are lines. */
  function LineMask(ts: seq<NamedTemplate>): (m: seq<bool>)
    ensures |m| == |ts| && forall i :: 0 <= i < |ts| ==> (m[i] <==> IsLine(ts[i].name))
  {
    seq(|ts|, i requires 0 <= i < |ts| => IsLine(ts[i].name))
  }

  /** Line records of the templates, numbered by a counter over line templates only. */
  function Lines(ts: seq<NamedTemplate>, coeffs: seq<real>, err: seq<real>, tc: Template): (r: seq<LineRecord>)
    requires |coeffs| == |err| == |ts|
    requires forall i :: 0 <= i < |ts| ==>
      (|ts[i].template.wave| > 0 && ts[i].template.wave == tc.wave && |ts[i].template.flux| == |tc.wave|)
    requires |tc.flux| == |tc.wave|
    decreases |ts|
  {
    if |ts| == 0 then []
    else
      var n := |ts| - 1;
      var front := Lines(ts[..n], coeffs[..n], err[..n], tc);
      if IsLine(ts[n].name) then
        front + [LineRecord(|front| + 1, LineName(ts[n].name), coeffs[n], err[n],
                            EquivalentWidth(ts[n].template, tc, coeffs[n]))]
      else front
  }

  /**
   * The line records: one per line template, numbered 1, 2, ... in template
   * order, carrying exactly the line templates' coefficients in order.
   */
  lemma {:induction false} LinesNumbered(ts: seq<NamedTemplate>, coeffs: seq<real>, err: seq<real>, tc: Template)
    requires |coeffs| == |err| == |ts|
    requires forall i :: 0 <= i < |ts| ==>
      (|ts[i].template.wave| > 0 && ts[i].template.wave == tc.wave && |ts[i].template.flux| == |tc.wave|)
    requires |tc.flux| == |tc.wave|
    ensures var r := Lines(ts, coeffs, err, tc);
      |r| == Count(LineMask(ts))
      && (forall k :: 0 <= k < |r| ==> r[k].number == k + 1)
      && seq(|r|, k requires 0 <= k < |r| => r[k].flux) == Compress(coeffs, LineMask(ts))
    decreases |ts|
  {
    if |ts| > 0 {
      var n := |ts| - 1;
      var ts', c', e' := ts[..n], coeffs[..n], err[..n];
      LinesNumbered(ts', c', e', tc);
      var r, front, lm := Lines(ts, coeffs, err, tc), Lines(ts', c', e', tc), LineMask(ts);
      assert lm[..n] == LineMask(ts');
      var fl := seq(|r|, k requires 0 <= k < |r| => r[k].flux);
      var fl' := seq(|front|, k requires 0 <= k < |front| => front[k].flux);
      assert Compress(coeffs, lm) == Compress(c', LineMask(ts')) + (if lm[n] then [coeffs[n]] else []);
      if IsLine(ts[n].name) {
        assert fl == fl' + [coeffs[n]];
      } else {
        assert fl == fl';
      }
    }
  }

  /**
   * The line-table loop of `fit_zgrid`: a counter `il` over the templates
   * whose key starts with `line`, a record per line.
   */
  method LineTable(tI: seq<NamedTemplate>, coeffs: seq<real>, err: seq<real>, tc: Template)
    returns (records: seq<LineRecord>)
    requires |coeffs| == |err| == |tI|
    requires forall i :: 0 <= i < |tI| ==>
      (|tI[i].template.wave| > 0 && tI[i].template.wave == tc.wave && |tI[i].template.flux| == |tc.wave|)
    requires |tc.flux| == |tc.wave|
    ensures records == Lines(tI, coeffs, err, tc)
  {
    records := [];
    var il := 0;
    for i := 0 to |tI|
      invariant records == Lines(tI[..i], coeffs[..i], err[..i], tc)
      invariant il == |records|
    {
      assert tI[..i + 1][..i] == tI[..i] && coeffs[..i + 1][..i] == coeffs[..i] && err[..i + 1][..i] == err[..i];
      if IsLine(tI[i].name) {
        il := il + 1;
        var ew := EquivalentWidth(tI[i].template, tc, coeffs[i]);
        records := records + [LineRecord(il, LineName(tI[i].name), coeffs[i], err[i], ew)];
      }
    }
    assert tI[..|tI|] == tI && coeffs[..|tI|] == coeffs && err[..|tI|] == err;
  }
}
