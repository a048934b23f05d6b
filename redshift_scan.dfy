/**
 * The pure parts of the redshift scan of `StackFitter.fit_zgrid`: the
 * co-sort of the accumulated `(z, chi2)` samples by redshift, the prior
 * term, the refinement step sizes, the best redshift and the `area25`
 * quality figure.
 */
module RedshiftScan {
  import opened Numerics

  /** The samples of the scan sorted by redshift. */
  predicate SortedByZ(ps: seq<(real, real)>)
  {
    forall i, j :: 0 <= i < j < |ps| ==> ps[i].0 <= ps[j].0
  }

  /** Insert one sample into samples sorted by redshift, after every sample with a redshift not above it. */
  function Insert(ps: seq<(real, real)>, p: (real, real)): (r: seq<(real, real)>)
    ensures |r| == |ps| + 1
    ensures multiset(r) == multiset(ps) + multiset{p}
    decreases |ps|
  {
    if |ps| == 0 then [p]
    else if ps[|ps| - 1].0 <= p.0 then ps + [p]
    else
      var n := |ps| - 1;
      assert ps == ps[..n] + [ps[n]];
      Insert(ps[..n], p) + [ps[n]]
  }

  /** Inserting into sorted samples keeps them sorted. */
  lemma {:induction false} InsertSorted(ps: seq<(real, real)>, p: (real, real))
    requires SortedByZ(ps)
    ensures SortedByZ(Insert(ps, p))
    decreases |ps|
  {
    if |ps| > 0 && ps[|ps| - 1].0 > p.0 {
      var n := |ps| - 1;
      var front := Insert(ps[..n], p);
      InsertSorted(ps[..n], p);
      forall i | 0 <= i < |front| ensures front[i].0 <= ps[n].0 {
        assert front[i] in multiset(front);
        assert front[i] in multiset(ps[..n]) || front[i] == p;
        if front[i] != p {
          var j :| 0 <= j < n && ps[..n][j] == front[i];
        }
      }
    }
  }

  /** `argsort` by redshift applied to the pairs of the scan (insertion sort, stable). */
  function SortByZ(ps: seq<(real, real)>): (r: seq<(real, real)>)
    ensures |r| == |ps|
    ensures multiset(r) == multiset(ps)
    decreases |ps|
  {
    if |ps| == 0 then []
    else
      var n := |ps| - 1;
      assert ps == ps[..n] + [ps[n]];
      Insert(SortByZ(ps[..n]), ps[n])
  }

  /** The co-sort orders the samples by redshift. */
  lemma {:induction false} SortByZSorted(ps: seq<(real, real)>)
    ensures SortedByZ(SortByZ(ps))
    decreases |ps|
  {
    if |ps| > 0 {
      var n := |ps| - 1;
      SortByZSorted(ps[..n]);
      InsertSorted(SortByZ(ps[..n]), ps[n]);
    }
  }

  /** The samples as `(z, chi2)` pairs. */
  function Zip(z: seq<real>, c: seq<real>): (ps: seq<(real, real)>)
    requires |z| == |c|
    ensures |ps| == |z| && forall i :: 0 <= i < |z| ==> ps[i] == (z[i], c[i])
  {
    seq(|z|, i requires 0 <= i < |z| => (z[i], c[i]))
  }

  /** The redshifts of the pairs. */
  function Zs(ps: seq<(real, real)>): (z: seq<real>)
    ensures |z| == |ps| && forall i :: 0 <= i < |ps| ==> z[i] == ps[i].0
  {
    seq(|ps|, i requires 0 <= i < |ps| => ps[i].0)
  }

  /** The chi-squared values of the pairs. */
  function Chis(ps: seq<(real, real)>): (c: seq<real>)
    ensures |c| == |ps| && forall i :: 0 <= i < |ps| ==> c[i] == ps[i].1
  {
    seq(|ps|, i requires 0 <= i < |ps| => ps[i].1)
  }

  /**
   * `so = np.argsort(z); z = z[so]; chi2 = chi2[so]`: the redshifts come out
   * ascending and every `(z, chi2)` sample of the scan is kept with its own
   * chi-squared, none added and none lost.
   */
  lemma {:induction false} CoSort(z: seq<real>, c: seq<real>)
    requires |z| == |c|
    ensures var s := SortByZ(Zip(z, c));
      Ascending(Zs(s)) && |Zs(s)| == |Chis(s)| == |z|
      && multiset(Zip(Zs(s), Chis(s))) == multiset(Zip(z, c))
  {
    var s := SortByZ(Zip(z, c));
    SortByZSorted(Zip(z, c));
    assert Zip(Zs(s), Chis(s)) == s;
  }

  /** The co-sort only reorders the samples: every sorted redshift is one of the scan's redshifts. */
  lemma {:induction false} SortedWithin(z: seq<real>, c: seq<real>, lo: real)
    requires |z| == |c|
    ensures (forall i :: 0 <= i < |z| ==> z[i] > lo) ==> forall i :: 0 <= i < |z| ==> Zs(SortByZ(Zip(z, c)))[i] > lo
  {
    if forall i :: 0 <= i < |z| ==> z[i] > lo {
      var s := SortByZ(Zip(z, c));
      forall i | 0 <= i < |s| ensures s[i].0 > lo {
        assert s[i] in multiset(s);
        assert s[i] in Zip(z, c);
        var j :| 0 <= j < |z| && Zip(z, c)[j] == s[i];
      }
    }
  }

  /** `2.02**iter`. */
  function Pow(b: real, n: nat): (r: real)
    ensures b > 0.0 ==> r > 0.0
  {
    if n == 0 then 1.0 else b * Pow(b, n - 1)
  }

  /** The step of refinement pass `iter`: the coarse step divided by `2.02**iter`. */
  function RefineStep(dz0: real, iter: nat): (dz: real)
    ensures dz0 > 0.0 ==> 0.0 < dz
    ensures dz0 > 0.0 && iter > 0 ==> dz < dz0
  {
    PowAboveOne(iter);
    DivShrinks(dz0, Pow(2.02, iter));
    dz0 / Pow(2.02, iter)
  }

  lemma {:induction false} DivShrinks(a: real, p: real)
    requires p >= 1.0
    ensures a > 0.0 ==> 0.0 < a / p
    ensures a > 0.0 && p > 1.0 ==> a / p < a
  {
    var q := a / p;
    assert q * p == a;
  }

  /** `2.02**n` is at least 1, and above 1 for positive `n`. */
  lemma {:induction false} PowAboveOne(n: nat)
    ensures Pow(2.02, n) >= 1.0 && (n > 0 ==> Pow(2.02, n) > 1.0)
  {
    if n > 0 {
      PowAboveOne(n - 1);
    }
  }

  /** The interpolated prior has one value per redshift. */
  ghost predicate Interpolates(interp: seq<real> -> seq<real>)
  {
    forall z :: |interp(z)| == |z|
  }

  /** `np.clip(chi2 - chi2.min(), 0, 25)`. */
  function Clipped25(chi2: seq<real>): (y: seq<real>)
    requires |chi2| > 0
    ensures |y| == |chi2| && forall i :: 0 <= i < |chi2| ==> 0.0 <= y[i] <= 25.0
  {
    var m := Min(chi2);
    seq(|chi2|, i requires 0 <= i < |chi2| => Clip(chi2[i] - m, 0.0, 25.0))
  }

  /**
   * `area25 = 1 - trapz(clip(chi2 - min, 0, 25), z) / trapz(25, z)`; not
   * finite (`None`) when the denominator is zero.
   */
  function Area25(z: seq<real>, chi2: seq<real>): (a: Option<real>)
    requires |z| == |chi2| > 0
  {
    var num := Trapz(Clipped25(chi2), z);
    var den := Trapz(Fill(|z|, 25.0), z);
    if den == 0.0 then None else Some(1.0 - num / den)
  }

  /** On ascending redshifts with a positive span, `area25` is defined and lies in `[0, 1]`. */
  lemma {:induction false} Area25Bounds(z: seq<real>, chi2: seq<real>)
    requires |z| == |chi2| > 0 && Ascending(z) && z[|z| - 1] > z[0]
    ensures Area25(z, chi2).Some?
    ensures 0.0 <= Area25(z, chi2).value <= 1.0
  {
    var y := Clipped25(chi2);
    var top := Fill(|z|, 25.0);
    TrapzConstant(top, z, 25.0);
    TrapzMonotone(y, top, z);
    TrapzNonNegative(y, z);
    UnitQuotient(Trapz(y, z), Trapz(top, z));
  }

  lemma {:induction false} UnitQuotient(num: real, den: real)
    requires 0.0 <= num <= den && den > 0.0
    ensures 0.0 <= 1.0 - num / den <= 1.0
  {
    var q := num / den;
    assert q * den == num;
  }

  /** The best redshift: the redshift at the first minimum of chi-squared. */
  function BestZ(z: seq<real>, chi2: seq<real>): (zb: real)
    requires |z| == |chi2| > 0
    ensures exists i :: 0 <= i < |z| && zb == z[i] && forall j :: 0 <= j < |z| ==> chi2[i] <= chi2[j]
  {
    z[ArgMin(chi2)]
  }
}
