/**
 * One drizzled grism stack (`StackedSpectrum` in grizli/stack.py): a 2D
 * spectrum of NAXIS2 rows by NAXIS1 columns, its inverse variance, the
 * spatial kernel of the source, and the design matrix that turns a 1D
 * spectrum into a 2D model by sliding the kernel along the dispersion axis.
 *
 * Images are held flattened in row-major order, as numpy's `flatten()` does:
 * pixel (r, c) is entry `r * nx + c`.
 */
module Spectrum {
  import opened Numerics

  /** The contents of the SCI, WHT, CONTAM and KERNEL extensions of one grism and their header keywords. */
  datatype StackHdu = StackHdu(
    naxis1: nat,                 // NAXIS1: columns, along the dispersion
    naxis2: nat,                 // NAXIS2: rows, across the dispersion
    crpix1: real, crval1: real, cd1_1: real,
    isFlambda: bool,             // ISFLAM: the stack is already in flux density units
    sci: seq<real>,              // SCI, flattened
    wht: seq<real>,              // WHT: inverse variance, flattened
    contam: Option<seq<real>>,   // CONTAM, when the extension exists
    kernel: seq<seq<real>>,      // KERNEL: NAXIS2 x NAXIS2 spatial profile, not yet normalised
    sens: seq<real>)             // sensitivity resampled to the wavelength grid, times the median step and 1e-17

  /** A square `ny` by `ny` kernel. */
  predicate KernelShape(kernel: seq<seq<real>>, ny: nat)
  {
    |kernel| == ny && forall r :: 0 <= r < ny ==> |kernel[r]| == ny
  }

  /**
   * The shapes the source can work with: `_build_model` slices an even kernel
   * into a model at least as wide as it is tall (other shapes make numpy raise),
   * and inverse variances are never negative.
   */
  predicate HduValid(h: StackHdu)
  {
    2 <= h.naxis2 <= h.naxis1 && h.naxis2 % 2 == 0
    && |h.sci| == h.naxis2 * h.naxis1 && |h.wht| == |h.sci|
    && (forall p :: 0 <= p < |h.wht| ==> h.wht[p] >= 0.0)
    && (h.contam.Some? ==> |h.contam.value| == |h.sci|)
    && KernelShape(h.kernel, h.naxis2)
    && |h.sens| == h.naxis1
  }

  /**
   * `get_wavelength_from_header`: a linear grid with step CD1_1 whose
   * (one-based) reference pixel CRPIX1 sits at CRVAL1.
   */
  function WavelengthFromHeader(naxis1: nat, crpix1: real, cd1_1: real, crval1: real): (w: seq<real>)
    ensures |w| == naxis1
    ensures forall i :: 0 <= i < naxis1 - 1 ==> w[i + 1] - w[i] == cd1_1
    ensures forall i :: 0 <= i < naxis1 && i as real + 1.0 == crpix1 ==> w[i] == crval1
  {
    seq(naxis1, i => (i as real + 1.0 - crpix1) * cd1_1 + crval1)
  }

  /** With a positive step, the wavelength grid ascends. */
  lemma {:induction false} WavelengthAscending(naxis1: nat, crpix1: real, cd1_1: real, crval1: real)
    requires cd1_1 > 0.0
    ensures Ascending(WavelengthFromHeader(naxis1, crpix1, cd1_1, crval1))
  {
    var w := WavelengthFromHeader(naxis1, crpix1, cd1_1, crval1);
    forall i, j | 0 <= i < j < |w| ensures w[i] <= w[j] {
      assert w[j] - w[i] == (j - i) as real * cd1_1;
    }
  }

  /** `wavef`: the wavelength row repeated for each of the `ny` rows, flattened. */
  function Broadcast(wave: seq<real>, ny: nat): (r: seq<real>)
    ensures |r| == ny * |wave|
    decreases ny
  {
    if ny == 0 then [] else Broadcast(wave, ny - 1) + wave
  }

  /** Every pixel of the flattened wavelength image carries the wavelength of its column. */
  lemma {:induction false} BroadcastAt(wave: seq<real>, ny: nat, r: nat, c: nat)
    requires r < ny && c < |wave|
    ensures r * |wave| + c < |Broadcast(wave, ny)|
    ensures Broadcast(wave, ny)[r * |wave| + c] == wave[c]
    decreases ny
  {
    PixelBound(r, c, |wave|, ny);
    if r < ny - 1 {
      BroadcastAt(wave, ny - 1, r, c);
    } else {
      assert r * |wave| == (ny - 1) * |wave|;
    }
  }

  /**
   * `1/(1/ivar + (sys_err*sci)**2)`: the inverse variance with a systematic
   * error proportional to the flux added in quadrature. A zero weight stays
   * zero, since `1/0` is infinite in floating point.
   */
  function InflatedIvar(wht: real, flux: real, sysErr: real): (v: real)
    requires wht >= 0.0
    ensures 0.0 <= v <= wht
    ensures v == 0.0 <==> wht == 0.0
    ensures sysErr * flux == 0.0 ==> v == wht
  {
    if wht == 0.0 then 0.0
    else
      var e := (sysErr * flux) * (sysErr * flux);
      var d := 1.0 / wht + e;
      assert e >= 0.0 && d >= 1.0 / wht > 0.0;
      assert 1.0 / d <= 1.0 / (1.0 / wht);
      1.0 / d
  }

  /** `ivarf` of the whole flattened image. */
  function InflatedIvars(wht: seq<real>, sci: seq<real>, sysErr: real): (v: seq<real>)
    requires |wht| == |sci|
    requires forall p :: 0 <= p < |wht| ==> wht[p] >= 0.0
    ensures |v| == |wht|
    ensures forall p :: 0 <= p < |v| ==> v[p] == InflatedIvar(wht[p], sci[p], sysErr)
  {
    seq(|wht|, p requires 0 <= p < |wht| => InflatedIvar(wht[p], sci[p], sysErr))
  }

  /** `np.sqrt` applied entrywise; the square root is a capability of the caller. */
  function MapSqrt(v: seq<real>, sqrt: real -> real): (r: seq<real>)
    ensures |r| == |v|
    ensures forall p :: 0 <= p < |v| ==> r[p] == sqrt(v[p])
  {
    seq(|v|, p requires 0 <= p < |v| => sqrt(v[p]))
  }

  function Abs(x: real): real
  {
    if x < 0.0 then -x else x
  }

  /** The exponential never vanishes nor turns negative. */
  ghost predicate PositiveExp(exp: real -> real)
  {
    forall x :: exp(x) > 0.0
  }

  /**
   * Contamination weights `exp(-fcontam*|contam|*sqrt(wht))`, or unit weights
   * when the stack has no CONTAM extension.
   */
  function Weights(h: StackHdu, fcontam: real, sqrt: real -> real, exp: real -> real): (w: seq<real>)
    requires HduValid(h) && PositiveExp(exp)
    ensures |w| == |h.sci|
    ensures forall p :: 0 <= p < |w| ==> w[p] > 0.0
    ensures h.contam.None? ==> forall p :: 0 <= p < |w| ==> w[p] == 1.0
  {
    match h.contam
    case None => Fill(|h.sci|, 1.0)
    case Some(contam) =>
      seq(|contam|, p requires 0 <= p < |contam| => exp(-fcontam * Abs(contam[p]) * sqrt(h.wht[p])))
  }

  /** Row sums of a kernel. */
  function RowSums(k: seq<seq<real>>): (s: seq<real>)
    ensures |s| == |k|
    ensures forall r :: 0 <= r < |k| ==> s[r] == Sum(k[r])
  {
    seq(|k|, r requires 0 <= r < |k| => Sum(k[r]))
  }

  /** `kernel.sum()` over both axes. */
  function KernelTotal(k: seq<seq<real>>): real
  {
    Sum(RowSums(k))
  }

  /** Dividing every entry of the kernel by a constant divides its total by that constant. */
  lemma {:induction false} KernelTotalScale(raw: seq<seq<real>>, k: seq<seq<real>>, c: real)
    requires |k| == |raw|
    requires forall r :: 0 <= r < |k| ==> k[r] == Scale(raw[r], c)
    ensures KernelTotal(k) == KernelTotal(raw) * c
  {
    var rk, rr := RowSums(k), RowSums(raw);
    var sr := Scale(rr, c);
    forall r | 0 <= r < |k| ensures rk[r] == sr[r] {
      SumScaleOf(raw[r], c, rr[r]);
    }
    assert rk == sr;
    SumScale(rr, c);
  }

  /**
   * `kernel /= kernel.sum()`. A kernel that sums to zero yields NaN or infinite
   * entries in the source; it is `None` here.
   */
  function NormaliseKernel(raw: seq<seq<real>>): (k: Option<seq<seq<real>>>)
    ensures k.None? <==> KernelTotal(raw) == 0.0
    ensures k.Some? ==> |k.value| == |raw| && (forall r :: 0 <= r < |raw| ==> |k.value[r]| == |raw[r]|)
    ensures k.Some? ==> KernelTotal(k.value) == 1.0
  {
    var t := KernelTotal(raw);
    if t == 0.0 then None
    else
      var k := seq(|raw|, r requires 0 <= r < |raw| => Scale(raw[r], 1.0 / t));
      KernelTotalScale(raw, k, 1.0 / t);
      Some(k)
  }

  /** The normalised kernel, or zeros when normalisation failed (such a stack is discarded by the fitter). */
  function KernelOrZero(k: Option<seq<seq<real>>>, ny: nat): (r: seq<seq<real>>)
    requires k.Some? ==> KernelShape(k.value, ny)
    ensures KernelShape(r, ny)
  {
    match k
    case Some(v) => v
    case None => seq(ny, r => Fill(ny, 0.0))
  }

  /**
   * Entry `(j, r, c)` of the `_build_model` cube: the kernel centred on column
   * `j`, so column `c` of the model sees kernel column `c - j + ny/2`, and
   * nothing outside the kernel's footprint.
   */
  function Band(kernel: seq<seq<real>>, ny: nat, j: int, r: nat, c: int): real
    requires KernelShape(kernel, ny) && r < ny
  {
    var k := c - j + ny / 2;
    if 0 <= k < ny then kernel[r][k] else 0.0
  }

  /** Adds the kernel band of column `j` into `data[j, :, lo..hi]`, the way one numpy slice assignment does. */
  method AddBand(data: array3<real>, kernel: seq<seq<real>>, ny: nat, j: nat, lo: nat, hi: nat)
    requires KernelShape(kernel, ny) && data.Length1 == ny
    requires j < data.Length0 && lo <= hi <= data.Length2
    requires j <= lo + ny / 2 && hi + ny / 2 <= j + ny
    modifies data
    ensures forall j', r, c :: 0 <= j' < data.Length0 && 0 <= r < ny && 0 <= c < data.Length2 ==>
      data[j', r, c] == if j' == j && lo <= c < hi then old(data[j', r, c]) + kernel[r][c - j + ny / 2] else old(data[j', r, c])
  {
    for r := 0 to ny
      invariant forall j', r', c :: 0 <= j' < data.Length0 && 0 <= r' < ny && 0 <= c < data.Length2 ==>
        data[j', r', c] == if j' == j && r' < r && lo <= c < hi then old(data[j', r', c]) + kernel[r'][c - j + ny / 2] else old(data[j', r', c])
    {
      for c := lo to hi
        invariant forall j', r', c' :: 0 <= j' < data.Length0 && 0 <= r' < ny && 0 <= c' < data.Length2 ==>
          data[j', r', c'] == if j' == j && (r' < r || (r' == r && c' < c)) && lo <= c' < hi then old(data[j', r', c']) + kernel[r'][c' - j + ny / 2] else old(data[j', r', c'])
      {
        data[j, r, c] := data[j, r, c] + kernel[r][c - j + ny / 2];
      }
    }
  }

  /**
   * `_build_model`: the cube `data[j, r, c]` whose slice `j` is the 2D image of
   * a unit line at column `j`. The three loops of the source handle the
   * columns whose kernel runs off the left edge, off the right edge, and the
   * interior, in that order.
   */
  method BuildModel(kernel: seq<seq<real>>, nx: nat, ny: nat) returns (data: array3<real>)
    requires KernelShape(kernel, ny) && ny % 2 == 0 && ny <= nx
    ensures fresh(data)
    ensures data.Length0 == nx && data.Length1 == ny && data.Length2 == nx
    ensures forall j, r, c :: 0 <= j < nx && 0 <= r < ny && 0 <= c < nx ==> data[j, r, c] == Band(kernel, ny, j, r, c)
  {
    var h := ny / 2;
    data := new real[nx, ny, nx]((j, r, c) => 0.0);
    for j := 0 to h
      invariant forall j', r, c :: 0 <= j' < nx && 0 <= r < ny && 0 <= c < nx ==>
        data[j', r, c] == if j' < j then Band(kernel, ny, j', r, c) else 0.0
    {
      AddBand(data, kernel, ny, j, 0, j + h);
    }
    for j := nx - h to nx
      invariant forall j', r, c :: 0 <= j' < nx && 0 <= r < ny && 0 <= c < nx ==>
        data[j', r, c] == if j' < h || nx - h <= j' < j then Band(kernel, ny, j', r, c) else 0.0
    {
      AddBand(data, kernel, ny, j, j - h, nx);
    }
    for j := h to nx - h
      invariant forall j', r, c :: 0 <= j' < nx && 0 <= r < ny && 0 <= c < nx ==>
        data[j', r, c] == if j' < j || nx - h <= j' then Band(kernel, ny, j', r, c) else 0.0
    {
      AddBand(data, kernel, ny, j, j - h, j + h);
    }
  }

  /**
   * `fit_data`: the cube reshaped to one flattened image per column `j`, each
   * scaled by the sensitivity at `j` (by one for stacks in flux density).
   */
  function DesignMatrix(kernel: seq<seq<real>>, nx: nat, ny: nat, scale: seq<real>): (m: seq<seq<real>>)
    requires KernelShape(kernel, ny) && |scale| == nx
    ensures |m| == nx && forall j :: 0 <= j < nx ==> |m[j]| == ny * nx
  {
    seq(nx, j requires 0 <= j < nx =>
      seq(ny * nx, p requires 0 <= p < ny * nx =>
        DivBound(p, nx, ny); Band(kernel, ny, j, p / nx, p % nx) * scale[j]))
  }

  /** Pixel `(r, c)` of design image `j` is the kernel band value times the scale of `j`. */
  lemma {:induction false} DesignEntry(kernel: seq<seq<real>>, nx: nat, ny: nat, scale: seq<real>, j: nat, r: nat, c: nat)
    requires KernelShape(kernel, ny) && |scale| == nx
    requires j < nx && r < ny && c < nx
    ensures r * nx + c < ny * nx
    ensures DesignMatrix(kernel, nx, ny, scale)[j][r * nx + c] == Band(kernel, ny, j, r, c) * scale[j]
  {
    PixelBound(r, c, nx, ny);
    PixelDivMod(r, c, nx);
  }

  /**
   * `data.reshape(NAXIS1, -1)` followed by the sensitivity scaling: the model
   * cube built in place becomes the design matrix.
   */
  method FlattenModel(data: array3<real>, kernel: seq<seq<real>>, nx: nat, ny: nat, scale: seq<real>)
    returns (fd: seq<seq<real>>)
    requires KernelShape(kernel, ny) && |scale| == nx
    requires data.Length0 == nx && data.Length1 == ny && data.Length2 == nx
    requires forall j, r, c :: 0 <= j < nx && 0 <= r < ny && 0 <= c < nx ==> data[j, r, c] == Band(kernel, ny, j, r, c)
    ensures fd == DesignMatrix(kernel, nx, ny, scale)
  {
    fd := seq(nx, j requires 0 <= j < nx reads data => Image(data, nx, ny, scale, j));
    forall j | 0 <= j < nx ensures fd[j] == DesignMatrix(kernel, nx, ny, scale)[j] {
      ImageIsDesign(data, kernel, nx, ny, scale, j);
    }
  }

  /** Slice `j` of the cube, flattened row by row and scaled by the sensitivity at `j`. */
  function Image(data: array3<real>, nx: nat, ny: nat, scale: seq<real>, j: nat): (img: seq<real>)
    requires |scale| == nx && data.Length0 == nx && data.Length1 == ny && data.Length2 == nx && j < nx
    reads data
    ensures |img| == ny * nx
  {
    seq(ny * nx, p requires 0 <= p < ny * nx reads data => DivBound(p, nx, ny); data[j, p / nx, p % nx] * scale[j])
  }

  /** A cube holding the kernel band flattens, slice by slice, to the design matrix. */
  lemma {:induction false} ImageIsDesign(data: array3<real>, kernel: seq<seq<real>>, nx: nat, ny: nat, scale: seq<real>, j: nat)
    requires KernelShape(kernel, ny) && |scale| == nx
    requires data.Length0 == nx && data.Length1 == ny && data.Length2 == nx && j < nx
    requires forall j, r, c :: 0 <= j < nx && 0 <= r < ny && 0 <= c < nx ==> data[j, r, c] == Band(kernel, ny, j, r, c)
    ensures Image(data, nx, ny, scale, j) == DesignMatrix(kernel, nx, ny, scale)[j]
  {
    var img, row := Image(data, nx, ny, scale, j), DesignMatrix(kernel, nx, ny, scale)[j];
    forall p | 0 <= p < ny * nx ensures img[p] == row[p] {
      DivBound(p, nx, ny);
      var r, c := p / nx, p % nx;
      assert img[p] == data[j, r, c] * scale[j];
      assert row[p] == Band(kernel, ny, j, r, c) * scale[j];
    }
  }

  /** The sensitivity factors applied to the design matrix. */
  function Sensitivity(h: StackHdu): (s: seq<real>)
    ensures |s| == h.naxis1
    ensures h.isFlambda ==> forall j :: 0 <= j < |s| ==> s[j] == 1.0
  {
    if h.isFlambda || |h.sens| != h.naxis1 then Fill(h.naxis1, 1.0) else h.sens
  }

  /** Column `p` of a matrix given as a sequence of rows. */
  function Column(m: seq<seq<real>>, p: nat): (col: seq<real>)
    requires forall j :: 0 <= j < |m| ==> p < |m[j]|
    ensures |col| == |m|
    ensures forall j :: 0 <= j < |m| ==> col[j] == m[j][p]
  {
    seq(|m|, j requires 0 <= j < |m| => m[j][p])
  }

  /** `np.dot(fl, fit_data)`: the flattened 2D model of the 1D spectrum `fl`. */
  function ComputeModel(fl: seq<real>, m: seq<seq<real>>, width: nat): (model: seq<real>)
    requires |fl| == |m| && forall j :: 0 <= j < |m| ==> |m[j]| == width
    ensures |model| == width
    ensures forall p :: 0 <= p < width ==> model[p] == Dot(fl, Column(m, p))
  {
    seq(width, p requires 0 <= p < width => Dot(fl, Column(m, p)))
  }

  /** The 2D model is linear in the 1D spectrum: the model of a sum is the sum of the models. */
  lemma {:induction false} ComputeModelAdd(f1: seq<real>, f2: seq<real>, m: seq<seq<real>>, width: nat)
    requires |f1| == |f2| == |m| && forall j :: 0 <= j < |m| ==> |m[j]| == width
    ensures ComputeModel(Add(f1, f2), m, width) == Add(ComputeModel(f1, m, width), ComputeModel(f2, m, width))
  {
    forall p | 0 <= p < width
      ensures ComputeModel(Add(f1, f2), m, width)[p] == Add(ComputeModel(f1, m, width), ComputeModel(f2, m, width))[p]
    {
      DotAdd(f1, f2, Column(m, p));
    }
  }

  /** The 2D model is linear in the 1D spectrum: scaling the spectrum scales the model. */
  lemma {:induction false} ComputeModelScale(fl: seq<real>, a: real, m: seq<seq<real>>, width: nat)
    requires |fl| == |m| && forall j :: 0 <= j < |m| ==> |m[j]| == width
    ensures ComputeModel(Scale(fl, a), m, width) == Scale(ComputeModel(fl, m, width), a)
  {
    forall p | 0 <= p < width
      ensures ComputeModel(Scale(fl, a), m, width)[p] == Scale(ComputeModel(fl, m, width), a)[p]
    {
      DotScale(fl, Column(m, p), a);
    }
  }

  /** Column `c` of a flattened `ny` by `nx` image, top to bottom. */
  function ColumnOf(img: seq<real>, nx: nat, ny: nat, c: nat): (col: seq<real>)
    requires |img| == ny * nx && c < nx
    ensures |col| == ny
    ensures forall r {:trigger col[r]} :: 0 <= r < ny ==> r * nx + c < |img| && col[r] == img[r * nx + c]
  {
    PixelsInColumn(nx, ny, c);
    seq(ny, r requires 0 <= r < ny => img[r * nx + c])
  }

  lemma {:induction false} PixelsInColumn(nx: nat, ny: nat, c: nat)
    requires c < nx
    ensures forall r :: 0 <= r < ny ==> r * nx + c < ny * nx
  {
    forall r | 0 <= r < ny ensures r * nx + c < ny * nx {
      PixelBound(r, c, nx, ny);
    }
  }

  /** The band values seen by model column `c` of row `r`, for the first `n` design images. */
  function BandColumn(kernel: seq<seq<real>>, ny: nat, r: nat, c: nat, n: nat): (b: seq<real>)
    requires KernelShape(kernel, ny) && r < ny
    ensures |b| == n && forall j :: 0 <= j < n ==> b[j] == Band(kernel, ny, j, r, c)
  {
    seq(n, j => Band(kernel, ny, j, r, c))
  }

  /** First kernel column that the first `n` design images have contributed to model column `c`. */
  function FirstSeen(c: nat, h: nat, ny: nat, n: nat): nat
  {
    var lo := c + h - n + 1;
    if lo < 0 then 0 else if lo > ny then ny else lo
  }

  /**
   * Summing the band over the first `n` design images collects a suffix of
   * the kernel row: the images slide the kernel across model column `c` one
   * kernel column at a time.
   */
  lemma {:induction false} BandPartialSum(kernel: seq<seq<real>>, ny: nat, r: nat, c: nat, n: nat)
    requires KernelShape(kernel, ny) && r < ny && ny % 2 == 0
    requires c + ny / 2 + 1 >= ny
    ensures FirstSeen(c, ny / 2, ny, n) <= ny
    ensures Sum(BandColumn(kernel, ny, r, c, n)) == Sum(kernel[r][FirstSeen(c, ny / 2, ny, n)..])
    decreases n
  {
    var h := ny / 2;
    var row := kernel[r];
    if n == 0 {
      assert row[FirstSeen(c, h, ny, 0)..] == [];
    } else {
      BandPartialSum(kernel, ny, r, c, n - 1);
      var b := BandColumn(kernel, ny, r, c, n);
      assert b[..n - 1] == BandColumn(kernel, ny, r, c, n - 1);
      var k := c - (n - 1) + h;
      if 0 <= k < ny {
        assert FirstSeen(c, h, ny, n) == k && FirstSeen(c, h, ny, n - 1) == k + 1;
        assert row[k..] == [row[k]] + row[k + 1..];
        SumCons(row[k], row[k + 1..]);
      } else {
        assert FirstSeen(c, h, ny, n) == FirstSeen(c, h, ny, n - 1);
      }
    }
  }

  /**
   * At a column the kernel fully covers (neither edge within half a kernel
   * width), the flat model of a stack in flux density collects the whole
   * kernel row: the model conserves the kernel's flux.
   */
  lemma {:induction false} FlatInteriorPixel(kernel: seq<seq<real>>, nx: nat, ny: nat, r: nat, c: nat)
    requires KernelShape(kernel, ny) && ny % 2 == 0 && ny <= nx
    requires r < ny && ny / 2 <= c + 1 && c + ny / 2 + 1 <= nx
    ensures r * nx + c < ny * nx
    ensures ComputeModel(Fill(nx, 1.0), DesignMatrix(kernel, nx, ny, Fill(nx, 1.0)), ny * nx)[r * nx + c] == Sum(kernel[r])
  {
    var m := DesignMatrix(kernel, nx, ny, Fill(nx, 1.0));
    PixelBound(r, c, nx, ny);
    var p := r * nx + c;
    forall j | 0 <= j < nx ensures Column(m, p)[j] == BandColumn(kernel, ny, r, c, nx)[j] {
      DesignEntry(kernel, nx, ny, Fill(nx, 1.0), j, r, c);
    }
    assert Column(m, p) == BandColumn(kernel, ny, r, c, nx);
    DotOnes(Fill(nx, 1.0), Column(m, p));
    BandPartialSum(kernel, ny, r, c, nx);
    assert FirstSeen(c, ny / 2, ny, nx) == 0;
    assert kernel[r][0..] == kernel[r];
  }

  /**
   * Summed over rows, an interior column of the flat model of a stack in flux
   * density holds the total of the kernel; with a normalised kernel that is one.
   */
  lemma {:induction false} FlatInteriorColumn(kernel: seq<seq<real>>, nx: nat, ny: nat, c: nat)
    requires KernelShape(kernel, ny) && ny % 2 == 0 && ny <= nx
    requires ny / 2 <= c + 1 && c + ny / 2 + 1 <= nx
    ensures Sum(ColumnOf(ComputeModel(Fill(nx, 1.0), DesignMatrix(kernel, nx, ny, Fill(nx, 1.0)), ny * nx), nx, ny, c))
      == KernelTotal(kernel)
  {
    var flat := ComputeModel(Fill(nx, 1.0), DesignMatrix(kernel, nx, ny, Fill(nx, 1.0)), ny * nx);
    forall r | 0 <= r < ny ensures ColumnOf(flat, nx, ny, c)[r] == RowSums(kernel)[r] {
      FlatInteriorPixel(kernel, nx, ny, r, c);
    }
    assert ColumnOf(flat, nx, ny, c) == RowSums(kernel);
  }

  /** Result of the optimal extraction of one column: its flux and, when finite, its variance. */
  datatype ColumnFit = ColumnFit(flux: real, variance: Option<real>)

  /** Pointwise product of three vectors. */
  function Product3(a: seq<real>, b: seq<real>, c: seq<real>): (r: seq<real>)
    requires |a| == |b| == |c|
    ensures |r| == |a|
  {
    seq(|a|, i requires 0 <= i < |a| => a[i] * b[i] * c[i])
  }

  lemma {:induction false} Product3At(a: seq<real>, b: seq<real>, c: seq<real>, i: nat)
    requires |a| == |b| == |c| && i < |a|
    ensures Product3(a, b, c)[i] == a[i] * b[i] * c[i]
  {
  }

  /** The spatial profile of a column: the flat model divided by its column total. */
  function Profile(flatCol: seq<real>): (prof: seq<real>)
    requires Sum(flatCol) != 0.0
    ensures |prof| == |flatCol|
  {
    Scale(flatCol, 1.0 / Sum(flatCol))
  }

  /** `(prof**2*ivar).sum(axis=0)` for one column. */
  function ExtractionDen(flatCol: seq<real>, ivarCol: seq<real>): real
    requires |flatCol| == |ivarCol| && Sum(flatCol) != 0.0
  {
    Sum(Product3(Profile(flatCol), Profile(flatCol), ivarCol))
  }

  /** `(prof*data*ivar).sum(axis=0)` for one column. */
  function ExtractionNum(flatCol: seq<real>, ivarCol: seq<real>, dataCol: seq<real>): real
    requires |flatCol| == |ivarCol| == |dataCol| && Sum(flatCol) != 0.0
  {
    Sum(Product3(Profile(flatCol), dataCol, ivarCol))
  }

  /**
   * Optimal (profile-weighted) extraction of one column: the flux is
   * `sum(prof*data*ivar)/sum(prof**2*ivar)` and the variance
   * `1/sum(prof**2*ivar)`. When the column total of the flat model or the
   * denominator is zero the variance is not finite and the flux is clipped to zero.
   */
  function ExtractColumn(flatCol: seq<real>, ivarCol: seq<real>, dataCol: seq<real>): (f: ColumnFit)
    requires |flatCol| == |ivarCol| == |dataCol|
    ensures f.variance.None? <==> Sum(flatCol) == 0.0 || ExtractionDen(flatCol, ivarCol) == 0.0
    ensures f.variance.None? ==> f.flux == 0.0
  {
    if Sum(flatCol) == 0.0 then ColumnFit(0.0, None)
    else
      var den := ExtractionDen(flatCol, ivarCol);
      if den == 0.0 then ColumnFit(0.0, None)
      else ColumnFit(ExtractionNum(flatCol, ivarCol, dataCol) / den, Some(1.0 / den))
  }

  /** With non-negative inverse variances, a finite extraction variance is positive. */
  lemma {:induction false} ExtractVariancePositive(flatCol: seq<real>, ivarCol: seq<real>, dataCol: seq<real>)
    requires |flatCol| == |ivarCol| == |dataCol|
    requires forall r :: 0 <= r < |ivarCol| ==> ivarCol[r] >= 0.0
    ensures ExtractColumn(flatCol, ivarCol, dataCol).variance.Some? ==> ExtractColumn(flatCol, ivarCol, dataCol).variance.value > 0.0
  {
    if Sum(flatCol) != 0.0 {
      var prof := Profile(flatCol);
      var terms := Product3(prof, prof, ivarCol);
      forall r | 0 <= r < |terms| ensures terms[r] >= 0.0 {
        Product3At(prof, prof, ivarCol, r);
        assert prof[r] * prof[r] >= 0.0;
      }
      SumNonNegative(terms);
    }
  }

  /**
   * Extracting the flat model itself returns its column total wherever the
   * variance is finite: the extraction is unbiased for data shaped like the
   * model profile.
   */
  lemma {:induction false} ExtractProfile(flatCol: seq<real>, ivarCol: seq<real>)
    requires |flatCol| == |ivarCol|
    ensures ExtractColumn(flatCol, ivarCol, flatCol).variance.Some? ==>
      ExtractColumn(flatCol, ivarCol, flatCol).flux == Sum(flatCol)
  {
    ExtractedFlux(flatCol, ivarCol, flatCol);
    var t := Sum(flatCol);
    if t != 0.0 {
      var num, den := ExtractionNum(flatCol, ivarCol, flatCol), ExtractionDen(flatCol, ivarCol);
      assert num == den * t by {
        ProfileSums(flatCol, ivarCol, t, num, den);
      }
      QuotientOfMultiple(num, den, t);
    }
  }

  /** A finite extraction has a non-zero column total and denominator, and its flux is their quotient. */
  lemma {:induction false} ExtractedFlux(flatCol: seq<real>, ivarCol: seq<real>, dataCol: seq<real>)
    requires |flatCol| == |ivarCol| == |dataCol|
    ensures ExtractColumn(flatCol, ivarCol, dataCol).variance.Some? ==>
      Sum(flatCol) != 0.0 && ExtractionDen(flatCol, ivarCol) != 0.0
      && ExtractColumn(flatCol, ivarCol, dataCol).flux == ExtractionNum(flatCol, ivarCol, dataCol) / ExtractionDen(flatCol, ivarCol)
  {
  }

  /** The numerator of the extraction of the flat model is the column total times the denominator. */
  lemma {:induction false} ProfileSums(flatCol: seq<real>, ivarCol: seq<real>, t: real, num: real, den: real)
    requires |flatCol| == |ivarCol| && t == Sum(flatCol) && t != 0.0
    requires num == ExtractionNum(flatCol, ivarCol, flatCol) && den == ExtractionDen(flatCol, ivarCol)
    ensures num == den * t
  {
    var denTerms := Product3(Profile(flatCol), Profile(flatCol), ivarCol);
    assert Product3(Profile(flatCol), flatCol, ivarCol) == Scale(denTerms, t) by {
      assert Profile(flatCol) == Scale(flatCol, 1.0 / t);
      ProportionalTerms(flatCol, ivarCol, t);
    }
    SumScaleOf(denTerms, t, den);
  }

  /** Term by term, the numerator of the extraction of the flat model is the denominator times the column total. */
  lemma {:induction false} ProportionalTerms(flatCol: seq<real>, ivarCol: seq<real>, t: real)
    requires |flatCol| == |ivarCol| && t != 0.0
    ensures Product3(Scale(flatCol, 1.0 / t), flatCol, ivarCol)
      == Scale(Product3(Scale(flatCol, 1.0 / t), Scale(flatCol, 1.0 / t), ivarCol), t)
  {
    var prof := Scale(flatCol, 1.0 / t);
    var numTerms := Product3(prof, flatCol, ivarCol);
    var denTerms := Product3(prof, prof, ivarCol);
    forall r | 0 <= r < |numTerms| ensures numTerms[r] == Scale(denTerms, t)[r] {
      Product3At(prof, flatCol, ivarCol, r);
      Product3At(prof, prof, ivarCol, r);
      ProfileTerm(flatCol[r], t, prof[r], ivarCol[r], numTerms[r], denTerms[r]);
    }
  }

  /** One term of the extraction sums when the data is the flat model. */
  lemma {:induction false} ProfileTerm(f: real, t: real, pr: real, iv: real, nt: real, dt: real)
    requires t != 0.0 && pr == f * (1.0 / t)
    requires nt == pr * f * iv && dt == pr * pr * iv
    ensures nt == dt * t
  {
    assert f == pr * t;
  }

  lemma {:induction false} QuotientOfMultiple(num: real, den: real, q: real)
    requires num == den * q
    ensures den != 0.0 ==> num / den == q
  {
  }

  /** Output of `optimal_extract`: wavelengths, fluxes and uncertainties; `None` where not finite. */
  datatype Extraction = Extraction(wave: seq<real>, flux: seq<Option<real>>, rms: seq<Option<real>>)

  /** `scipy.ndimage.convolve` keeps the length of the vector it smooths. */
  ghost predicate KeepsLength(convolve: (seq<Option<real>>, seq<real>) -> seq<Option<real>>)
  {
    forall v, k :: |convolve(v, k)| == |v|
  }

  /** Entrywise square root of the finite entries. */
  function SqrtAll(v: seq<Option<real>>, sqrt: real -> real): (r: seq<Option<real>>)
    ensures |r| == |v|
  {
    seq(|v|, i requires 0 <= i < |v| => if v[i].Some? then Some(sqrt(v[i].value)) else None)
  }

  /** `np.interp`-style resampling onto the first argument's grid keeps that grid's length. */
  ghost predicate OnGrid(resample: (seq<real>, seq<real>, seq<real>) -> seq<real>)
  {
    forall a, b, c :: |resample(a, b, c)| == |a|
  }

  /** The pixels whose inverse variance exceeds `min_ivar` times the largest one. */
  function IvarMask(ivarf: seq<real>, minIvar: real): (m: seq<bool>)
    requires |ivarf| > 0
    ensures |m| == |ivarf|
    ensures forall p :: 0 <= p < |m| ==> (m[p] <==> ivarf[p] > Cut(minIvar, Max(ivarf)))
  {
    seq(|ivarf|, p requires 0 <= p < |ivarf| => ivarf[p] > Cut(minIvar, Max(ivarf)))
  }

  /** With a non-negative threshold, only pixels with positive inverse variance pass the mask. */
  lemma {:induction false} IvarMaskPositive(ivarf: seq<real>, minIvar: real, p: nat)
    requires |ivarf| > 0 && p < |ivarf| && minIvar >= 0.0
    requires forall q :: 0 <= q < |ivarf| ==> ivarf[q] >= 0.0
    requires IvarMask(ivarf, minIvar)[p]
    ensures ivarf[p] > 0.0
  {
    CutNonNegative(minIvar, Max(ivarf));
  }

  /** When some pixel has weight and `min_ivar < 1`, the best pixel always passes. */
  lemma {:induction false} IvarMaskNonEmpty(ivarf: seq<real>, minIvar: real)
    requires |ivarf| > 0 && minIvar < 1.0 && Max(ivarf) > 0.0
    ensures exists p :: 0 <= p < |ivarf| && IvarMask(ivarf, minIvar)[p]
  {
    var i :| 0 <= i < |ivarf| && ivarf[i] == Max(ivarf);
    CutBelowTop(minIvar, Max(ivarf));
    assert IvarMask(ivarf, minIvar)[i];
  }

  /**
   * The "electrons" image the profile cut is applied to: the flat model, times
   * the relative weight for stacks in flux density. When every weight is zero
   * the source divides zero by zero, which is `None` here.
   */
  function Electrons(flat: seq<real>, wht: seq<real>, isFlambda: bool): (e: Option<seq<real>>)
    requires |flat| == |wht| > 0
    ensures e.Some? ==> |e.value| == |flat|
    ensures e.None? <==> isFlambda && Max(wht) == 0.0
  {
    if !isFlambda then Some(flat)
    else
      var top := Max(wht);
      if top == 0.0 then None
      else Some(seq(|flat|, p requires 0 <= p < |flat| => flat[p] * wht[p] / top))
  }

  /**
   * `elec > mask_min*elec.max()`; every comparison with NaN is false, so a
   * degenerate kernel or an all-zero weight map keeps no pixel.
   */
  function ProfileMask(elec: Option<seq<real>>, kernelOk: bool, size: nat, maskMin: real): (m: seq<bool>)
    requires elec.Some? ==> |elec.value| == size
    ensures |m| == size
    ensures (!kernelOk || elec.None?) ==> forall p :: 0 <= p < size ==> !m[p]
  {
    if !kernelOk || elec.None? || size == 0 then seq(size, p => false)
    else
      var e := elec.value;
      var top := Max(e);
      seq(size, p requires 0 <= p < size => e[p] > Cut(maskMin, top))
  }

  /** A 1D spectrum given as wavelengths and fluxes. */
  datatype Spectrum1D = Spectrum1D(wave: seq<real>, flux: seq<real>)

  /** Per-column optimal extraction of a flattened image. */
  function ColumnFits(flat: seq<real>, ivarf: seq<real>, data: seq<real>, nx: nat, ny: nat): (fits: seq<ColumnFit>)
    requires |flat| == |ivarf| == |data| == ny * nx
    ensures |fits| == nx
    ensures forall c :: 0 <= c < nx ==>
      fits[c] == ExtractColumn(ColumnOf(flat, nx, ny, c), ColumnOf(ivarf, nx, ny, c), ColumnOf(data, nx, ny, c))
  {
    seq(nx, c requires 0 <= c < nx =>
      ExtractColumn(ColumnOf(flat, nx, ny, c), ColumnOf(ivarf, nx, ny, c), ColumnOf(data, nx, ny, c)))
  }

  /**
   * `optimal_extract(data, bin)`. Unbinned, every column's flux is reported
   * (zero where clipped) with its uncertainty (zero where clipped). Binned,
   * the clipped fluxes and the unclipped variances are smoothed with a boxcar
   * of width `bin` and every `bin`-th value from `bin // 2` is kept; variances
   * that were not finite stay so.
   */
  function OptimalExtract(flat: seq<real>, ivarf: seq<real>, wave: seq<real>, nx: nat, ny: nat,
                          data: seq<real>, bin: int, sqrt: real -> real,
                          convolve: (seq<Option<real>>, seq<real>) -> seq<Option<real>>): (x: Extraction)
    requires |flat| == |ivarf| == |data| == ny * nx && |wave| == nx
    requires KeepsLength(convolve)
    ensures |x.wave| == |x.flux| == |x.rms|
    ensures bin <= 1 ==> x.wave == wave && |x.flux| == nx
    ensures bin <= 1 ==> forall c :: 0 <= c < nx ==> x.flux[c] == Some(ColumnFits(flat, ivarf, data, nx, ny)[c].flux)
    ensures bin <= 1 ==> forall c :: 0 <= c < nx ==>
      var v := ColumnFits(flat, ivarf, data, nx, ny)[c].variance;
      x.rms[c] == (if v.Some? then Some(sqrt(v.value)) else Some(0.0)) && (v.None? ==> x.flux[c] == Some(0.0))
    ensures bin > 1 ==> x.wave == Stride(wave, bin / 2, bin) && |x.wave| == StrideCount(nx, bin / 2, bin)
  {
    var fits := ColumnFits(flat, ivarf, data, nx, ny);
    var flux := seq(nx, c requires 0 <= c < nx => Some(fits[c].flux));
    var variance := seq(nx, c requires 0 <= c < nx => fits[c].variance);
    if bin > 1 then
      var start := bin / 2;
      var boxcar := Fill(bin, 1.0 / bin as real);
      var boxcar2 := Fill(bin, 1.0 / (bin * bin) as real);
      Extraction(Stride(wave, start, bin),
                 Stride(convolve(flux, boxcar), start, bin),
                 SqrtAll(Stride(convolve(variance, boxcar2), start, bin), sqrt))
    else
      Extraction(wave, flux,
                 seq(nx, c requires 0 <= c < nx => if variance[c].Some? then Some(sqrt(variance[c].value)) else Some(0.0)))
  }

  /**
   * For a stack in flux density whose kernel normalised, extracting the flat
   * model returns one at every column the kernel fully covers, wherever the
   * variance is finite: the model and the extraction conserve flux.
   */
  lemma {:induction false} FlatExtractsToOne(kernel: seq<seq<real>>, nx: nat, ny: nat, ivarf: seq<real>, c: nat)
    requires KernelShape(kernel, ny) && ny % 2 == 0 && ny <= nx && KernelTotal(kernel) == 1.0
    requires |ivarf| == ny * nx
    requires ny / 2 <= c + 1 && c + ny / 2 + 1 <= nx
    ensures var flat := ComputeModel(Fill(nx, 1.0), DesignMatrix(kernel, nx, ny, Fill(nx, 1.0)), ny * nx);
      var fit := ColumnFits(flat, ivarf, flat, nx, ny)[c];
      fit.variance.Some? ==> fit.flux == 1.0
  {
    var flat := ComputeModel(Fill(nx, 1.0), DesignMatrix(kernel, nx, ny, Fill(nx, 1.0)), ny * nx);
    FlatInteriorColumn(kernel, nx, ny, c);
    ExtractProfile(ColumnOf(flat, nx, ny, c), ColumnOf(ivarf, nx, ny, c));
  }

  /**
   * One grism stack as `StackFitter` builds it (with `mask_threshold=-1`, so
   * no drizzle mask): its flattened images, the design matrix of its kernel
   * and the in-place fit mask.
   */
  class StackedSpectrum {
    const extver: string
    const nx: nat                   // NAXIS1
    const ny: nat                   // NAXIS2
    const size: nat
    const isFlambda: bool
    const wave: seq<real>
    const wavef: seq<real>
    const scif: seq<real>
    const ivarf0: seq<real>         // WHT as read
    const ivarf: seq<real>          // WHT with the systematic error added
    const sivarf: seq<real>
    const weightf: seq<real>
    const kernel: Option<seq<seq<real>>>
    const sens: seq<real>           // factors applied to the design matrix
    const fitData: seq<seq<real>>
    const flat: seq<real>
    const fitMask: array<bool>
    var DoF: int

    /** Shapes and signs that every later computation relies on. */
    ghost predicate Valid()
    {
      2 <= ny <= nx && ny % 2 == 0 && size == ny * nx && size > 0
      && |wave| == nx && |wavef| == size && |scif| == size && |ivarf0| == size
      && |ivarf| == size && |sivarf| == size && |weightf| == size && |flat| == size
      && |sens| == nx
      && (kernel.Some? ==> KernelShape(kernel.value, ny))
      && |fitData| == nx && (forall j :: 0 <= j < nx ==> |fitData[j]| == size)
      && fitMask.Length == size
      && (forall p :: 0 <= p < size ==> 0.0 <= ivarf[p] <= ivarf0[p])
      && (forall p :: 0 <= p < size ==> weightf[p] > 0.0)
    }

    /** The design matrix and flat model are those of the normalised kernel. */
    ghost predicate Derived()
      requires Valid()
    {
      fitData == DesignMatrix(KernelOrZero(kernel, ny), nx, ny, sens)
      && flat == ComputeModel(Fill(nx, 1.0), fitData, size)
    }

    constructor (extver: string, hdu: StackHdu, sysErr: real, maskMin: real, fcontam: real, minIvar: real,
                 sqrt: real -> real, exp: real -> real)
      requires HduValid(hdu) && PositiveExp(exp)
      ensures Valid() && Derived() && fresh(fitMask)
      ensures this.extver == extver && nx == hdu.naxis1 && ny == hdu.naxis2 && isFlambda == hdu.isFlambda
      ensures wave == WavelengthFromHeader(hdu.naxis1, hdu.crpix1, hdu.cd1_1, hdu.crval1)
      ensures wavef == Broadcast(wave, ny)
      ensures scif == hdu.sci && ivarf0 == hdu.wht
      ensures ivarf == InflatedIvars(hdu.wht, hdu.sci, sysErr)
      ensures sivarf == MapSqrt(ivarf, sqrt)
      ensures weightf == Weights(hdu, fcontam, sqrt, exp)
      ensures kernel == NormaliseKernel(hdu.kernel) && sens == Sensitivity(hdu)
      ensures fitMask[..] == And(IvarMask(ivarf, minIvar),
                                 ProfileMask(Electrons(flat, ivarf0, isFlambda), kernel.Some?, size, maskMin))
      ensures DoF == Count(fitMask[..])
    {
      this.extver := extver;
      var nx, ny := hdu.naxis1, hdu.naxis2;
      this.nx, this.ny := nx, ny;
      var size := ny * nx;
      this.size := size;
      isFlambda := hdu.isFlambda;
      var w := WavelengthFromHeader(hdu.naxis1, hdu.crpix1, hdu.cd1_1, hdu.crval1);
      wave := w;
      wavef := Broadcast(w, ny);
      scif := hdu.sci;
      ivarf0 := hdu.wht;
      var iv := InflatedIvars(hdu.wht, hdu.sci, sysErr);
      ivarf := iv;
      sivarf := MapSqrt(iv, sqrt);
      weightf := Weights(hdu, fcontam, sqrt, exp);
      var k := NormaliseKernel(hdu.kernel);
      kernel := k;
      var scale := Sensitivity(hdu);
      sens := scale;
      var kz := KernelOrZero(k, ny);
      var data := BuildModel(kz, nx, ny);
      var fd := FlattenModel(data, kz, nx, ny, scale);
      fitData := fd;
      var fl := ComputeModel(Fill(nx, 1.0), fd, size);
      flat := fl;
      assert size > 0 by {
        MulLe(1, ny, nx);
      }
      var ivMask := IvarMask(iv, minIvar);
      var mask := new bool[size](p requires 0 <= p < size => ivMask[p]);
      assert mask[..] == ivMask;
      fitMask := mask;
      new;
      NarrowInPlace(fitMask, ProfileMask(Electrons(flat, ivarf0, isFlambda), kernel.Some?, size, maskMin));
      DoF := Count(fitMask[..]);
    }

    /**
     * `compute_model(spectrum_1d)`: the flattened 2D model of a 1D spectrum
     * resampled onto the stack's wavelengths, or of a flat unit spectrum.
     */
    function ComputeModelFor(spectrum: Option<Spectrum1D>,
                             resample: (seq<real>, seq<real>, seq<real>) -> seq<real>): (m: seq<real>)
      requires Valid() && OnGrid(resample)
      ensures |m| == size
      ensures spectrum.None? && Derived() ==> m == flat
      ensures spectrum.Some? ==> m == ComputeModel(resample(wave, spectrum.value.wave, spectrum.value.flux), fitData, size)
    {
      var fl := match spectrum
        case None => Fill(nx, 1.0)
        case Some(s) => resample(wave, s.wave, s.flux);
      ComputeModel(fl, fitData, size)
    }

    /** Columns with positive summed inverse variance: `ivar.sum(axis=0) > 0`. */
    function CoveredColumns(): (m: seq<bool>)
      requires Valid()
      ensures |m| == nx
      ensures forall c :: 0 <= c < nx ==> (m[c] <==> Sum(ColumnOf(ivarf, nx, ny, c)) > 0.0)
    {
      seq(nx, c requires 0 <= c < nx => Sum(ColumnOf(ivarf, nx, ny, c)) > 0.0)
    }

    /**
     * The wavelength range of the covered columns, used by `fit_at_z` to skip
     * templates that miss the stack. `None` when no column is covered, where
     * the source's `min()` of an empty array raises.
     */
    function CoveredRange(): (r: Option<(real, real)>)
      requires Valid()
      ensures r.Some? <==> exists c :: 0 <= c < nx && CoveredColumns()[c]
      ensures r.Some? ==> forall c :: 0 <= c < nx && CoveredColumns()[c] ==> r.value.0 <= wave[c] <= r.value.1
      ensures r.Some? ==> exists c :: 0 <= c < nx && CoveredColumns()[c] && wave[c] == r.value.0
      ensures r.Some? ==> exists c :: 0 <= c < nx && CoveredColumns()[c] && wave[c] == r.value.1
    {
      var cols := CoveredColumns();
      var covered := Compress(wave, cols);
      CountPositive(cols);
      if |covered| == 0 then None
      else
        CoveredBounds(wave, cols, Min(covered), Max(covered));
        Some((Min(covered), Max(covered)))
    }
  }

  /** The minimum and maximum of the selected entries bound every selected entry and are attained. */
  lemma {:induction false} CoveredBounds(wave: seq<real>, cols: seq<bool>, lo: real, hi: real)
    requires |wave| == |cols| && |Compress(wave, cols)| > 0
    requires lo == Min(Compress(wave, cols)) && hi == Max(Compress(wave, cols))
    ensures forall c :: 0 <= c < |wave| && cols[c] ==> lo <= wave[c] <= hi
    ensures exists c :: 0 <= c < |wave| && cols[c] && wave[c] == lo
    ensures exists c :: 0 <= c < |wave| && cols[c] && wave[c] == hi
  {
    var covered := Compress(wave, cols);
    forall c | 0 <= c < |wave| && cols[c] ensures lo <= wave[c] <= hi {
      CompressHas(wave, cols, c);
    }
    var kl :| 0 <= kl < |covered| && covered[kl] == lo;
    CompressFrom(wave, cols, kl);
    var kh :| 0 <= kh < |covered| && covered[kh] == hi;
    CompressFrom(wave, cols, kh);
  }
}
