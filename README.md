# Stacked grism spectrum fitting, modelled in Dafny

This project models the bookkeeping core of `grizli/stack.py`: the code around the numerical fit of
drizzled grism stacks.

- `StackFitter.__init__` selects the extensions of the stack file, drops exposures whose kernel does not
  normalise, concatenates the per-exposure vectors, narrows the fit mask and counts the degrees of freedom.
  It also appends photometric points when a photometric catalogue is given.
- `_get_slices` builds the table of each exposure's range in the joint vector.
- `_init_background` builds the 0/1 background indicator matrix.
- `StackedSpectrum` reads the wavelength grid from the header, builds the kernel-band model cube
  (`_build_model`), computes 2D models (`compute_model`), builds the fit mask and does the optimal 1D
  extraction (`optimal_extract`).
- `fit_at_z` fills the design matrix and drops the rows that vanish on the fitted pixels (`oktemp`). It adds
  the 0.04 pedestal to the data, hands the weighted system to the solver, takes the pedestal off the
  background, and scatters the coefficients back to one entry per template. The fit, the scan and
  `fit_zgrid` are modelled on the corrected assembly of "## Findings"; the assembly as written is modelled
  beside it and proved equal to it whenever every exposure has a fitted pixel.
- `fit_zgrid` scans a coarse redshift grid, then six refinement passes around the current minimum. It
  co-sorts the scan by redshift, adds the prior, picks the best redshift, rejects outliers, computes
  `area25`, builds the best-fit 1D templates and numbers the line templates with their equivalent widths.
- `mask_drizzle_overlaps` masks pixels well above the per-grism minimum.

## Layout

- `numerics.dfy` (module `Numerics`): real vectors and masks. It covers sums, masked sums, `np.dot`,
  boolean indexing (`Compress`), `np.argmin`, `np.clip`, `np.trapz`, Python's `int()` and strided slices.
- `assembly.dfy` (module `Assembly`): extension selection, the degenerate-exposure pop, `np.hstack`, the
  slice table and the background indicator matrix.
- `stacked_spectrum.dfy` (module `Spectrum`): the `StackedSpectrum` class and the pure functions it uses.
- `coefficients.dfy` (module `Coefficients`): `oktemp`, the pedestal, the weighted solver system, chi-squared
  and the coefficient scatter. It holds both the corrected fit and the fit as written.
- `templates.dfy` (module `Templates`): `generate_1D_templates`, line numbering and equivalent widths.
- `redshift_scan.dfy` (module `RedshiftScan`): the co-sort by redshift, the refinement grid arithmetic,
  `area25` and the best redshift.
- `stack_fitter.dfy` (module `Fitter`): the `StackFitter` class and its loops. Its members build the joint
  system, fill the design matrix in place, fit at one redshift, scan redshifts, reject outliers and mask
  drizzle overlaps.

Code that changes state in place is modelled as methods over arrays and class fields:

- the pop loop;
- the slice loop;
- the background matrix;
- the `_build_model` cube;
- the design matrix;
- the fit masks;
- the scan loop.

Each such method is proved against a specification function, and the lemmas are about those functions.

Fluxes are `real`, not floating point. A value that the source computes as NaN or infinite is an `Option`,
or is listed below.

These parts of the numerical library are parameters of the model. Each is constrained only by the shapes
it returns, except for two assumptions on values, listed under "## Left out": `exp` is positive, and every
redshift that `log_zgrid` returns is above -1.

- the solver (`nnls`/`lstsq`);
- the covariance diagonal;
- `sqrt`, `exp`;
- resampling (`interp_conserve_c`);
- `log_zgrid`;
- the prior's `np.interp`;
- `scipy.ndimage.convolve`.

## Model

| member | source | states |
|---|---|---|
| Assembly.SelectExtensions | grizli/stack.py:98-125 | The loop's list is `Extensions(...)`: grism by grism in header order. Each grism contributes either its own name (fit_stacks) or each of its `"{grism},{pa}"` names that pass the filters. |
| Assembly.StackExtensionsExact | grizli/stack.py:103-108 | With fit_stacks, a name is selected iff it is a header grism and `extensions` allows it (both directions). |
| Assembly.PaExtensionsExact | grizli/stack.py:110-123 | For one grism, a name is selected iff it is `"{grism},{pa}"` for one of the grism's position angles, `pas` allows the pa and `extensions` allows the name. |
| Assembly.PaModeExtensionsExact | grizli/stack.py:109-123 | Without fit_stacks, a name is selected iff it is `"{g},{pa}"` for some header grism g and one of its position angles, with both filters passed. |
| Assembly.Dropped | grizli/stack.py:127-138 | Every entry of `pop` is the index of an exposure whose kernel sum is not finite. |
| Assembly.DroppedExact | grizli/stack.py:127-138 | `pop` is strictly increasing and lists every degenerate index. Its length plus the number of kept exposures is the number of extensions. |
| Assembly.DroppedGap | grizli/stack.py:127-138 | Every exposure between two consecutive entries of `pop` (or before the first or after the last) is kept. |
| Assembly.PopOne | grizli/stack.py:140-142 | One `ext.pop(q)` below every index still pending removes exactly entry q and leaves the later pops' targets in place. |
| Assembly.PopDone | grizli/stack.py:140-142 | Once nothing is left to pop, the list is the boolean-indexed extension list. |
| Assembly.PopDegenerate | grizli/stack.py:140-142 | Popping in reverse leaves exactly `Compress(ext, ok)`: the extensions of the kept exposures, in order, so `ext[k]` is still the extension of `E[k]`. `Next` drops by `len(pop)` and ends equal to the number kept. |
| Assembly.ConcatLength | grizli/stack.py:147-148 | The `np.hstack` of the parts is as long as the sum of their sizes (`Ndata`). |
| Assembly.ConcatAt | grizli/stack.py:147-152 | Entry t of part i sits at offset `sum(sizes[:i]) + t` of the joint vector. |
| Assembly.ConcatAtSized | grizli/stack.py:147-152 | Entry t of part i sits at offset `sum(sizes[:i]) + t`, for parts of the given sizes. |
| Assembly.GetSlices | grizli/stack.py:208-214 | The slice table is a contiguous partition: the first slice starts at 0, each starts where the previous stops and is as long as its exposure, and the last stops at `Ndata`. |
| Assembly.PartitionStart | grizli/stack.py:208-212 | Slice i starts at the total size of the exposures before it and stops at the total size including it. |
| Assembly.PartitionOwner | grizli/stack.py:208-214 | Every joint index lies in exactly one slice. |
| Assembly.InitBackground | grizli/stack.py:228-232 | A fresh `Next × Ndata` array whose entry (i, k) is 1 exactly when k lies in `slices[i]`, and 0 otherwise. |
| Assembly.BackgroundColumn | grizli/stack.py:228-232 | Each spectroscopic column of `Abg` has exactly one 1, in the row of the exposure that owns it. |
| Numerics.Compress | grizli/stack.py:489 | Boolean indexing `xs[keep]` keeps one entry per true mask entry. |
| Numerics.CompressAt | grizli/stack.py:489-490 | Entry r of `xs[keep]` is the entry at the r-th kept position. |
| Numerics.CompressFrom | grizli/stack.py:489-490 | Every entry that boolean indexing keeps comes from a selected position. |
| Numerics.CompressHas | grizli/stack.py:489-490 | Every selected entry survives boolean indexing. |
| Numerics.NarrowInPlace | grizli/stack.py:158 | The in-place `mask &= keep` leaves the entrywise AND of the old mask and `keep`. |
| Numerics.MaskedSumMonotone | grizli/stack.py:160 | Narrowing a mask can only lower the masked sum of non-negative weights, so narrowing `fit_mask` never raises `DoF`. |
| Numerics.MaskedSumOfOnes | grizli/stack.py:1052 | With unit weights the masked sum is the number of true entries. |
| Numerics.MaskedSumIsSum | grizli/stack.py:506-507 | `(mask*w).sum()` is the sum of `w[mask]`. |
| Numerics.Trunc | grizli/stack.py:160 | Python's `int()` truncates toward zero, for both signs. |
| Numerics.Max | grizli/stack.py:158 | `max()` of a non-empty vector bounds every entry and is attained. |
| Numerics.Min | grizli/stack.py:657 | `min()` of a non-empty vector is below every entry and is attained. |
| Numerics.ArgMin | grizli/stack.py:598 | `np.argmin` is the first index of a smallest entry. |
| Numerics.Clip | grizli/stack.py:657 | `np.clip` lies in `[lo, hi]` and leaves values already in range unchanged. |
| Numerics.TrapzMonotone | grizli/stack.py:657-658 | On ascending abscissae, `np.trapz` is monotone in the ordinates. |
| Numerics.TrapzConstant | grizli/stack.py:658 | `np.trapz(z*0+25, z)` is 25 times the span of z. |
| Numerics.TrapzNonNegative | grizli/stack.py:657 | On ascending abscissae, `np.trapz` of non-negative ordinates is non-negative. |
| Numerics.Stride | grizli/stack.py:1086-1089 | `s[start::step]` has `StrideCount` entries. |
| Numerics.StrideAt | grizli/stack.py:1086-1089 | Entry k of `s[start::step]` is `s[start + k*step]`. |
| Numerics.CountPositive | grizli/stack.py:135-138 | A mask counts a positive number of entries iff some entry is true. |
| Spectrum.WavelengthFromHeader | grizli/stack.py:1058-1063 | The grid has NAXIS1 entries and step CD1_1, and the one-based reference pixel CRPIX1 sits at CRVAL1. |
| Spectrum.WavelengthAscending | grizli/stack.py:1062 | With a positive CD1_1 the grid ascends. |
| Spectrum.Broadcast | grizli/stack.py:1000 | `wavef` has `NAXIS2 × NAXIS1` entries. |
| Spectrum.BroadcastAt | grizli/stack.py:1000 | Pixel (r, c) of the flattened `wavef` carries the wavelength of column c. |
| Spectrum.InflatedIvar | grizli/stack.py:1015 | `1/(1/ivar + (sys_err*sci)**2)` lies in `[0, ivar]`. It is zero iff `ivar` is zero, and unchanged when `sys_err*sci` is zero. |
| Spectrum.InflatedIvars | grizli/stack.py:1015 | `ivarf` is the inflated inverse variance pixel by pixel, so by `Spectrum.InflatedIvar` each pixel lies in `[0, ivar]` and is zero iff `ivar` is. |
| Spectrum.MapSqrt | grizli/stack.py:1018 | `sivarf` is the square root of `ivarf` pixel by pixel; `Fitter.Joined` states the joint `sivarf` through it. |
| Spectrum.Weights | grizli/stack.py:1025-1035 | Contamination weights are positive, and are all 1 when the stack has no CONTAM extension. |
| Spectrum.NormaliseKernel | grizli/stack.py:1038-1039 | `kernel /= kernel.sum()` fails (None) iff the raw kernel sums to zero. Otherwise it keeps the shape and sums to 1. |
| Spectrum.KernelTotalScale | grizli/stack.py:1039 | Dividing every kernel entry by a constant divides the total by that constant. |
| Spectrum.AddBand | grizli/stack.py:1105-1112 | One slice assignment `data[j,:,lo:hi] += kernel[...]` adds kernel column `c - j + NY//2` at `(j, r, c)` for c in `[lo, hi)`. Every other entry is unchanged. |
| Spectrum.BuildModel | grizli/stack.py:1095-1112 | The fresh `NAXIS1 × NY × NAXIS1` cube holds `kernel[r][c - j + NY//2]` wherever that kernel column exists, and 0 elsewhere, so the edges truncate rather than wrap. |
| Spectrum.DesignEntry | grizli/stack.py:1114-1122 | Pixel (r, c) of design image j is the band value times the sensitivity at j. |
| Spectrum.FlattenModel | grizli/stack.py:1114-1122 | The cube built in place, reshaped and scaled by the sensitivity, is `DesignMatrix`. |
| Spectrum.ImageIsDesign | grizli/stack.py:1114 | Slice j of a cube holding the kernel band flattens to design image j. |
| Spectrum.Sensitivity | grizli/stack.py:1116-1122 | The scale factors are 1 for a stack already in flux density (ISFLAM). |
| Spectrum.ComputeModel | grizli/stack.py:1134 | `np.dot(fl, fit_data)` at pixel p is the dot product of `fl` with column p of the design matrix; `ComputeModelAdd` and `ComputeModelScale` prove it linear. |
| Spectrum.ComputeModelAdd | grizli/stack.py:1134 | The model of a sum of spectra is the sum of their models. |
| Spectrum.ComputeModelScale | grizli/stack.py:1134 | Scaling the spectrum scales the model. |
| Spectrum.BandPartialSum | grizli/stack.py:1104-1112 | Summed over the first n design images, the band at column c collects a suffix of the kernel row. |
| Spectrum.FlatInteriorPixel | grizli/stack.py:1104-1112 | In an interior column, the flat model of a stack in flux density holds the whole kernel row sum. |
| Spectrum.FlatInteriorColumn | grizli/stack.py:1104-1112 | Summed over rows, an interior column of the flat model holds the kernel total. |
| Spectrum.ExtractColumn | grizli/stack.py:1071-1082 | The variance is not finite (None) iff the column's flat total or `sum(prof**2*ivar)` is zero. The flux is then clipped to 0. |
| Spectrum.ExtractVariancePositive | grizli/stack.py:1077 | With non-negative inverse variances, a finite extraction variance is positive. |
| Spectrum.ExtractedFlux | grizli/stack.py:1074-1076 | A finite extraction's flux is `sum(prof*data*ivar)/sum(prof**2*ivar)`. |
| Spectrum.ExtractProfile | grizli/stack.py:1071-1076 | Extracting the flat model itself returns its column total wherever the variance is finite. |
| Spectrum.ColumnFits | grizli/stack.py:1071-1082 | Column c's fit is the extraction of column c of the flat model, inverse variance and data. |
| Spectrum.OptimalExtract | grizli/stack.py:1065-1093 | Unbinned: the wavelengths are `wave`. Each column's flux is its extraction, and its rms is `sqrt(var)`. Both are 0 where the variance is clipped. Binned: the wavelengths are `wave[bin//2::bin]`, and the three outputs have equal lengths. |
| Spectrum.FlatExtractsToOne | grizli/stack.py:1065-1082 | For a normalised kernel, extracting the flat model gives 1 in every interior column with finite variance. |
| Spectrum.IvarMask | grizli/stack.py:1020 | A pixel passes iff `ivarf > min_ivar*ivarf.max()`; `IvarMaskPositive` and `IvarMaskNonEmpty` state what the cut keeps. |
| Spectrum.IvarMaskPositive | grizli/stack.py:1020 | With `min_ivar >= 0`, only pixels with positive inverse variance pass. |
| Spectrum.IvarMaskNonEmpty | grizli/stack.py:1020 | With `min_ivar < 1` and some positive weight, the best pixel passes. |
| Spectrum.Electrons | grizli/stack.py:1045-1048 | The "electrons" image is not finite (None) iff the stack is in flux density and all of WHT is zero (0/0). |
| Spectrum.ProfileMask | grizli/stack.py:1050 | `elec > mask_min*elec.max()` keeps no pixel when the kernel did not normalise or `elec` is NaN. |
| Spectrum.StackedSpectrum.constructor | grizli/stack.py:985-1052 | The fields are the header grid, `wavef`, SCI, WHT, inflated `ivarf`, `sivarf`, the weights, the normalised kernel and the sensitivity. `fit_mask` is the ivar cut AND the profile cut, and `DoF` is its count. |
| Spectrum.StackedSpectrum.ComputeModelFor | grizli/stack.py:1124-1136 | With no spectrum the model is the flat model. Otherwise it is `ComputeModel` of the spectrum resampled onto `wave`. |
| Spectrum.StackedSpectrum.CoveredColumns | grizli/stack.py:481 | `clip = E.ivar.sum(axis=0) > 0`, column by column; `CoveredRange` is None iff it selects no column. |
| Spectrum.StackedSpectrum.CoveredRange | grizli/stack.py:481-483 | None iff no column is covered, where `max()` of an empty array raises. Otherwise it is the attained min and max of the covered wavelengths. |
| Spectrum.CoveredBounds | grizli/stack.py:482 | The min and max of the selected wavelengths bound each selected wavelength and are attained. |
| Coefficients.OkRows | grizli/stack.py:489 | `oktemp[i]` holds iff the masked sum of design row i over the fitted pixels is non-zero; `ZeroRowDropped`, `MaskedSumIndicator` and `Fitter.BackgroundRowKept` state which rows that drops. |
| Coefficients.ZeroRowDropped | grizli/stack.py:489 | A design row that is zero on every fitted pixel is dropped by `oktemp`. |
| Coefficients.MaskedSumIndicator | grizli/stack.py:489 | A 0/1 row has a non-negative masked sum, which is zero iff the row is zero on every fitted pixel. |
| Coefficients.PlaceSelect | grizli/stack.py:520-524 | `out[sel] = vals` into a zero vector, read back at the same positions, gives `vals` in order. |
| Coefficients.DotPlace | grizli/stack.py:520-524 | The dot product of a placed vector with a column only involves the selected rows. |
| Coefficients.Scatter | grizli/stack.py:520-524 | The scattered coefficients have one entry per row of the range, and every dropped row gets 0. |
| Coefficients.ScatterInOrder | grizli/stack.py:520-524 | The kept entries of the scatter are exactly the solver's coefficients for those rows, in row order. |
| Coefficients.ScatterModel | grizli/stack.py:504-524 | The model built from all rows with the scattered coefficients equals the model of the kept rows with the solver's coefficients, so the zeros put in for dropped rows change nothing. |
| Coefficients.ColumnOfKept | grizli/stack.py:491-495 | Taking a column of the kept rows is the same as selecting from the column. |
| Coefficients.FullDefined | grizli/stack.py:504 | A model of n weighted rows divided back by `sivarf` is a number at pixel k iff n is 0 or `sivarf[k]` is non-zero. |
| Coefficients.WeightedColumn | grizli/stack.py:491 | A column of `Ax = A[oktemp,:]*sivarf` is the column of the kept rows times that pixel's weight. |
| Coefficients.WeightedData | grizli/stack.py:493-496 | The weighted data is `(scif + 0.04)*sivarf` at every pixel. |
| Coefficients.SolverResidual | grizli/stack.py:498-501 | The solver's residual at p is the data at p less the dot product of the coefficients with column p of the rows. |
| Coefficients.ResidualAtPixels | grizli/stack.py:495-501 | Restricting the residual to the fitted pixels is the residual of the system that `AxT` and `data` hand to the solver. |
| Coefficients.LessPedestal | grizli/stack.py:503 | Every pixel of the model has the 0.04 pedestal taken off. |
| Coefficients.Assemble | grizli/stack.py:503-524 | `coeffs` and `coeffsErr` have NTEMP entries and are the scatters of the solver's coefficients and uncertainties, 0 for dropped templates. The background at every pixel is the background-row coefficients dotted with the column of `A[:Next,:]`, less the pedestal. |
| Coefficients.KeptFrom | grizli/stack.py:489 | Some row from position `lo` on is kept iff the kept rows from `lo` on are counted. |
| Coefficients.AssembleFullDefined | grizli/stack.py:504 | The source's `full` is not a number at pixel k iff `sivarf[k]` is 0 and some template row is kept. |
| Coefficients.AssembleFull | grizli/stack.py:504 | `full` is the model of the kept template rows with the solver's coefficients for those rows. |
| Coefficients.AssembleBackground | grizli/stack.py:503 | `background` is the model of the kept background rows with their coefficients, less the pedestal. |
| Coefficients.WeightedResiduals | grizli/stack.py:506-507 | The weighted residual at k is `(scif[k] - full[k] - background[k])*sivarf[k]`. |
| Coefficients.PedestalCancels | grizli/stack.py:493-506 | When the model with the pedestal is the kept rows' model, the weighted residual equals the residual of the data with the pedestal. |
| Coefficients.FitResidual | grizli/stack.py:493-507 | When background plus full plus pedestal is the kept rows' model at every pixel, the weighted residuals are the solver's residual on the weighted data with the pedestal. |
| Coefficients.FitResidualAt | grizli/stack.py:493-507 | `FitResidual` at one pixel. |
| Coefficients.AssembleAddsUp | grizli/stack.py:503-504 | At every pixel, background plus full plus the pedestal is the model of all kept rows. |
| Coefficients.AssembleResidual | grizli/stack.py:493-507 | The fit's weighted residual is, at every pixel, the solver's residual on the weighted data with the pedestal, so the pedestal added at 493 cancels the one taken off at 503. |
| Coefficients.WeightedResidual | grizli/stack.py:491-496 | The solver's residual at a pixel is `(scif + 0.04 - model of the kept rows)*sivarf`. |
| Coefficients.Chi2Weighted | grizli/stack.py:506-507 | `sum(resid[fit_mask]**2*sivarf[fit_mask]**2)` is the sum of the squared weighted residuals over the fitted pixels. |
| Coefficients.AssembleChi | grizli/stack.py:495-507 | `chi2` is the sum of the squares of the solver's residual on the system it was given, so it is never negative. |
| Coefficients.ScatterAsWritten | grizli/stack.py:520-524 | `full_coeffs[oktemp[Next:]] = coeffs[Next:]` as numpy evaluates it. When it succeeds it has NTEMP entries. |
| Coefficients.ScatterAsWrittenAgrees | grizli/stack.py:489-524 | When every background row is kept, the scatter as written is the rank-based scatter. |
| Coefficients.ScatterMisaligned | grizli/stack.py:520-521 | With the one background row dropped from rows `[bg, t0, t1]`, the scatter as written gives `[b, b]`, but the coefficients of t0 and t1 are `[a, b]`. |
| Coefficients.AssembleAsWritten | grizli/stack.py:503-524 | `fit_at_z`'s assembly as written succeeds iff at least `Next` rows are kept and `coeffs[Next:]` can be scattered. On success, every output has the shape the source gives it. |
| Coefficients.AssembleAsWrittenAgrees | grizli/stack.py:489-524 | When every background row is kept, the assembly as written equals `Assemble`. |
| Coefficients.AssembleMisaligned | grizli/stack.py:503-521 | A concrete input with the background row dropped. As written, the first template's coefficient becomes the background level, the second is broadcast to both templates, and `full` omits the first template. `Assemble` gives each kept row its own coefficient. |
| Templates.ZScale0 | grizli/stack.py:771-779 | `zscale(0, scalar=c)` keeps the wavelengths and scales the flux by c; `Generate1DTemplates` builds its continuum and line templates from it. |
| Templates.Generate1DTemplates | grizli/stack.py:762-781 | Fails (None) iff there are no templates. Otherwise `tc` is the combination with the continuum weights (lines after the first scaled by 0) and `tl` is the combination with all coefficients, both on the first template's grid. |
| Templates.CombinationAdd | grizli/stack.py:769-779 | A combination with a sum of two weight vectors is the sum of the two combinations. |
| Templates.ContinuumPlusLines | grizli/stack.py:769-779 | The full template `tl` is the continuum `tc` plus the line part. |
| Templates.ContinuumIgnoresLines | grizli/stack.py:774-777 | The continuum does not depend on the coefficients of lines after the first template. |
| Templates.EquivalentWidth | grizli/stack.py:698-712 | A zero coefficient gives a width of 0; `EwCases` states when the width is the sentinel and otherwise the integral. |
| Templates.EwClipAll | grizli/stack.py:707-708 | On a grid shared with the line template, `clip` keeps every sample. |
| Templates.EwUnclipped | grizli/stack.py:698-712 | When the line and the continuum share the grid, the clip to the line's range keeps every sample, so the width comes from the unclipped `tn`, `td` and wavelengths. |
| Templates.EwCases | grizli/stack.py:698-712 | On the shared grid with a non-zero coefficient, the width is the -1000 sentinel exactly when there are at least two samples and the continuum vanishes at one, and the trapezoidal integral of `tn/td - 1` otherwise. |
| Templates.EwOnGrid | grizli/stack.py:701-712 | With a continuum that never vanishes, the width is the trapezoidal integral of `tn/td - 1` over the whole grid. |
| Templates.EmissionLineEw | grizli/stack.py:698-712 | An emission line over a positive continuum on an ascending grid has a non-negative width, so it is never the -1000 sentinel. |
| Templates.LineMask | grizli/stack.py:695 | A template counts as a line iff its key starts with `line`. |
| Templates.LinesNumbered | grizli/stack.py:693-722 | There is one record per line template, numbered 1, 2, … in template order, and the records carry exactly the line templates' coefficients, in order. |
| Templates.LineTable | grizli/stack.py:693-722 | The loop with the counter `il` builds exactly the records of `Lines`. |
| RedshiftScan.Insert | grizli/stack.py:623-625 | Inserting adds exactly one sample and keeps every other. |
| RedshiftScan.InsertSorted | grizli/stack.py:623-625 | Inserting into samples sorted by redshift keeps them sorted. |
| RedshiftScan.SortByZ | grizli/stack.py:623-625 | The sort is a permutation of the samples. |
| RedshiftScan.SortByZSorted | grizli/stack.py:623-625 | The sort orders the samples by redshift. |
| RedshiftScan.CoSort | grizli/stack.py:623-625 | After `argsort` the redshifts ascend, and the `(z, chi2)` pairs are a permutation of the scan's pairs, each chi-squared still with its own redshift. |
| RedshiftScan.SortedWithin | grizli/stack.py:623-625 | A lower bound on every redshift of the scan still holds after the sort. |
| RedshiftScan.RefineStep | grizli/stack.py:600 | `dz0/2.02**iter` is positive, and below `dz0` for every refinement pass. |
| RedshiftScan.PowAboveOne | grizli/stack.py:600 | `2.02**n` is at least 1, and above 1 for positive n. |
| RedshiftScan.Clipped25 | grizli/stack.py:657 | `np.clip(chi2 - chi2.min(), 0, 25)` lies in `[0, 25]`. |
| RedshiftScan.Area25Bounds | grizli/stack.py:657-659 | On ascending redshifts with a positive span, `area25` is defined and lies in `[0, 1]`. |
| RedshiftScan.BestZ | grizli/stack.py:662 | `zbest` is the redshift of a sample whose chi-squared is not above any other. |
| Fitter.PhotErrorsPositive | grizli/stack.py:174-182 | Every kept filter has a positive f-lambda error, so `1/eflam` and `1/eflam**2` exist. |
| Fitter.KernelOk | grizli/stack.py:135 | An exposure passes `np.isfinite(E_i.kernel.sum())` iff its kernel normalises; `OpenStacks` keeps exactly those exposures. |
| Fitter.OpenStep | grizli/stack.py:128-138 | Each pass of the loop keeps the extension names of the usable exposures so far and appends the index of a degenerate one to `pop`. |
| Fitter.ProgressStep | grizli/stack.py:128-138 | One pass of the loop keeps a usable exposure or pops its index. |
| Fitter.OpenStack | grizli/stack.py:129-133 | A stack opened from its extension has its own fresh fit mask, built as `StackedSpectrum.__init__` builds it. |
| Fitter.OpenStacks | grizli/stack.py:126-138 | The kept stacks' names are `ext` at the usable exposures, `pop` lists the degenerate indices in increasing order, and each kept stack has its own fit mask. |
| Fitter.OpenNext | grizli/stack.py:128-138 | One pass appends at most one stack and leaves the earlier ones unchanged. |
| Fitter.MinPassHas | grizli/stack.py:793-798 | After the inner loop, a grism with a stack has its running minimum. |
| Fitter.MinDictHas | grizli/stack.py:791-802 | After the first pass, every grism with a stack has its running minimum. |
| Fitter.NarrowedNarrows | grizli/stack.py:812 | Overlap masking only removes pixels from a stack's fit mask. |
| Fitter.NarrowedKeepsMinimum | grizli/stack.py:809-812 | With a positive threshold, a fitted pixel where the stack is at or below its grism's minimum stays fitted. |
| Fitter.MinGrismPass | grizli/stack.py:793-802 | The loop folds each of the grism's stacks into its running minimum, as `MinPass` does. |
| Fitter.MinGrism | grizli/stack.py:791-802 | The first pass builds `min_grism` as `MinDict` does. |
| Fitter.NarrowGrism | grizli/stack.py:804-812 | After grism n, each stack's fit mask is its mask narrowed by the overlap tests of the grisms so far. |
| Fitter.MaskDrizzleOverlaps | grizli/stack.py:783-812 | Each stack's new fit mask is its old mask ANDed with the overlap test of each of its grisms against that grism's running minimum, built from the old masks. |
| Fitter.SameShapes | grizli/stack.py:798-801 | The stacks of one grism have one shape, as their extensions do. |
| Fitter.ConcatSized | grizli/stack.py:147-148 | Parts of the given sizes concatenate to a vector of `Ndata` entries. |
| Fitter.ConcatPositive | grizli/stack.py:152 | Concatenating positive weights gives a positive `weightf`. |
| Fitter.JointShapes | grizli/stack.py:147-152 | `scif`, `ivarf`, `wavef` and `weightf` have `Ndata > 0` entries, and `weightf` is positive. |
| Fitter.Joined | grizli/stack.py:147-160 | The joint vectors are the concatenated stack vectors, with `ivarf` times `weightf`, `sivarf` its root, and a pixel fitted iff its stack fits it and `ivarf > min_ivar*ivarf.max()`. |
| Fitter.NarrowingLowersDoF | grizli/stack.py:158-160 | Narrowing the fit mask can only lower `int((fit_mask*weightf).sum())`. |
| Fitter.PhotometryDoF | grizli/stack.py:191-193 | Appending n fitted points of unit weight adds n to `DoF`. |
| Fitter.WithPhotometry | grizli/stack.py:167-193 | The spectra's vectors are unchanged, and the kept points are appended: f-lambda fluxes, `1/eflam**2`, `1/eflam`, pivot wavelengths, unit weights and fitted entries. `DoF` grows by `Nphot`. |
| Fitter.OpenSelected | grizli/stack.py:98-145 | The stacks are opened from the selected extensions, the degenerate ones are dropped, and `Next == len(E) == len(ext) > 0` with `E[k]` opened from `ext[k]`. |
| Fitter.KeptBuilt | grizli/stack.py:144 | With `fit_stacks`, the stacks keep the fit masks they were opened with. |
| Fitter.NarrowStacks | grizli/stack.py:144-145 | Without `fit_stacks`, the stacks' masks are narrowed by drizzle-overlap masking. |
| Fitter.JoinStacks | grizli/stack.py:147-193 | The joint vectors with the photometry appended, the slice table as a partition, and `Abg` as the indicator matrix of the slices. |
| Fitter.Build | grizli/stack.py:98-193 | Everything `__init__` computes, as one specification `Setup`. |
| Fitter.NewStackFitter | grizli/stack.py:66-193 | A fresh fitter whose attributes are what `__init__` computes, with `DoF` the weighted count of fitted pixels. |
| Fitter.StackFitter.constructor | grizli/stack.py:147-193 | Setting the attributes keeps the shapes valid and `DoF` counted. |
| Fitter.Redshifted | grizli/stack.py:479 | The template moved to z: every wavelength times `1+z` and every flux divided by `1+z`. |
| Fitter.TemplatePart | grizli/stack.py:481-487 | A stack's part of a template row is zero when the template misses the stack's covered wavelengths. |
| Fitter.TemplateRow | grizli/stack.py:481-487 | A template row has `Ndata` entries. |
| Fitter.BackgroundRows | grizli/stack.py:462 | Entry (i, k) of `Abg` is 1 iff k is in `slices[i]`; `BackgroundLevel` and `BackgroundRowKept` state what that gives the fit. |
| Fitter.Design | grizli/stack.py:460-487 | `A` has `Next + NTEMP` rows of `Ndata` entries, and its first `Next` rows are `Abg`. |
| Fitter.TemplateRows | grizli/stack.py:465-487 | Template row i is the row of template i moved to z; `TemplateRowOnSlice` and `MissedTemplateZeroRow` state its entries. |
| Fitter.WritePart | grizli/stack.py:487 | `A[row, sl] = part` writes the part into the slice and changes nothing else. |
| Fitter.PlaceNext | grizli/stack.py:481-487 | Each stack's part goes right after the parts already written, or the row keeps its zeros there. |
| Fitter.AllCovered | grizli/stack.py:482-483 | Returns whether every stack has a covered column, which `E.wave[clip].max()` needs. |
| Fitter.FillTemplateRow | grizli/stack.py:481-487 | The inner loop makes the template's row `TemplateRow` and changes no other row. |
| Fitter.RowParts | grizli/stack.py:481-487 | A template row is its per-stack parts laid end to end, zero where the template misses a stack. |
| Fitter.WriteParts | grizli/stack.py:481-487 | The loop over stacks writes the concatenated parts into the row and changes no other row. |
| Fitter.AddBackground | grizli/stack.py:462 | `A[:Next,:] += Abg` adds `Abg` to the first `Next` rows and changes no other entry. |
| Fitter.StartedRows | grizli/stack.py:460-462 | Before the template loop, `A` holds the background rows, then zeros. |
| Fitter.PartlyFilledNext | grizli/stack.py:465-487 | Each pass of the template loop fills the next zero row. |
| Fitter.NewDesign | grizli/stack.py:460-462 | `np.zeros` followed by `+= Abg` gives a fresh matrix holding the background rows, then zeros. |
| Fitter.FillTemplates | grizli/stack.py:465-487 | After the template loop, the rows of `A` are `Design`. |
| Fitter.FillNext | grizli/stack.py:465-487 | One pass fills template row i. |
| Fitter.FillDesign | grizli/stack.py:460-487 | None iff there are templates and one has no wavelengths or a stack has no covered column. Otherwise a fresh `A` equal to `Design`. |
| Fitter.TemplateRowAt | grizli/stack.py:486-487 | Entry p of stack j's part sits at offset `slices[j].start + p` of the row. |
| Fitter.TemplateRowOnSlice | grizli/stack.py:481-487 | On stack j's slice, a template's row is the stack's model of the redshifted template where the template reaches its covered wavelengths, and zero where it does not. |
| Fitter.MissedTemplateZeroRow | grizli/stack.py:481-487 | A template that reaches no stack has an all-zero row. |
| Fitter.MissedTemplateDropped | grizli/stack.py:489 | That row is dropped by `oktemp`. |
| Fitter.MissedTemplateZeroCoefficient | grizli/stack.py:481-524 | A template that reaches no stack gets coefficient 0 and uncertainty 0. |
| Fitter.BackgroundRowKept | grizli/stack.py:489 | `oktemp` keeps exposure i's background row iff the exposure has a fitted pixel. |
| Fitter.FitAt | grizli/stack.py:423-526 | The corrected fit of "## Findings": None iff `FitRaises`, the cases where `fit_at_z` raises while building or broadcasting the design matrix. Otherwise it returns NTEMP coefficients and uncertainties, and `Ndata` entries of background, model and model-defined flags. |
| Fitter.FitAtSolves | grizli/stack.py:460-526 | Where `FitRaises` does not hold, the corrected fit is `Solve` of the filled design matrix. |
| Fitter.Solution | grizli/stack.py:489-501 | The solver returns one coefficient per kept row. |
| Fitter.Uncertainties | grizli/stack.py:509-518 | One uncertainty per kept row, all 0 unless asked for. |
| Fitter.Solve | grizli/stack.py:489-524 | The coefficients are the scatter of the solution, 0 for dropped templates. The background at every pixel is the background rows' coefficients dotted with `A[:Next,:]`, less the pedestal. |
| Fitter.BackgroundLevel | grizli/stack.py:503 | Over the partition, column k of the background rows picks out the level of the exposure that owns k. |
| Fitter.BackgroundPerExposure | grizli/stack.py:503 | On exposure i's slice, the background is that exposure's coefficient (0 if its row was dropped) less the pedestal. |
| Fitter.FitAtAsWritten | grizli/stack.py:460-526 | `fit_at_z` as written is None wherever `FitRaises` holds, and also where it raises on the coefficients (lines 503 and 521). On success its shapes are those of `FitAt`. |
| Fitter.FitAtAsWrittenAgrees | grizli/stack.py:489-524 | When every exposure has a fitted pixel, no background row is dropped and `fit_at_z` as written equals `FitAt`. |
| Fitter.OutlierMask | grizli/stack.py:637-638 | A pixel passes iff the model is a number there and `(scif - full - background)*sivarf < outlier_threshold`; `ZeroWeightOutlier` and `StackFitter.MaskOutliers` state its consequences. |
| Fitter.ZeroWeightOutlier | grizli/stack.py:637-638 | With a positive threshold, a pixel of zero weight fails the outlier test iff some template row was kept. |
| Fitter.Penalised | grizli/stack.py:592-596 | Without a prior the chi-squared is unchanged. With one, the prior at each redshift is added. `RefineGrid` centres on its least value. |
| Fitter.RefineGrid | grizli/stack.py:592-601 | The new grid is `log_zgrid` over four steps of `dz0/2.02**iter` either side of the redshift of a least penalised chi-squared, and stays above -1. |
| Fitter.Prepend | grizli/stack.py:620-621 | `np.append` puts earlier samples in front of later ones, and fails iff the later passes fail; `PrependPrepend` and `RefinementStep` use it to order the passes. |
| Fitter.PrependPrepend | grizli/stack.py:620-621 | Appending two blocks in turn is appending them joined. |
| Fitter.SortedScan | grizli/stack.py:623-625 | The co-sorted scan has ascending redshifts, still above -1, and its `(z, chi2)` pairs are a permutation of the scan's. |
| Fitter.SortScan | grizli/stack.py:623-630 | The sorted redshifts and unpenalised chi-squared values `u` are a permutation of the scan's pairs. Each reported chi-squared is `u` plus the prior at its redshift when a prior is given. |
| Fitter.GridChis | grizli/stack.py:577-583 | Chi-squared of the corrected fit: None iff the grid is non-empty and `FitRaises` holds. Otherwise there is one chi-squared per redshift. |
| Fitter.GridChisPrefix | grizli/stack.py:577-583 | The chi-squared values of a prefix of the grid are the prefix of the grid's values. |
| Fitter.GridChisSnoc | grizli/stack.py:603-610 | Fitting one more redshift with the corrected fit appends its chi-squared. |
| Fitter.CoarseGrid | grizli/stack.py:575 | The coarse grid lies above -1 under `LogGrid`. |
| Fitter.Refinements | grizli/stack.py:591-621 | The samples of the refinement passes pair up and lie above -1 under `LogGrid`. |
| Fitter.RefinementStep | grizli/stack.py:591-621 | A pass fails on an empty previous grid or where its fits raise. Otherwise its grid and chi-squared values go ahead of the later passes' samples. |
| Fitter.ScanSpec | grizli/stack.py:575-621 | The scan on the corrected fit has as many chi-squared values as redshifts, at least one, all above -1 under `LogGrid`. |
| Fitter.Report | grizli/stack.py:648-722 | None iff there are no individual templates. Otherwise the report of the sorted scan and the best fit: `zbest`, the chi-squared range, `area25`, the 1D templates and the line table. |
| Fitter.StackFitter.FitAtZ | grizli/stack.py:423-526 | Filling the design matrix in place and solving gives exactly the corrected fit `FitAt` on the fitter's state. |
| Fitter.StackFitter.ChiAtZ | grizli/stack.py:582-583 | The chi-squared of the corrected fit at z, None iff `FitRaises` holds. |
| Fitter.StackFitter.ScanGrid | grizli/stack.py:577-583 | The loop over a grid gives `GridChis`. |
| Fitter.StackFitter.ScanRedshifts | grizli/stack.py:575-621 | The coarse pass and the six refinement passes give `ScanSpec`. |
| Fitter.StackFitter.MaskOutliers | grizli/stack.py:636-646 | With a positive threshold, `fit_mask &= outlier_mask`. Otherwise the mask is unchanged. `DoF` is recounted and never grows. |
| Fitter.StackFitter.FitZGrid | grizli/stack.py:528-759 | The fit mask only narrows and `DoF` never grows. The result is `ZGridFit` of the data before the call. Where the scan fails or the fit with the individual templates raises, the mask and `DoF` are unchanged. On success, the mask is narrowed by the outlier test of the best fit when the threshold is positive. |

## Left out

- File I/O: reading the FITS files and headers, writing the `.zfit.fits` file and its image HDUs. The model takes the parsed header and extension data as inputs.
- Printing and the plot (`make_fit_plot`).
- The photometry scale fit: `fit_combined_at_z`, `objective_scale`, `scale_AxT`, and the `eazyp` branches of `fit_zgrid`. `fit_zgrid` is modelled on its `fit_at_z` path only.
- `make_templates` and the `np.load` of the template file. The templates are inputs.
- Floating point: fluxes are reals. NaN and infinity appear only as `Option` results, the `fullDefined` flags, or as noted below. The inputs SCI, WHT and the kernel are taken as finite, with WHT ≥ 0.
- The numerical routines are parameters of the model, constrained only by the shapes they return: the solver, the covariance diagonal (`covard`), `sqrt`, `exp`, resampling (`interp_conserve_c`), `log_zgrid`, the prior's `np.interp` and the binning convolution.
- Fitter.FitAt: the fit, `GridChis`, `ScanSpec`, `ZGridFit` and `FitZGrid` use the corrected assembly. The source's raise at lines 503 and 521, or its shifted coefficients, when an exposure has no fitted pixel are modelled only by `FitAtAsWritten`.
- Fitter.LogGrid: every redshift `log_zgrid` returns is assumed above -1. The source computes `exp(arange(log(1+lo), log(1+hi), dz)) - 1`, which fails when a refinement window reaches `z0 - 4*dz <= -1`; there the model returns a grid instead of failing.
- Fitter.Solution: `nnls` and `lstsq` are one abstract solver function. The choice between them by the `fitter` argument is not modelled.
- Fitter.Uncertainties: the covariance inversion and its `except` fallback are one abstract function. Only its shape and the zeros when no uncertainties are asked for are modelled.
- Fitter.Redshifted: takes `igmz = 1`. The `eazy.igm` attenuation for z > 7 is an external library and is not part of this model.
- Fitter.NewStackFitter: requires at least one usable exposure. When every exposure is degenerate, the source fails at `np.hstack([])`.
- Fitter.OpenSelected: requires at least one usable exposure, for the same reason.
- Fitter.Build: requires at least one usable exposure, for the same reason.
- Fitter.GrismShapes: the exposures of one grism are required to have one shape. Otherwise `np.minimum` in `mask_drizzle_overlaps` fails on mismatched arrays, and that failure is not modelled.
- Fitter.OkPhot: drops the `np.isfinite` tests on the catalogue fluxes and errors, because the inputs are reals.
- Fitter.PhotometryValid: requires every per-filter factor `to_flam*zp*ext_corr` to be positive, so that a kept error converts to a positive f-lambda error.
- Spectrum.PositiveExp: the `exp` parameter is required to be positive everywhere. A floating-point `exp` that underflows to 0 is not modelled.
- Spectrum.HduValid: a stack extension is required to have an even number of rows, no more than its columns, and the kernel the same number of rows.
- Templates.SharedGrid: the template class's `+` operator is not part of this model. The templates of a set are taken on one shared grid, where that operator is the addition of fluxes.
- Coefficients.Chi2: a fitted pixel of zero weight, possible only with `min_ivar < 0`, makes the source's `chi2` NaN. The model's `chi2` stays finite there. The template model's NaN is modelled by `fullDefined`, and the outlier test uses it.
- Templates.EquivalentWidth: the trapezoidal integral is finite on real inputs, so the -1000 sentinel arises only where the continuum is zero at a grid sample (`EwCases`); infinities or NaN in the template fluxes are not modelled.
- Spectrum.ExtractProfile: proved for the flat model itself, not for a scaled copy of it.

## Findings

| source | as written | input that shows it | evidently intended | confidence | as-written member | corrected member |
|---|---|---|---|---|---|---|
| grizli/stack.py:503-521 | `oktemp` drops the background row of an exposure with no fitted pixel. Line 503 still pairs `coeffs[:Next]` with all `Next` background rows. Line 504 and line 521 take the template coefficients from position `Next` of the solver's output. So the coefficients are shifted by one, or line 503 raises. | Rows `[[1, 0], [0, 1], [0, 2]]` with `Next = 1` and only the second pixel fitted. The background row is dropped and the solver returns `[x, y]`. As written, the background level is `x`, `full_coeffs` is `[y, y]` and the model is `2y`. The kept rows' own fit has no background, coefficients `[x, y]` and model `x + 2y`. | Each kept row gets its own coefficient, a dropped row gets 0, and the background and template model are built from the kept rows. | not executed | Coefficients.AssembleAsWritten, Coefficients.AssembleMisaligned, Coefficients.ScatterMisaligned, Fitter.FitAtAsWritten | Coefficients.Assemble, Coefficients.AssembleAsWrittenAgrees, Fitter.FitAt, Fitter.FitAtAsWrittenAgrees |
