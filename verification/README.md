# Groomer money plots and the dijet/SoftDrop jet loop, in Dafny

This project models two parts of the pyjetty analysis code.

**The groomer-comparison money plots** (`plot_groomers.py`). For every observable (`zg`, `theta_g`, `kappa`, `tf`), every R_max and jet radius, and every grooming configuration:

- A pt slice of the embedded measurement is split into six prong-matching categories (flags 1..6).
- Each category is normalised by the inclusive embedded count. That count is divided by the quenching factor R_AA = 1 − min_theta for `zg`.
- The truth distribution is normalised by its own inclusive count.
- Two ratios are built and stored: Embedded/Truth (sum of categories over truth) and tagging purity (flags 1 and 2 over the sum).
- The ratio overlays later read the stored ratios back by attribute name.

**The jet loop of `process_rg_data.py`**:

- The jet selector: pt ≥ 5 and |y| ≤ 0.9 − R, with R = 0.4.
- The hJetPt fills.
- The dijet fill of A_J against Δφ from the two leading accepted jets.
- The z_g and R_g fills of the SoftDrop-groomed jets.

Modules:

- `Results`: `Option`, `Result` and the Python exceptions the code can raise: `ZeroDivision`, `IndexError` and `MissingAttribute` (Python's AttributeError).
- `Vectors`: sums and bin grouping over `seq<real>`.
- `Histograms`: ROOT histograms as filled cells plus one active range per axis. It covers projection, `Rebin`, `Scale(c, "width")`, `Add`, `Divide` and the integral.
- `Groomers`: `init_observable`, `set_zmin`, and one slice of `plot_obs_projection` / `plot_obs_projection_kappa`, decomposed into categories, aggregates and ratios.
- `RatioStore`:
  - the ratio attributes and their names;
  - `plot_money_plot` over pt slices and min_theta values;
  - `plot_money_ratios` / `plot_money_ratio`;
  - the main loop of `plot_groomers`.
- `Dijets`: `analyzeEvents`, `analyzeJets`, `fillJetHistograms` and `fillSoftDropHistograms`. Histograms are logs of the filled values.

Two behaviours of the code are modelled as written:

- The measured-side acceptance factor is computed as 1 − min_theta with no guard, so min_theta = 1 for `zg` raises a division by zero.
- The normalisation view does not open the observable axis fully. It is set to (−10, xmax), and the flag axis to bins 0..11.

## Model

| member | source | states |
|---|---|---|
| Groomers.InitObservable | pyjetty/alice_analysis/analysis/user/james/plot_groomers.py:96-113 | A configuration exists exactly for theta_g, zg, kappa and tf. It has xmin < xmax and rebin ≥ 1. Only zg and theta_g choose a projection axis, and that axis is the one that carries the observable in the (pt, zg, theta_g, flag) histogram. |
| Groomers.SetZmin | pyjetty/alice_analysis/analysis/user/james/plot_groomers.py:833-839 | Other observables keep the previous zmin. For zg the scan yields zcut of the 'sd' entry when its beta is below 1e-3 in magnitude, and 0 otherwise or without an 'sd' entry. An 'sd' entry with fewer than two parameters raises IndexError. |
| Groomers.LookupDistinct | pyjetty/alice_analysis/analysis/user/james/plot_groomers.py:837-838 | In a grooming dict, whose keys are distinct, looking up an entry's key returns that entry's parameters. |
| Groomers.Accumulate | pyjetty/alice_analysis/analysis/user/james/plot_groomers.py:390-401 | h_sum exists iff some category was seen. h_sum_tagged exists iff a tagged name was seen. In every bin they hold the prior content plus the column total of all categories, and of the tagged categories, respectively. |
| Groomers.TaggedAreFirstTwo | pyjetty/alice_analysis/analysis/user/james/plot_groomers.py:396-401 | Of the six legend names exactly the first two are tagged, so the tagged column total is categories 0 plus 1 (flags 1 and 2). |
| Groomers.CategoriesAddUp | pyjetty/alice_analysis/analysis/user/james/plot_groomers.py:371-393 | Summed bin by bin, the first m single-flag categories equal the one shape projected over flags 1..m. |
| Groomers.Decompose | pyjetty/alice_analysis/analysis/user/james/plot_groomers.py:371-472 | The stacked sum equals the shape over flags 1..6. The tagged sum is flags 1 plus 2 in every bin. Both have the truth shape's binning: the in-range observable bins grouped by the rebin factor. Embedded/Truth is sum over truth, and purity is tagged over sum. |
| Groomers.NormalisedSlice | pyjetty/alice_analysis/analysis/user/james/plot_groomers.py:278-299 | A slice is skipped iff the embedded count divided by R_AA, or the truth count, is below 1e-3. The reason names the embedded side iff that side is below. A built slice is the decomposition of the cut views under exactly those two normalisations. |
| Groomers.CutDecomposition | pyjetty/alice_analysis/analysis/user/james/plot_groomers.py:297-410 | The stacked categories of a built slice are the shape of the cut measured view (theta_g above min_theta, and for zg, zg above zmin) over flags 1..6, on the observable's axis. |
| Groomers.ObsProjection | pyjetty/alice_analysis/analysis/user/james/plot_groomers.py:256-472 | Fails iff R_AA is zero (zg with min_theta = 1), and then with ZeroDivision. Otherwise it skips or builds exactly as NormalisedSlice states. |
| Groomers.ObsProjectionKappa | pyjetty/alice_analysis/analysis/user/james/plot_groomers.py:487-676 | Skipped iff either uncut normalisation is below 1e-3, with the reason naming the embedded side iff it is below. Otherwise the slice is the decomposition of the normalisation views, with no R_AA and no cuts. |
| Groomers.ObsProjectionForgetsRanges | pyjetty/alice_analysis/analysis/user/james/plot_groomers.py:259-270 | The slice result depends on no range an earlier slice left on the zg, theta_g or flag axes. Only the pt range matters. |
| Groomers.ObsProjectionKappaForgetsRanges | pyjetty/alice_analysis/analysis/user/james/plot_groomers.py:490-497 | The same for kappa and tf: only the pt range carried in from outside matters. |
| Groomers.CategoryIgnoresOtherFlags | pyjetty/alice_analysis/analysis/user/james/plot_groomers.py:372-378 | Adding cells with any other flag leaves a category unchanged. |
| Groomers.PurityInUnitInterval | pyjetty/alice_analysis/analysis/user/james/plot_groomers.py:462-472 | On a non-negative histogram, in every bin 0 ≤ tagged ≤ sum, and the purity lies in [0, 1]. The purity is the tagged fraction where the sum is non-zero and 0 where it is zero. |
| Groomers.ShapeArea | pyjetty/alice_analysis/analysis/user/james/plot_groomers.py:378-381 | The area of a projected, rebinned, width-scaled shape is its rebinned count over the normalisation. That count is at most the integral, and equals it when the rebin factor divides the number of bins inside the observable's range. |
| Groomers.SumAreaAtMostRaa | pyjetty/alice_analysis/analysis/user/james/plot_groomers.py:272-281 | The stacked categories of a built zg or theta_g slice have area at most R_AA, because they count a subset of the cells of the normalisation. |
| Histograms.Project | pyjetty/alice_analysis/analysis/user/james/plot_groomers.py:405-408 | The projection keeps exactly the bins of the target axis inside that axis's range, with their widths. Its total equals the integral of the histogram under all active ranges. |
| Histograms.Rebin | pyjetty/alice_analysis/analysis/user/james/plot_groomers.py:409 | Rebin(f) keeps \|content\| / f bins whose widths are the grouped widths. The total is unchanged when f divides the bin count. On non-negative contents the result is non-negative and its total is at most the input's. |
| Histograms.ProjectStartsAtRange | pyjetty/alice_analysis/analysis/user/james/plot_groomers.py:378-380 | When the range keeps bins k + 1 .. k + n, the projection is exactly those bins of the untrimmed projection, so Rebin groups from the first in-range bin. |
| Histograms.CoordsProjection | pyjetty/alice_analysis/analysis/user/james/plot_groomers.py:297-299 | Under a SetRangeUser cut the projection runs from the first bin reaching above the lower end to the last bin starting below the upper end, and is empty when there is none. |
| Histograms.ProjectionSplits | pyjetty/alice_analysis/analysis/user/james/plot_groomers.py:373-378 | Splitting one axis's range into two disjoint parts splits every projection into the sum of the two part projections. |
| Histograms.ScaleWidth | pyjetty/alice_analysis/analysis/user/james/plot_groomers.py:381 | After Scale(c, "width") every bin's content times its width is c times its count, and the binning is unchanged. |
| Histograms.Divide | pyjetty/alice_analysis/analysis/user/james/plot_groomers.py:455 | Where the divisor is non-zero the quotient times the divisor is the dividend. Where it is zero the quotient is zero. |
| RatioStore.StoredName | pyjetty/alice_analysis/analysis/user/james/plot_groomers.py:460-472 | The name starts with h_ratio_ or h_ratio_tagged_ by kind, followed by the observable label and '_'. For zg and theta_g it ends in _dR and the number min_theta·R. |
| RatioStore.LookupName | pyjetty/alice_analysis/analysis/user/james/plot_groomers.py:767-769 | The attribute name the overlay reads is the name the slice plot wrote. |
| RatioStore.KindsNeverCollide | pyjetty/alice_analysis/analysis/user/james/plot_groomers.py:460-472 | The Embedded/Truth and purity ratios of one slice never share a name. |
| RatioStore.PtSlicesTile | pyjetty/alice_analysis/analysis/user/james/plot_groomers.py:219-221 | The pt slices start at the first edge and end at the last. Each slice starts where the previous one ends, and on increasing edges each slice is non-empty. |
| RatioStore.Calls | pyjetty/alice_analysis/analysis/user/james/plot_groomers.py:219-230 | One call per (pt slice, min_theta) pair, and every call lies on that grid. |
| RatioStore.CallsInOrder | pyjetty/alice_analysis/analysis/user/james/plot_groomers.py:219-230 | The call at position i·\|thetas\| + j is pt slice i with min_theta j: pt slices outside, min_theta inside. |
| RatioStore.SliceResult | pyjetty/alice_analysis/analysis/user/james/plot_groomers.py:223-253 | A slice call fails iff the observable is zg and min_theta is 1, and then with ZeroDivision. |
| RatioStore.Store | pyjetty/alice_analysis/analysis/user/james/plot_groomers.py:460-472 | A skipped slice leaves the attributes unchanged. A built slice stores its ratio and its purity under the slice's two names. No other name changes and no name is removed. |
| RatioStore.StoreIdempotent | pyjetty/alice_analysis/analysis/user/james/plot_groomers.py:250-253 | Storing the same outcome twice equals storing it once, so the repeated min_theta loop of kappa and tf changes nothing. |
| RatioStore.KappaIgnoresTheta | pyjetty/alice_analysis/analysis/user/james/plot_groomers.py:250-253 | For kappa and tf neither the slice result nor the stored names depend on min_theta. |
| RatioStore.StoreAll | pyjetty/alice_analysis/analysis/user/james/plot_groomers.py:219-253 | The slice loop fails iff some slice call fails, and then with that call's error. On success every earlier name is still present. |
| RatioStore.StoreAllKeepsUnbuilt | pyjetty/alice_analysis/analysis/user/james/plot_groomers.py:219-230 | A name no built slice writes keeps its previous value, or stays absent. |
| RatioStore.StoreAllKeepsBuilt | pyjetty/alice_analysis/analysis/user/james/plot_groomers.py:219-230 | A name that built slices write, all with the same ratio, ends up holding that ratio. |
| RatioStore.StoreAllProvenance | pyjetty/alice_analysis/analysis/user/james/plot_groomers.py:219-230 | After the slice loop every name holds its previous value or the ratio of a built slice that wrote it. |
| RatioStore.ZminFor | pyjetty/alice_analysis/analysis/user/james/plot_groomers.py:145 | Setting zmin before a configuration's plots fails only for zg, and only with IndexError. |
| RatioStore.PlotOutcomes | pyjetty/alice_analysis/analysis/user/james/plot_groomers.py:139-147 | A configuration's plots fail before any slice iff set_zmin raises. Otherwise there is one outcome per call, and the only errors are IndexError and ZeroDivision. |
| RatioStore.MoneyPlot | pyjetty/alice_analysis/analysis/user/james/plot_groomers.py:194-253 | One configuration's money plot fails iff set_zmin or some slice call fails. When set_zmin raises only IndexError and the slices only ZeroDivision, the error is one of those two. On success every earlier name is still present. |
| RatioStore.StorePlots | pyjetty/alice_analysis/analysis/user/james/plot_groomers.py:139-147 | The money plots of all configurations raise only ZeroDivision or IndexError. |
| RatioStore.StorePlotsKeepUnwritten | pyjetty/alice_analysis/analysis/user/james/plot_groomers.py:139-147 | A name no configuration writes keeps its previous value, or stays absent. |
| RatioStore.StorePlotsProvenance | pyjetty/alice_analysis/analysis/user/james/plot_groomers.py:139-147 | Every name left by the money plots holds its previous value or a ratio that some configuration's built slice wrote under it. |
| RatioStore.MoneyRatio | pyjetty/alice_analysis/analysis/user/james/plot_groomers.py:755-769 | The overlay fails iff some overlaid configuration's name was never stored (AttributeError) or more configurations are overlaid than the nine colours of ColorArray (IndexError). Each error is raised only under its own condition. Otherwise one histogram is shown per overlaid configuration, and a histogram is shown iff it is the stored ratio of one of them. |
| RatioStore.PresentRatios | pyjetty/alice_analysis/analysis/user/james/plot_groomers.py:755-769 | With missing names left out, only the stored ratios take a colour. It fails, with IndexError, iff more than nine of them are stored. Otherwise a histogram is shown iff it is the stored ratio of an overlaid configuration. |
| RatioStore.MoneyRatioIsPresent | pyjetty/alice_analysis/analysis/user/james/plot_groomers.py:755-769 | When no overlaid name is missing, the overlay as written and the one that skips missing names are identical. |
| RatioStore.RatioThetas | pyjetty/alice_analysis/analysis/user/james/plot_groomers.py:695-708 | zg and theta_g use every min_theta. kappa and tf use only the first one. |
| RatioStore.Requests | pyjetty/alice_analysis/analysis/user/james/plot_groomers.py:695-702 | One ratio plot per (min_theta, overlay, pt slice), each drawn from those lists. |
| RatioStore.ThetaRequestsInOrder | pyjetty/alice_analysis/analysis/user/james/plot_groomers.py:697-702 | For one min_theta, the request at position v·\|slices\| + i is overlay v over pt slice i. |
| RatioStore.RequestsInOrder | pyjetty/alice_analysis/analysis/user/james/plot_groomers.py:695-702 | The request at position t·(\|overlays\|·\|slices\|) + v·\|slices\| + i is overlay v over pt slice i at min_theta t. |
| RatioStore.ShowRatios | pyjetty/alice_analysis/analysis/user/james/plot_groomers.py:693-708 | It fails iff some request's overlay fails, and then with that overlay's error, which is AttributeError or IndexError. When missing names are skipped it can only be IndexError. Otherwise there is one overlay per request, each showing exactly the stored ratios of its overlaid configurations. |
| RatioStore.PlotGroomers | pyjetty/alice_analysis/analysis/user/james/plot_groomers.py:121-153 | As written: attributes persist across the (R_max, jet R) iterations. A successful run shows both overlays of every request in every iteration. |
| RatioStore.Step | pyjetty/alice_analysis/analysis/user/james/plot_groomers.py:131-153 | One (R_max, jet R) iteration shows one Embedded/Truth and one purity overlay per request. With the reset, when the slices raise only ZeroDivision or IndexError, it never raises AttributeError. |
| RatioStore.ShownAsWritten | pyjetty/alice_analysis/analysis/user/james/plot_groomers.py:128-153 | As written, every ratio that iteration n shows for a request is held under an overlaid configuration's name. That value was either present on entry or computed by an iteration up to n, not necessarily n itself. |
| RatioStore.MissingAsWritten | pyjetty/alice_analysis/analysis/user/james/plot_groomers.py:128-153 | As written, when the slices raise only ZeroDivision or IndexError, the run raises AttributeError only when some iteration overlays a name that was neither present on entry nor written by any iteration up to it. |
| RatioStore.PlotGroomersAsWritten | pyjetty/alice_analysis/analysis/user/james/plot_groomers.py:121-153 | ShownAsWritten and MissingAsWritten for the loop of plot_groomers itself, with the calls, slice outcomes and requests it builds. |
| RatioStore.StaleRatioShown | pyjetty/alice_analysis/analysis/user/james/plot_groomers.py:128-153 | As written, a ratio built in one iteration is shown again by the next when that iteration's own slices do not rewrite the name. |
| RatioStore.StaleAcrossSteps | pyjetty/alice_analysis/analysis/user/james/plot_groomers.py:128-153 | For any slice outcomes, a ratio that the first iteration's money plots left under a name the second iteration never rewrites was computed by the first iteration, and the second iteration shows it. |
| RatioStore.StaleInStep | pyjetty/alice_analysis/analysis/user/james/plot_groomers.py:139-153 | One iteration as written shows a stored ratio that none of its own slices rewrites. |
| RatioStore.PlotGroomersFresh | pyjetty/alice_analysis/analysis/user/james/plot_groomers.py:121-153 | Corrected loop: it can fail only with ZeroDivision or IndexError, never with AttributeError, and it has the same overlay shape. |
| RatioStore.ResetStepsArePerIteration | pyjetty/alice_analysis/analysis/user/james/plot_groomers.py:128-153 | In the corrected loop, iteration n shows what it would show when run on its own. |
| RatioStore.FreshRatiosOnly | pyjetty/alice_analysis/analysis/user/james/plot_groomers.py:128-153 | In the corrected loop, every shown ratio was computed from that iteration's own histograms, under the name of a configuration in the overlay. |
| RatioStore.FreshInStep | pyjetty/alice_analysis/analysis/user/james/plot_groomers.py:128-153 | For any slice outcomes, every ratio that iteration n of the corrected loop shows was computed by a built slice of iteration n, under an overlaid configuration's name. |
| Dijets.Accept | pyjetty/alice_rg/process_rg_data.py:125-127 | The accepted jets are exactly the input jets with pt ≥ 5 and \|y\| ≤ 0.5, and never more of them than the input. |
| Dijets.AcceptOne | pyjetty/alice_rg/process_rg_data.py:125-127 | One jet is kept iff the selector accepts it. |
| Dijets.AcceptAppend | pyjetty/alice_rg/process_rg_data.py:125-127 | Selecting from a concatenation is the concatenation of the selections, so the accepted jets keep their input order. |
| Dijets.AcceptKeepsOrder | pyjetty/alice_rg/process_rg_data.py:144-146 | Selecting from pt-sorted jets keeps them pt-sorted, so the first two accepted jets are the leading pair. |
| Dijets.FillJetHistograms | pyjetty/alice_rg/process_rg_data.py:158-179 | One hJetPt fill per jet, in order. One hAJ fill when there are two or more jets: A_J times the pt sum equals the pt difference, and Δφ is the plain azimuth difference. It fails iff the leading pair's pt sum is zero. Earlier fills are kept. |
| Dijets.AsymmetryInUnit | pyjetty/alice_rg/process_rg_data.py:171-176 | For pt1 ≥ pt2 > 0 the asymmetry is defined and lies in [0, 1). |
| Dijets.FillSoftDropHistograms | pyjetty/alice_rg/process_rg_data.py:182-191 | Appends z_g and R_g of every groomed jet to hZg and hRg. hJetPt and hAJ are untouched. |
| Dijets.AnalyzeJets | pyjetty/alice_rg/process_rg_data.py:141-155 | Never fails on selected jets. It fills hJetPt with the accepted pts, and hZg and hRg with the groomed accepted jets. It adds one hAJ fill iff at least two jets are accepted, and that fill is the leading accepted pair's: A_J times their pt sum equals their pt difference, and Δφ is their azimuth difference. |
| Dijets.DijetFillInRange | pyjetty/alice_rg/process_rg_data.py:169-179 | For pt-sorted jets with two accepted, the hAJ fill has A_J in [0, 1) and Δφ ≥ 0. |
| Dijets.AnalyzeEvents | pyjetty/alice_rg/process_rg_data.py:119-138 | Over all events: one hJetPt, hZg and hRg fill per accepted jet, and one hAJ fill per event with two accepted jets. Earlier fills are kept. |
| Dijets.AllDijetFillsInRange | pyjetty/alice_rg/process_rg_data.py:101-104 | Every A_J filled over a run lies inside the x axis [0, 1) of hAJ, and every Δφ is non-negative. |
| Dijets.DeltaPhiUnwrappedLeavesAxis | pyjetty/alice_rg/process_rg_data.py:177 | Two jets 0.48 apart across φ = 0 are filled at Δφ = 5.8, outside the Δφ axis [0, 4) of hAJ. |
| Dijets.DeltaPhiWrappedInRange | pyjetty/alice_rg/process_rg_data.py:177 | For azimuths in [0, 2π) the wrapped separation lies in [0, π] and is symmetric in the two jets. |
| Dijets.FillJetHistogramsWrapped | pyjetty/alice_rg/process_rg_data.py:158-179 | The same as FillJetHistograms, with Δφ folded into [0, π]. |
| Dijets.WrappedFillInAxes | pyjetty/alice_rg/process_rg_data.py:101-104 | The corrected fill of a selected, pt-sorted pair lies inside both axes of hAJ. |

## Left out

- Drawing is left out because it does not affect the histograms: canvases, pads, legends, styles, marker and colour values, the y-axis maxima and minima, text labels, output directories and file writing. The printed messages before an early return are left out too.
- The performance plots (plot_groomers.py lines 155-191) are left out. They call plotting code that is not part of this model.
- Reading the configuration, ROOT file access and `utils.obs_label` are left out. Observable labels, grooming settings and histograms arrive as inputs.
- FastJet clustering and `sorted_by_pt` are premises, not models: each event's jets arrive clustered, and pt ordering is assumed where a lemma needs it. SoftDrop grooming with beta = 0 and zcut = 0.1 is the parameter `groom`, because its internals are foreign code.
- Pandas grouping, `initializeHistograms` binning (except the hAJ axis bounds) and `saveHistograms` are left out as I/O. The filled histograms are modelled as logs of the values passed to `Fill`.
- Floating point is not modelled. Values are exact reals, and Python's string form of a number is a parameter `num` of the name functions.
- Sumw2 and bin errors are left out, because only bin contents affect the ratios.
- The `setattr(..., None)` calls at plot_groomers.py lines 451, 463, 655 and 667 are left out. They write names that nothing reads.
- Attribute names are keyed by their components. Two different keys whose formatted strings coincide are not modelled.
- The attributes that an earlier observable leaves are the `attrs` parameter of RatioStore.PlotGroomers. The loop over observables is not modelled separately.
- Histogram operations are simplified:
  - under- and overflow bins are not modelled;
  - a `Rebin` factor that does not divide the bin count drops the trailing group;
  - projections keep only the in-range bins of the target axis, as ROOT does without the "o" option;
  - a coordinate range keeps every bin that overlaps the open interval;
  - ROOT's reset of an empty range to the full axis is not modelled.
- Of the colours only the count of ColorArray matters: the overlay takes one per drawn ratio and raises IndexError past the ninth. The colour values are left out.
- Groomers.Decompose: the measured and truth projections are required to have the same kept bin widths. The source never checks this and would divide histograms of different binning.
- Groomers.CutDecomposition: the measured and truth zg and theta_g axes are required to be equal (SameBinning4), which the source never checks. Groomers.NormalisedSlice, Groomers.ObsProjection, Groomers.ObsProjectionForgetsRanges and Groomers.SumAreaAtMostRaa inherit the requirement, and so do the RatioStore members through ValidInputs, which also requires equal observable axes for kappa and tf.
- Groomers.Category: the flag axis is required to differ from the projected axis. The source always projects zg or theta_g, never the flag axis.
- Histograms.Divide: a zero divisor gives zero, following the ROOT convention. This is a modelling choice, not a property the source states.
- RatioStore.StoreAll: the failure contract says only that the error is one of the outcomes' errors, not which call raised it.
- RatioStore.MoneyRatio: when a name is missing and the colours run out too, the contract does not say which error comes first. The code raises whichever its configuration order reaches first.
- RatioStore.Step: states the overlay counts and the absence of AttributeError with the reset. What it shows is stated by RatioStore.ShownAsWritten and RatioStore.FreshInStep.
- Dijets.AnalyzeEvents: states the fill counts and that earlier fills are kept. The individual values, including each event's hAJ pair, are stated per event by Dijets.AnalyzeJets.

## Findings

| source | as written | input that shows it | evidently intended | confidence | as-written member | corrected member |
|---|---|---|---|---|---|---|
| pyjetty/alice_analysis/analysis/user/james/plot_groomers.py:128-153 | The ratio attributes persist across R_max and jet-radius iterations. Their names carry neither R_max nor, for kappa and tf, the jet radius. A slice that returns early (normalisation below 1e-3) writes nothing. | Two R_max values. In the second, a configuration's slice has an embedded count below 1e-3. plot_money_ratio then shows the ratio built for the first R_max. | Each iteration overlays only ratios it built itself, and leaves missing ones out. | medium, not executed | RatioStore.PlotGroomers, RatioStore.StaleRatioShown, RatioStore.StaleAcrossSteps, RatioStore.ShownAsWritten | RatioStore.PlotGroomersFresh, RatioStore.FreshRatiosOnly, RatioStore.FreshInStep |
| pyjetty/alice_rg/process_rg_data.py:177 | deltaPhi = abs(phi1 - phi2) on azimuths in [0, 2π), filled into an axis [0, 4). | phi1 = 0.2 and phi2 = 6.0: the jets are about 0.48 apart, but 5.8 is filled, into the overflow of hAJ. | The azimuthal separation folded into [0, π]. | medium, not executed | Dijets.FillJetHistograms, Dijets.DeltaPhiUnwrappedLeavesAxis | Dijets.FillJetHistogramsWrapped, Dijets.WrappedFillInAxes |
