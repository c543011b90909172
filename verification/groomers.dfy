/** The per-slice decomposition of an embedded groomed-jet measurement into
    prong-matching categories, its normalisation against the inclusive embedded
    and truth distributions, and the Embedded/Truth and tagging-purity ratios
    (PlotGroomers in plot_groomers.py), with drawing removed. */
module Groomers {
  import opened Results
  import opened Vectors
  import opened Histograms

  // ---------------------------------------------------------------------------
  // Observables and their plotting table

  datatype Observable = ThetaG | Zg | Kappa | Tf

  function Name(o: Observable): string
  {
    match o
    case ThetaG => "theta_g"
    case Zg => "zg"
    case Kappa => "kappa"
    case Tf => "tf"
  }

  function ParseObservable(s: string): (r: Option<Observable>)
    ensures r.Some? ==> Name(r.value) == s
    ensures r.None? ==> forall o: Observable :: Name(o) != s
  {
    if s == "theta_g" then Some(ThetaG)
    else if s == "zg" then Some(Zg)
    else if s == "kappa" then Some(Kappa)
    else if s == "tf" then Some(Tf)
    else None
  }

  /** Plot range, projection axis of the measured histogram, and rebin factor. */
  datatype AxisConfig = AxisConfig(xmin: real, xmax: real, axis: Option<nat>, rebin: nat)

  /** Axis order of the measured zg / theta_g histogram: (pt, zg, theta_g, flag). */
  const MeasuredLayout: seq<string> := ["pt", "zg", "theta_g", "flag"]

  function Config(o: Observable): AxisConfig
  {
    match o
    case ThetaG => AxisConfig(0.0, 1.0, Some(2), 5)
    case Zg => AxisConfig(0.0, 0.5, Some(1), 5)
    case Kappa => AxisConfig(0.0, 0.5, None, 1)
    case Tf => AxisConfig(0.0, 0.5, None, 1)
  }

  /** The table of init_observable, looked up by the observable's name.  Only
      zg and theta_g choose a projection axis, and it is the axis that carries
      that observable in the measured histogram. */
  function InitObservable(s: string): (r: Option<AxisConfig>)
    ensures r.Some? <==> s in {"theta_g", "zg", "kappa", "tf"}
    ensures r.Some? ==> r.value.xmin < r.value.xmax && r.value.rebin >= 1
    ensures r.Some? ==> (r.value.axis.Some? <==> s in {"theta_g", "zg"})
    ensures r.Some? && r.value.axis.Some? ==>
              r.value.axis.value < |MeasuredLayout| && MeasuredLayout[r.value.axis.value] == s
  {
    match ParseObservable(s)
    case None => None
    case Some(o) => Some(Config(o))
  }

  // ---------------------------------------------------------------------------
  // set_zmin

  /** A grooming setting: the items of a dict from groomer name to its parameters. */
  type GroomingSetting = seq<(string, seq<real>)>

  predicate DistinctKeys(g: GroomingSetting)
  {
    forall i, j :: 0 <= i < j < |g| ==> g[i].0 != g[j].0
  }

  /** The parameters stored under key k. */
  function Lookup(g: GroomingSetting, k: string): (r: Option<seq<real>>)
    ensures r.Some? ==> (k, r.value) in g
    ensures r.None? ==> forall i :: 0 <= i < |g| ==> g[i].0 != k
  {
    if |g| == 0 then None
    else if g[|g| - 1].0 == k then Some(g[|g| - 1].1)
    else Lookup(g[..|g| - 1], k)
  }

  const MaxBeta: real := 0.001

  /** zmin for zg given the 'sd' parameters [zcut, beta]: zcut when beta is zero
      (|beta| < 1e-3), 0 otherwise or without an 'sd' groomer. */
  function ZminFromSd(sd: Option<seq<real>>): Result<real>
  {
    match sd
    case None => Success(0.0)
    case Some(v) =>
      if |v| < 2 then Failure(IndexError)
      else if Abs(v[1]) < MaxBeta then Success(v[0])
      else Success(0.0)
  }

  /** In a dict every key occurs once, so a lookup finds the one entry under it. */
  lemma {:induction false} LookupDistinct(g: GroomingSetting, i: int)
    requires DistinctKeys(g) && 0 <= i < |g|
    ensures Lookup(g, g[i].0) == Some(g[i].1)
    decreases |g|
  {
    if i < |g| - 1 {
      LookupDistinct(g[..|g| - 1], i);
    }
  }

  /** set_zmin: for zg, scan the grooming setting and keep zcut of the 'sd' groomer
      when its beta is zero, else 0; other observables keep the previous zmin. */
  method SetZmin(o: Observable, g: GroomingSetting, prior: real) returns (r: Result<real>)
    requires DistinctKeys(g)
    ensures o != Zg ==> r == Success(prior)
    ensures o == Zg ==> r == ZminFromSd(Lookup(g, "sd"))
  {
    if o != Zg {
      return Success(prior);
    }
    var zmin := 0.0;
    var i := 0;
    while i < |g|
      invariant 0 <= i <= |g|
      invariant Lookup(g[..i], "sd").None? ==> zmin == 0.0
      invariant Lookup(g[..i], "sd").Some? ==> ZminFromSd(Lookup(g[..i], "sd")) == Success(zmin)
    {
      var key, value := g[i].0, g[i].1;
      assert g[..i + 1][..i] == g[..i];
      if key == "sd" {
        LookupDistinct(g, i);
        if |value| < 2 {
          return Failure(IndexError);
        }
        assert Lookup(g[..i], "sd").None? by {
          forall j | 0 <= j < i
            ensures g[..i][j].0 != "sd"
          {
            assert g[j].0 != g[i].0;
          }
        }
        if Abs(value[1]) < MaxBeta {
          zmin := value[0];
        }
      }
      i := i + 1;
    }
    assert g[..|g|] == g;
    return Success(zmin);
  }

  // ---------------------------------------------------------------------------
  // Categories, aggregates and the decomposition of one slice

  /** Category names in flag order: category i is flag i + 1. */
  const Legend: seq<string> :=
    ["subleading", "leading (swap)", "leading (mis-tag)", "ungroomed", "outside", "other"]

  /** The categories counted as correctly tagged. */
  const TaggedNames: seq<string> := ["subleading", "leading (swap)"]

  /** Normalisations below this abort the slice. */
  const MinNorm: real := 0.001

  /** Lower SetRangeUser bound that opens an axis from below for the normalisation. */
  const OpenLow: real := -10.0

  /** Flag bins 0..11, the flag range of the normalisation. */
  const AllFlags: Range := Bins(0, 11)

  datatype Aggregates = Aggregates(sum: Option<H1>, tagged: Option<H1>)

  predicate Binned(cats: seq<H1>, w: seq<real>)
  {
    forall i :: 0 <= i < |cats| ==> ValidH1(cats[i]) && cats[i].width == w
  }

  predicate AggregateBinned(acc: Option<H1>, w: seq<real>)
  {
    acc.Some? ==> ValidH1(acc.value) && acc.value.width == w
  }

  /** Bin j summed over the categories. */
  function ColumnTotal(cats: seq<H1>, j: nat): real
    requires forall i :: 0 <= i < |cats| ==> j < |cats[i].content|
  {
    if |cats| == 0 then 0.0 else cats[0].content[j] + ColumnTotal(cats[1..], j)
  }

  /** Bin j summed over the categories whose name is a tagged one. */
  function TaggedColumnTotal(cats: seq<H1>, names: seq<string>, j: nat): real
    requires |names| == |cats|
    requires forall i :: 0 <= i < |cats| ==> j < |cats[i].content|
  {
    if |cats| == 0 then 0.0
    else (if names[0] in TaggedNames then cats[0].content[j] else 0.0) + TaggedColumnTotal(cats[1..], names[1..], j)
  }

  predicate AnyTagged(names: seq<string>)
  {
    |names| > 0 && (names[0] in TaggedNames || AnyTagged(names[1..]))
  }

  function OrZero(acc: Option<H1>, j: nat): real
  {
    if acc.Some? && j < |acc.value.content| then acc.value.content[j] else 0.0
  }

  /** The loop over categories: h_sum starts as a clone of the first category and
      adds each later one; h_sum_tagged does the same over tagged names only. */
  function Accumulate(cats: seq<H1>, names: seq<string>, acc: Aggregates, w: seq<real>): (r: Aggregates)
    requires |names| == |cats| && Binned(cats, w)
    requires AggregateBinned(acc.sum, w) && AggregateBinned(acc.tagged, w)
    ensures r.sum.Some? <==> acc.sum.Some? || |cats| > 0
    ensures r.tagged.Some? <==> acc.tagged.Some? || AnyTagged(names)
    ensures AggregateBinned(r.sum, w) && AggregateBinned(r.tagged, w)
    ensures r.sum.Some? ==> forall j :: 0 <= j < |w| ==>
              r.sum.value.content[j] == OrZero(acc.sum, j) + ColumnTotal(cats, j)
    ensures r.tagged.Some? ==> forall j :: 0 <= j < |w| ==>
              r.tagged.value.content[j] == OrZero(acc.tagged, j) + TaggedColumnTotal(cats, names, j)
    decreases |cats|
  {
    if |cats| == 0 then acc
    else
      var h := cats[0];
      var sum := if acc.sum.Some? then Add(acc.sum.value, h) else h;
      var tagged :=
        if names[0] in TaggedNames then Some(if acc.tagged.Some? then Add(acc.tagged.value, h) else h)
        else acc.tagged;
      Accumulate(cats[1..], names[1..], Aggregates(Some(sum), tagged), w)
  }

  /** Projected, rebinned, and scaled by 1/norm and by bin width. */
  function Shape(h: HistN, a: nat, f: nat, norm: real): (g: H1)
    requires WellFormed(h) && a < |h.axes| && f >= 1 && norm != 0.0
    ensures ValidH1(g)
    ensures g.width == GroupSums(ProjectedWidths(h, a), f)
  {
    ScaleWidth(Rebin(Project(h, a), f), 1.0 / norm)
  }

  /** Category i: the single flag bin i + 1 of the flag axis. */
  function Category(h: HistN, flagAxis: nat, a: nat, f: nat, norm: real, i: nat): (g: H1)
    requires WellFormed(h) && flagAxis < |h.axes| && a < |h.axes| && flagAxis != a && f >= 1 && norm != 0.0
    ensures ValidH1(g)
    ensures g.width == GroupSums(ProjectedWidths(h, a), f)
  {
    Shape(SetRange(h, flagAxis, Bins(i + 1, i + 1)), a, f, norm)
  }

  predicate DecomposeArgs(h: HistN, flagAxis: nat, a: nat, t: HistN, ta: nat, f: nat)
  {
    && WellFormed(h) && WellFormed(t)
    && flagAxis < |h.axes| && a < |h.axes| && flagAxis != a && ta < |t.axes|
    && ProjectedWidths(h, a) == ProjectedWidths(t, ta)
    && f >= 1
  }

  /** The six category shapes in legend order. */
  function Categories(h: HistN, flagAxis: nat, a: nat, f: nat, norm: real): (cats: seq<H1>)
    requires WellFormed(h) && flagAxis < |h.axes| && a < |h.axes| && flagAxis != a && f >= 1 && norm != 0.0
    ensures |cats| == |Legend|
    ensures forall i :: 0 <= i < |Legend| ==> cats[i] == Category(h, flagAxis, a, f, norm, i)
    ensures Binned(cats, GroupSums(ProjectedWidths(h, a), f))
  {
    seq(|Legend|, i requires 0 <= i < |Legend| => Category(h, flagAxis, a, f, norm, i))
  }

  /** h_sum and h_sum_tagged of six categories on common bins. */
  function SumAndTagged(cats: seq<H1>, w: seq<real>): (r: (H1, H1))
    requires |cats| == |Legend| && Binned(cats, w)
    ensures ValidH1(r.0) && r.0.width == w
    ensures ValidH1(r.1) && r.1.width == w
    ensures forall j :: 0 <= j < |w| ==> r.0.content[j] == ColumnTotal(cats, j)
    ensures forall j :: 0 <= j < |w| ==> r.1.content[j] == cats[0].content[j] + cats[1].content[j]
  {
    assert Legend[0] in TaggedNames;
    var agg := Accumulate(cats, Legend, Aggregates(None, None), w);
    TaggedAreFirstTwo(cats, w);
    (agg.sum.value, agg.tagged.value)
  }

  datatype Decomposition = Decomposition(
    categories: seq<H1>, sum: H1, tagged: H1, truth: H1, ratio: H1, purity: H1)

  /** Everything built for one slice once both normalisations passed: the six
      category shapes in legend order, their sum and tagged sum, the truth shape,
      Embedded/Truth = sum / truth and tagging purity = tagged / sum. */
  function Decompose(h: HistN, flagAxis: nat, a: nat, t: HistN, ta: nat, f: nat, nEmb: real, nTruth: real)
    : (d: Decomposition)
    requires DecomposeArgs(h, flagAxis, a, t, ta, f) && nEmb != 0.0 && nTruth != 0.0
    ensures d.categories == Categories(h, flagAxis, a, f, nEmb)
    ensures d.truth == Shape(t, ta, f, nTruth)
    ensures ValidH1(d.sum) && d.sum.width == d.truth.width
    ensures ValidH1(d.tagged) && d.tagged.width == d.sum.width
    ensures forall j :: 0 <= j < |d.sum.content| ==> d.sum.content[j] == ColumnTotal(d.categories, j)
    ensures forall j :: 0 <= j < |d.tagged.content| ==>
              d.tagged.content[j] == d.categories[0].content[j] + d.categories[1].content[j]
    ensures d.ratio == Divide(d.sum, d.truth)
    ensures d.purity == Divide(d.tagged, d.sum)
    ensures d.sum == Shape(SetRange(h, flagAxis, Bins(1, |Legend|)), a, f, nEmb)
  {
    var w := GroupSums(ProjectedWidths(h, a), f);
    var cats := Categories(h, flagAxis, a, f, nEmb);
    var st := SumAndTagged(cats, w);
    CategoriesAddUp(h, flagAxis, a, f, nEmb, |Legend|);
    assert cats[..|Legend|] == cats;
    assert st.0.content == Shape(SetRange(h, flagAxis, Bins(1, |Legend|)), a, f, nEmb).content;
    var truth := Shape(t, ta, f, nTruth);
    Decomposition(cats, st.0, st.1, truth, Divide(st.0, truth), Divide(st.1, st.0))
  }

  /** Of the legend, exactly the first two names are tagged, so the tagged column
      total is the sum of categories 0 and 1 (flags 1 and 2). */
  lemma TaggedAreFirstTwo(cats: seq<H1>, w: seq<real>)
    requires |cats| == |Legend| && Binned(cats, w)
    ensures forall i :: 0 <= i < |Legend| ==> (Legend[i] in TaggedNames <==> i < 2)
    ensures forall j :: 0 <= j < |w| ==>
              TaggedColumnTotal(cats, Legend, j) == cats[0].content[j] + cats[1].content[j]
  {
    forall j | 0 <= j < |w|
      ensures TaggedColumnTotal(cats, Legend, j) == cats[0].content[j] + cats[1].content[j]
    {
      var c2 := cats[2..];
      assert TaggedColumnTotal(c2[4..], Legend[6..], j) == 0.0;
      assert TaggedColumnTotal(c2[3..], Legend[5..], j) == 0.0;
      assert TaggedColumnTotal(c2[2..], Legend[4..], j) == 0.0;
      assert TaggedColumnTotal(c2[1..], Legend[3..], j) == 0.0;
      assert TaggedColumnTotal(c2, Legend[2..], j) == 0.0;
    }
  }

  // ---------------------------------------------------------------------------
  // One pt slice of zg or theta_g: plot_obs_projection

  datatype Skip = EmbeddedTooSmall | TruthTooSmall

  /** A slice either returns early on a vanishing normalisation or builds its plots. */
  datatype SliceOutcome = Skipped(why: Skip) | Built(d: Decomposition)

  /** Measured histogram with axes (pt, zg, theta_g, flag). */
  predicate Measured4(h: HistN)
  {
    WellFormed(h) && |h.axes| == 4
  }

  /** Truth histogram with axes (pt, zg, theta_g). */
  predicate Truth3(t: HistN)
  {
    WellFormed(t) && |t.axes| == 3
  }

  predicate SameBinning4(h: HistN, t: HistN)
    requires Measured4(h) && Truth3(t)
  {
    h.axes[1] == t.axes[1] && h.axes[2] == t.axes[2]
  }

  /** The measured view whose integral is the inclusive normalisation: zg and
      theta_g opened from below, every flag bin 0..11, pt range as given. */
  function NormView(h: HistN, xmax: real): (v: HistN)
    requires |h.ranges| == 4
    ensures v.axes == h.axes && v.cells == h.cells && |v.ranges| == 4
    ensures v.ranges[0] == h.ranges[0]
  {
    SetRange(SetRange(SetRange(h, 1, Coords(OpenLow, xmax)), 2, Coords(OpenLow, 1.0)), 3, AllFlags)
  }

  function NormViewTruth(t: HistN, xmax: real): (v: HistN)
    requires |t.ranges| == 3
    ensures v.axes == t.axes && v.cells == t.cells && |v.ranges| == 3
    ensures v.ranges[0] == t.ranges[0]
  {
    SetRange(SetRange(t, 1, Coords(OpenLow, xmax)), 2, Coords(OpenLow, 1.0))
  }

  /** The quenching suppression factor removed from the embedded normalisation. */
  function Raa(o: Observable, minTheta: real): real
  {
    if o == Zg then 1.0 - minTheta else 1.0
  }

  /** The measured view after the cuts: theta_g above minTheta and, for zg, zg above zmin. */
  function CutView(o: Observable, h: HistN, minTheta: real, zmin: real): (v: HistN)
    requires |h.ranges| == 4
    ensures v.axes == h.axes && v.cells == h.cells && |v.ranges| == 4
  {
    var c := SetRange(NormView(h, Config(o).xmax), 2, Coords(minTheta, 1.0));
    if o == Zg then SetRange(c, 1, Coords(zmin, Config(o).xmax)) else c
  }

  function CutViewTruth(o: Observable, t: HistN, minTheta: real, zmin: real): (v: HistN)
    requires |t.ranges| == 3
    ensures v.axes == t.axes && v.cells == t.cells && |v.ranges| == 3
  {
    var c := SetRange(NormViewTruth(t, Config(o).xmax), 2, Coords(minTheta, 1.0));
    if o == Zg then SetRange(c, 1, Coords(zmin, Config(o).xmax)) else c
  }

  /** The truth axis projected for an observable: Project3D('z') for theta_g,
      Project3D('y') for zg. */
  function TruthAxis(o: Observable): nat
  {
    if o == ThetaG then 2 else 1
  }

  /** The embedded normalisation: the integral of the uncut view divided by RAA. */
  function EmbeddedNorm(o: Observable, h: HistN, minTheta: real): real
    requires |h.ranges| == 4 && Raa(o, minTheta) != 0.0
  {
    Integral(NormView(h, Config(o).xmax)) / Raa(o, minTheta)
  }

  function TruthNorm(o: Observable, t: HistN): real
    requires |t.ranges| == 3
  {
    Integral(NormViewTruth(t, Config(o).xmax))
  }

  /** The plots of a slice that passed both normalisation checks: categories
      from the cut measured view on the observable's axis, truth from the cut
      truth view on the same observable; their stack is the cut view over
      flags 1..6. */
  function CutDecomposition(o: Observable, h: HistN, t: HistN, minTheta: real, zmin: real, nEmb: real, nTruth: real)
    : (d: Decomposition)
    requires o == Zg || o == ThetaG
    requires Measured4(h) && Truth3(t) && SameBinning4(h, t) && nEmb != 0.0 && nTruth != 0.0
    ensures Config(o).axis == Some(TruthAxis(o))
    ensures d.sum == Shape(SetRange(CutView(o, h, minTheta, zmin), 3, Bins(1, |Legend|)), TruthAxis(o), Config(o).rebin, nEmb)
  {
    Decompose(CutView(o, h, minTheta, zmin), 3, Config(o).axis.value,
              CutViewTruth(o, t, minTheta, zmin), TruthAxis(o), Config(o).rebin, nEmb, nTruth)
  }

  /** A slice with a non-zero RAA: skipped when the embedded normalisation
      (divided by RAA) or the truth normalisation is below 1e-3, built otherwise.
      Both normalisations are computed before the cuts. */
  function NormalisedSlice(o: Observable, h: HistN, t: HistN, minTheta: real, zmin: real): (s: SliceOutcome)
    requires o == Zg || o == ThetaG
    requires Measured4(h) && Truth3(t) && SameBinning4(h, t) && Raa(o, minTheta) != 0.0
    ensures s.Skipped? <==> EmbeddedNorm(o, h, minTheta) < MinNorm || TruthNorm(o, t) < MinNorm
    ensures s.Skipped? ==> (s.why == EmbeddedTooSmall <==> EmbeddedNorm(o, h, minTheta) < MinNorm)
    ensures s.Built? ==>
              s.d == CutDecomposition(o, h, t, minTheta, zmin, EmbeddedNorm(o, h, minTheta), TruthNorm(o, t))
  {
    var ax := Config(o).axis.value;
    var hn := NormView(h, Config(o).xmax);
    var nEmb := Total(Project(hn, ax).content) / Raa(o, minTheta);
    if nEmb < MinNorm then Skipped(EmbeddedTooSmall)
    else
      var tn := NormViewTruth(t, Config(o).xmax);
      var nTruth := Total(Project(tn, TruthAxis(o)).content);
      if nTruth < MinNorm then Skipped(TruthTooSmall)
      else
        assert nEmb == EmbeddedNorm(o, h, minTheta) && nTruth == TruthNorm(o, t);
        Built(CutDecomposition(o, h, t, minTheta, zmin, EmbeddedNorm(o, h, minTheta), TruthNorm(o, t)))
  }

  /** plot_obs_projection for one pt slice and one minimum theta; a zero RAA
      (min_theta = 1 for zg) raises a division by zero. */
  function ObsProjection(o: Observable, h: HistN, t: HistN, minTheta: real, zmin: real)
    : (r: Result<SliceOutcome>)
    requires o == Zg || o == ThetaG
    requires Measured4(h) && Truth3(t) && SameBinning4(h, t)
    ensures r.Failure? <==> Raa(o, minTheta) == 0.0
    ensures r.Failure? ==> r.error == ZeroDivision
    ensures r.Success? ==>
              (r.value.Skipped? <==> EmbeddedNorm(o, h, minTheta) < MinNorm || TruthNorm(o, t) < MinNorm)
    ensures r.Success? && r.value.Skipped? ==>
              (r.value.why == EmbeddedTooSmall <==> EmbeddedNorm(o, h, minTheta) < MinNorm)
    ensures r.Success? && r.value.Built? ==>
              r.value.d == CutDecomposition(o, h, t, minTheta, zmin, EmbeddedNorm(o, h, minTheta), TruthNorm(o, t))
  {
    if Raa(o, minTheta) == 0.0 then Failure(ZeroDivision)
    else Success(NormalisedSlice(o, h, t, minTheta, zmin))
  }

  // ---------------------------------------------------------------------------
  // One pt slice of kappa or tf: plot_obs_projection_kappa

  /** Measured histogram with axes (pt, observable, flag). */
  predicate Measured3(h: HistN)
  {
    WellFormed(h) && |h.axes| == 3
  }

  /** Truth histogram with axes (pt, observable). */
  predicate Truth2(t: HistN)
  {
    WellFormed(t) && |t.axes| == 2
  }

  function NormViewKappa(h: HistN, xmax: real): HistN
    requires |h.ranges| == 3
  {
    SetRange(SetRange(h, 1, Coords(OpenLow, xmax)), 2, AllFlags)
  }

  function NormViewTruthKappa(t: HistN, xmax: real): HistN
    requires |t.ranges| == 2
  {
    SetRange(t, 1, Coords(OpenLow, xmax))
  }

  /** plot_obs_projection_kappa for one pt slice: no suppression factor and no
      cuts, so the categories are taken from the normalisation view itself. */
  function ObsProjectionKappa(o: Observable, h: HistN, t: HistN): (r: SliceOutcome)
    requires o == Kappa || o == Tf
    requires Measured3(h) && Truth2(t) && h.axes[1] == t.axes[1]
    ensures r.Skipped? <==>
              Integral(NormViewKappa(h, Config(o).xmax)) < MinNorm
              || Integral(NormViewTruthKappa(t, Config(o).xmax)) < MinNorm
    ensures r.Skipped? ==>
              (r.why == EmbeddedTooSmall <==> Integral(NormViewKappa(h, Config(o).xmax)) < MinNorm)
    ensures r.Built? ==>
              r.d == Decompose(NormViewKappa(h, Config(o).xmax), 2, 1,
                               NormViewTruthKappa(t, Config(o).xmax), 1, Config(o).rebin,
                               Integral(NormViewKappa(h, Config(o).xmax)),
                               Integral(NormViewTruthKappa(t, Config(o).xmax)))
  {
    var cfg := Config(o);
    var hn := NormViewKappa(h, cfg.xmax);
    var nEmb := Total(Project(hn, 1).content);
    if nEmb < MinNorm then Skipped(EmbeddedTooSmall)
    else
      var tn := NormViewTruthKappa(t, cfg.xmax);
      var nTruth := Total(Project(tn, 1).content);
      if nTruth < MinNorm then Skipped(TruthTooSmall)
      else Built(Decompose(hn, 2, 1, tn, 1, cfg.rebin, nEmb, nTruth))
  }

  // ---------------------------------------------------------------------------
  // Properties of the decomposition

  /** Splitting the range of another axis into two disjoint parts splits a shape
      into the sum of the two part shapes. */
  lemma ShapeSplits(h: HistN, x: nat, r: Range, r1: Range, r2: Range, a: nat, f: nat, norm: real)
    requires WellFormed(h) && x < |h.axes| && a < |h.axes| && x != a && f >= 1 && norm != 0.0
    requires SplitsInto(h.axes[x], r, r1, r2)
    ensures Shape(SetRange(h, x, r), a, f, norm)
         == Add(Shape(SetRange(h, x, r1), a, f, norm), Shape(SetRange(h, x, r2), a, f, norm))
  {
    var p, p1, p2 := Project(SetRange(h, x, r), a), Project(SetRange(h, x, r1), a), Project(SetRange(h, x, r2), a);
    var g, g1, g2 := SetRange(h, x, r), SetRange(h, x, r1), SetRange(h, x, r2);
    ProjectionSplits(h, x, r, r1, r2, a, h.cells);
    assert g.ranges[a] == g1.ranges[a] == g2.ranges[a] == h.ranges[a];
    TrimPlus(ProjectCells(g1, a, h.cells), ProjectCells(g2, a, h.cells), h.axes[a], h.ranges[a], 1);
    assert p.content == Add(p1, p2).content;
    RebinAdd(p1, p2, f);
    ScaleWidthAdd(Rebin(p1, f), Rebin(p2, f), 1.0 / norm);
  }

  lemma {:induction false} ColumnTotalSnoc(cs: seq<H1>, j: nat)
    requires |cs| >= 1 && forall i :: 0 <= i < |cs| ==> j < |cs[i].content|
    ensures ColumnTotal(cs, j) == ColumnTotal(cs[..|cs| - 1], j) + cs[|cs| - 1].content[j]
    decreases |cs|
  {
    if |cs| > 1 {
      ColumnTotalSnoc(cs[1..], j);
      assert cs[1..][..|cs| - 2] == cs[..|cs| - 1][1..];
    }
  }

  lemma {:induction false} ColumnTotalNonNegative(cs: seq<H1>, j: nat)
    requires forall i :: 0 <= i < |cs| ==> j < |cs[i].content| && cs[i].content[j] >= 0.0
    ensures ColumnTotal(cs, j) >= 0.0
    decreases |cs|
  {
    if |cs| > 0 {
      ColumnTotalNonNegative(cs[1..], j);
    }
  }

  /** The first m categories add up, bin by bin, to the one shape over flags 1..m. */
  lemma CategoriesAddUp(h: HistN, flagAxis: nat, a: nat, f: nat, norm: real, m: nat)
    requires WellFormed(h) && flagAxis < |h.axes| && a < |h.axes| && flagAxis != a && f >= 1 && norm != 0.0
    requires 1 <= m <= |Legend|
    ensures forall j :: 0 <= j < |GroupSums(ProjectedWidths(h, a), f)| ==>
              Shape(SetRange(h, flagAxis, Bins(1, m)), a, f, norm).content[j]
              == ColumnTotal(Categories(h, flagAxis, a, f, norm)[..m], j)
  {
    var cats := Categories(h, flagAxis, a, f, norm);
    var w := GroupSums(ProjectedWidths(h, a), f);
    var sums := PrefixShapes(h, flagAxis, a, f, norm);
    RunningShapes(h, flagAxis, a, f, norm);
    assert sums[m - 1] == Shape(SetRange(h, flagAxis, Bins(1, m)), a, f, norm);
    forall j | 0 <= j < |w|
      ensures sums[m - 1].content[j] == ColumnTotal(cats[..m], j)
    {
      RunningColumns(cats, sums, j, m);
    }
  }

  /** The shapes over flags 1..1, 1..2, ..., 1..6. */
  function PrefixShapes(h: HistN, flagAxis: nat, a: nat, f: nat, norm: real): (s: seq<H1>)
    requires WellFormed(h) && flagAxis < |h.axes| && a < |h.axes| && flagAxis != a && f >= 1 && norm != 0.0
    ensures |s| == |Legend|
    ensures forall i :: 0 <= i < |Legend| ==> s[i] == Shape(SetRange(h, flagAxis, Bins(1, i + 1)), a, f, norm)
    ensures Binned(s, GroupSums(ProjectedWidths(h, a), f))
  {
    seq(|Legend|, i requires 0 <= i < |Legend| => Shape(SetRange(h, flagAxis, Bins(1, i + 1)), a, f, norm))
  }

  /** Each shape over flags 1..i+1 is the one over flags 1..i plus category i. */
  lemma RunningShapes(h: HistN, flagAxis: nat, a: nat, f: nat, norm: real)
    requires WellFormed(h) && flagAxis < |h.axes| && a < |h.axes| && flagAxis != a && f >= 1 && norm != 0.0
    ensures var s, cats := PrefixShapes(h, flagAxis, a, f, norm), Categories(h, flagAxis, a, f, norm);
            && s[0] == cats[0]
            && forall i :: 1 <= i < |Legend| ==> s[i] == Add(s[i - 1], cats[i])
  {
    var s, cats := PrefixShapes(h, flagAxis, a, f, norm), Categories(h, flagAxis, a, f, norm);
    forall i | 1 <= i < |Legend|
      ensures s[i] == Add(s[i - 1], cats[i])
    {
      assert s[i - 1] == Shape(SetRange(h, flagAxis, Bins(1, i)), a, f, norm);
      SplitOffLast(h, flagAxis, a, f, norm, i);
    }
  }

  /** A running sum of rows, each the previous one plus the next row, holds in
      column j the column total of the rows summed so far. */
  lemma {:induction false} RunningColumns(cats: seq<H1>, sums: seq<H1>, j: nat, m: nat)
    requires |sums| == |cats| && 1 <= m <= |cats|
    requires forall i :: 0 <= i < |cats| ==> j < |cats[i].content| && j < |sums[i].content|
    requires sums[0].content[j] == cats[0].content[j]
    requires forall i :: 1 <= i < |cats| ==> sums[i].content[j] == sums[i - 1].content[j] + cats[i].content[j]
    ensures sums[m - 1].content[j] == ColumnTotal(cats[..m], j)
    decreases m
  {
    if m == 1 {
      assert cats[..1][1..] == [];
    } else {
      RunningColumns(cats, sums, j, m - 1);
      ColumnTotalSnoc(cats[..m], j);
      assert cats[..m][..m - 1] == cats[..m - 1];
    }
  }

  /** The shape over flags 1..i+1 is the shape over flags 1..i plus category i. */
  lemma SplitOffLast(h: HistN, flagAxis: nat, a: nat, f: nat, norm: real, i: nat)
    requires WellFormed(h) && flagAxis < |h.axes| && a < |h.axes| && flagAxis != a && f >= 1 && norm != 0.0
    requires 1 <= i < |Legend|
    ensures Shape(SetRange(h, flagAxis, Bins(1, i + 1)), a, f, norm)
         == Add(Shape(SetRange(h, flagAxis, Bins(1, i)), a, f, norm), Category(h, flagAxis, a, f, norm, i))
  {
    ShapeSplits(h, flagAxis, Bins(1, i + 1), Bins(1, i), Bins(i + 1, i + 1), a, f, norm);
  }

  lemma ScaledNonNegative(y: real, w: real, c: real, x: real)
    requires w > 0.0 && c > 0.0 && x >= 0.0 && y * w == c * x
    ensures y >= 0.0
  {
    if y < 0.0 {
      assert y * w < 0.0;
    }
  }

  lemma ShapeNonNegative(h: HistN, a: nat, f: nat, norm: real)
    requires WellFormed(h) && NonNegative(h) && a < |h.axes| && f >= 1 && norm > 0.0
    ensures AllNonNegative(Shape(h, a, f, norm).content)
  {
    var p := Project(h, a);
    ProjectNonNegative(h, a);
    var g := Rebin(p, f);
    var s := Shape(h, a, f, norm);
    assert s == ScaleWidth(g, 1.0 / norm);
    forall j | 0 <= j < |s.content|
      ensures s.content[j] >= 0.0
    {
      ScaledNonNegative(s.content[j], g.width[j], 1.0 / norm, g.content[j]);
    }
  }

  lemma RatioInUnit(p: real, s: real, t: real)
    requires s > 0.0 && 0.0 <= t <= s && p * s == t
    ensures 0.0 <= p <= 1.0
  {
  }

  /** With non-negative categories, flags 1 and 2 together never exceed all six. */
  lemma TaggedWithinColumn(cats: seq<H1>, j: nat)
    requires |cats| == |Legend|
    requires forall i :: 0 <= i < |cats| ==> j < |cats[i].content| && cats[i].content[j] >= 0.0
    ensures 0.0 <= cats[0].content[j] + cats[1].content[j] <= ColumnTotal(cats, j)
  {
    assert cats[1..][1..] == cats[2..];
    ColumnTotalNonNegative(cats[2..], j);
  }

  lemma CategoriesNonNegative(h: HistN, flagAxis: nat, a: nat, f: nat, norm: real)
    requires WellFormed(h) && NonNegative(h) && flagAxis < |h.axes| && a < |h.axes| && flagAxis != a && f >= 1 && norm > 0.0
    ensures forall i, j :: 0 <= i < |Legend| && 0 <= j < |Categories(h, flagAxis, a, f, norm)[i].content| ==>
              Categories(h, flagAxis, a, f, norm)[i].content[j] >= 0.0
  {
    var cats := Categories(h, flagAxis, a, f, norm);
    forall i | 0 <= i < |Legend|
      ensures AllNonNegative(cats[i].content)
    {
      ShapeNonNegative(SetRange(h, flagAxis, Bins(i + 1, i + 1)), a, f, norm);
    }
  }

  /** Bin j of a decomposition: 0 <= tagged <= sum, purity in [0, 1], and the
      purity is the tagged fraction where the sum is non-zero, else 0. */
  predicate PurityBoundedAt(d: Decomposition, j: nat)
  {
    j < |d.sum.content| && j < |d.tagged.content| && j < |d.purity.content|
    && 0.0 <= d.tagged.content[j] <= d.sum.content[j]
    && 0.0 <= d.purity.content[j] <= 1.0
    && (d.sum.content[j] != 0.0 ==> d.purity.content[j] * d.sum.content[j] == d.tagged.content[j])
    && (d.sum.content[j] == 0.0 ==> d.purity.content[j] == 0.0)
  }

  lemma PurityAt(d: Decomposition, j: nat)
    requires |d.categories| == |Legend|
    requires forall i :: 0 <= i < |Legend| ==> j < |d.categories[i].content| && d.categories[i].content[j] >= 0.0
    requires ValidH1(d.sum) && ValidH1(d.tagged) && |d.tagged.content| == |d.sum.content| && j < |d.sum.content|
    requires d.sum.content[j] == ColumnTotal(d.categories, j)
    requires d.tagged.content[j] == d.categories[0].content[j] + d.categories[1].content[j]
    requires d.purity == Divide(d.tagged, d.sum)
    ensures PurityBoundedAt(d, j)
  {
    TaggedWithinColumn(d.categories, j);
    if d.sum.content[j] != 0.0 {
      RatioInUnit(d.purity.content[j], d.sum.content[j], d.tagged.content[j]);
    }
  }

  /** On a non-negative histogram the tagged sum lies between 0 and the full sum
      in every bin, so the tagging purity lies in [0, 1]. */
  lemma PurityInUnitInterval(h: HistN, flagAxis: nat, a: nat, t: HistN, ta: nat, f: nat, nEmb: real, nTruth: real)
    requires DecomposeArgs(h, flagAxis, a, t, ta, f) && NonNegative(h) && nEmb > 0.0 && nTruth != 0.0
    ensures var d := Decompose(h, flagAxis, a, t, ta, f, nEmb, nTruth);
            forall j :: 0 <= j < |d.sum.content| ==> PurityBoundedAt(d, j)
  {
    var d := Decompose(h, flagAxis, a, t, ta, f, nEmb, nTruth);
    CategoriesNonNegative(h, flagAxis, a, f, nEmb);
    forall j | 0 <= j < |d.sum.content|
      ensures PurityBoundedAt(d, j)
    {
      PurityAt(d, j);
    }
  }

  lemma SelectedTransfers(h1: HistN, h2: HistN, c: Cell)
    requires h1.axes == h2.axes && h1.ranges == h2.ranges && Selected(h1, c)
    ensures Selected(h2, c)
  {
    forall a | 0 <= a < |h2.axes|
      ensures InRangeOn(h2, c, a)
    {
      assert InRangeOn(h1, c, a);
    }
  }

  /** Selection depends on the axes and ranges only. */
  lemma SelectedSameView(h1: HistN, h2: HistN, c: Cell)
    requires h1.axes == h2.axes && h1.ranges == h2.ranges
    ensures Selected(h1, c) == Selected(h2, c)
  {
    if Selected(h1, c) {
      SelectedTransfers(h1, h2, c);
    }
    if Selected(h2, c) {
      SelectedTransfers(h2, h1, c);
    }
  }

  lemma ProjectCellsSameView(h1: HistN, h2: HistN, a: nat, cs: seq<Cell>)
    requires a < |h1.axes| && h1.axes == h2.axes && h1.ranges == h2.ranges
    ensures ProjectCells(h1, a, cs) == ProjectCells(h2, a, cs)
    decreases |cs|
  {
    if |cs| > 0 {
      SelectedSameView(h1, h2, cs[0]);
      assert Deposit(h1, a, cs[0]) == Deposit(h2, a, cs[0]);
      ProjectCellsSameView(h1, h2, a, cs[1..]);
    }
  }

  /** A category sees only the cells of its own flag: adding cells with any
      other flag leaves it unchanged. */
  lemma CategoryIgnoresOtherFlags(h: HistN, flagAxis: nat, a: nat, f: nat, norm: real, i: nat, extra: seq<Cell>)
    requires WellFormed(h) && flagAxis < |h.axes| && a < |h.axes| && flagAxis != a && f >= 1 && norm != 0.0
    requires forall c :: c in extra ==> Fits(h.axes, c) && c.bin[flagAxis] != i + 1
    ensures WellFormed(h.(cells := h.cells + extra))
    ensures Category(h.(cells := h.cells + extra), flagAxis, a, f, norm, i) == Category(h, flagAxis, a, f, norm, i)
  {
    var h2 := h.(cells := h.cells + extra);
    var g, g2 := SetRange(h, flagAxis, Bins(i + 1, i + 1)), SetRange(h2, flagAxis, Bins(i + 1, i + 1));
    ProjectCellsAppend(g2, a, h.cells, extra);
    ProjectCellsSameView(g, g2, a, h.cells);
    forall c | c in extra
      ensures !Selected(g2, c)
    {
      assert !InRangeOn(g2, c, flagAxis);
    }
    ProjectCellsUnselected(g2, a, extra);
    var pc := ProjectCells(g, a, h.cells);
    assert ProjectCells(g2, a, h2.cells) == pc by {
      assert forall j :: 0 <= j < |pc| ==> ProjectCells(g2, a, h2.cells)[j] == pc[j];
    }
    assert g2.ranges == g.ranges && g2.axes == g.axes;
    assert Project(g2, a).content == Project(g, a).content;
  }

  /** The normalisation resets every axis but pt, so whatever ranges an earlier
      slice left on the other axes do not matter. */
  lemma ObsProjectionForgetsRanges(o: Observable, h: HistN, t: HistN, minTheta: real, zmin: real,
                                   hr: seq<Range>, tr: seq<Range>)
    requires o == Zg || o == ThetaG
    requires Measured4(h) && Truth3(t) && SameBinning4(h, t)
    requires |hr| == 4 && |tr| == 3 && hr[0] == h.ranges[0] && tr[0] == t.ranges[0]
    ensures Measured4(h.(ranges := hr)) && Truth3(t.(ranges := tr))
    ensures ObsProjection(o, h.(ranges := hr), t.(ranges := tr), minTheta, zmin)
         == ObsProjection(o, h, t, minTheta, zmin)
  {
    var h2, t2 := h.(ranges := hr), t.(ranges := tr);
    ViewsForgetRanges(o, h, t, minTheta, zmin, hr, tr);
    if Raa(o, minTheta) != 0.0 {
      assert EmbeddedNorm(o, h2, minTheta) == EmbeddedNorm(o, h, minTheta);
      assert TruthNorm(o, t2) == TruthNorm(o, t);
      var nEmb, nTruth := EmbeddedNorm(o, h, minTheta), TruthNorm(o, t);
      if nEmb >= MinNorm && nTruth >= MinNorm {
        assert CutDecomposition(o, h2, t2, minTheta, zmin, nEmb, nTruth)
            == CutDecomposition(o, h, t, minTheta, zmin, nEmb, nTruth);
      }
      assert NormalisedSlice(o, h2, t2, minTheta, zmin) == NormalisedSlice(o, h, t, minTheta, zmin);
    }
  }

  /** Every view a slice is built from sets all the ranges it reads. */
  lemma ViewsForgetRanges(o: Observable, h: HistN, t: HistN, minTheta: real, zmin: real,
                          hr: seq<Range>, tr: seq<Range>)
    requires o == Zg || o == ThetaG
    requires Measured4(h) && Truth3(t) && SameBinning4(h, t)
    requires |hr| == 4 && |tr| == 3 && hr[0] == h.ranges[0] && tr[0] == t.ranges[0]
    ensures NormView(h.(ranges := hr), Config(o).xmax) == NormView(h, Config(o).xmax)
    ensures NormViewTruth(t.(ranges := tr), Config(o).xmax) == NormViewTruth(t, Config(o).xmax)
    ensures CutView(o, h.(ranges := hr), minTheta, zmin) == CutView(o, h, minTheta, zmin)
    ensures CutViewTruth(o, t.(ranges := tr), minTheta, zmin) == CutViewTruth(o, t, minTheta, zmin)
  {
  }

  lemma ObsProjectionKappaForgetsRanges(o: Observable, h: HistN, t: HistN, hr: seq<Range>, tr: seq<Range>)
    requires o == Kappa || o == Tf
    requires Measured3(h) && Truth2(t) && h.axes[1] == t.axes[1]
    requires |hr| == 3 && |tr| == 2 && hr[0] == h.ranges[0] && tr[0] == t.ranges[0]
    ensures Measured3(h.(ranges := hr)) && Truth2(t.(ranges := tr))
    ensures ObsProjectionKappa(o, h.(ranges := hr), t.(ranges := tr)) == ObsProjectionKappa(o, h, t)
  {
    var xmax := Config(o).xmax;
    assert NormViewKappa(h.(ranges := hr), xmax) == NormViewKappa(h, xmax);
    assert NormViewTruthKappa(t.(ranges := tr), xmax) == NormViewTruthKappa(t, xmax);
  }

  /** The cut view over flags 1..6 keeps only bins the normalisation view keeps,
      provided the cuts lie above the opening bound. */
  lemma CutWithinNorm(o: Observable, h: HistN, minTheta: real, zmin: real)
    requires |h.ranges| == |h.axes| == 4
    requires OpenLow <= minTheta && OpenLow <= zmin
    ensures RangesWithin(SetRange(CutView(o, h, minTheta, zmin), 3, Bins(1, |Legend|)), NormView(h, Config(o).xmax))
  {
    var xmax := Config(o).xmax;
    var c6 := SetRange(CutView(o, h, minTheta, zmin), 3, Bins(1, |Legend|));
    var nv := NormView(h, xmax);
    assert c6.ranges[0] == nv.ranges[0];
    assert c6.ranges[1] == (if o == Zg then Coords(zmin, xmax) else Coords(OpenLow, xmax));
    assert nv.ranges[1] == Coords(OpenLow, xmax);
    assert c6.ranges[2] == Coords(minTheta, 1.0) && nv.ranges[2] == Coords(OpenLow, 1.0);
    assert c6.ranges[3] == Bins(1, 6) && nv.ranges[3] == AllFlags;
  }

  lemma NormalisedBound(g: real, i: real, raa: real)
    requires g <= i && 0.0 <= i && raa != 0.0 && i / raa >= MinNorm
    ensures (1.0 / (i / raa)) * g <= raa
  {
    assert raa > 0.0 && i > 0.0;
    assert 1.0 / (i / raa) == raa / i;
    assert (raa / i) * g <= (raa / i) * i;
  }

  /** The area of a shape is its rebinned count divided by the normalisation;
      rebinning only drops a trailing partial group, so that count is at most
      the integral, and equal to it when the rebin factor divides the number of bins. */
  lemma ShapeArea(h: HistN, a: nat, f: nat, norm: real)
    requires WellFormed(h) && NonNegative(h) && a < |h.axes| && f >= 1 && norm != 0.0
    ensures var kept := Total(Rebin(Project(h, a), f).content);
            && Area(Shape(h, a, f, norm)) == (1.0 / norm) * kept
            && kept <= Integral(h)
            && (|Project(h, a).content| % f == 0 ==> kept == Integral(h))
  {
    ShapeAreaScaled(h, a, f, norm);
    ProjectNonNegative(h, a);
  }

  lemma ShapeAreaScaled(h: HistN, a: nat, f: nat, norm: real)
    requires WellFormed(h) && a < |h.axes| && f >= 1 && norm != 0.0
    ensures Area(Shape(h, a, f, norm)) == (1.0 / norm) * Total(Rebin(Project(h, a), f).content)
  {
    var g := Rebin(Project(h, a), f);
    assert Shape(h, a, f, norm) == ScaleWidth(g, 1.0 / norm);
    AreaOfScaleWidth(g, 1.0 / norm);
  }

  /** The cut view over flags 1..6 counts no more than the normalisation view. */
  lemma CutCountWithinNorm(o: Observable, h: HistN, minTheta: real, zmin: real)
    requires o == Zg || o == ThetaG
    requires Measured4(h) && NonNegative(h) && OpenLow <= minTheta && OpenLow <= zmin
    ensures 0.0 <= Integral(SetRange(CutView(o, h, minTheta, zmin), 3, Bins(1, |Legend|)))
                <= Integral(NormView(h, Config(o).xmax))
  {
    var nv := NormView(h, Config(o).xmax);
    var cut6 := SetRange(CutView(o, h, minTheta, zmin), 3, Bins(1, |Legend|));
    CutWithinNorm(o, h, minTheta, zmin);
    SumOverMonotone(cut6, nv, h.cells);
    ProjectNonNegative(cut6, 0);
    TotalNonNegative(Project(cut6, 0).content);
  }

  lemma ShapeAreaBound(s6: HistN, ax: nat, f: nat, nEmb: real, full: real, raa: real)
    requires WellFormed(s6) && NonNegative(s6) && ax < |s6.axes| && f >= 1
    requires raa != 0.0 && nEmb == full / raa && nEmb >= MinNorm && 0.0 <= Integral(s6) <= full
    ensures Area(Shape(s6, ax, f, nEmb)) <= raa
  {
    ShapeArea(s6, ax, f, nEmb);
    NormalisedBound(Total(Rebin(Project(s6, ax), f).content), full, raa);
  }

  lemma CutSumAreaAtMostRaa(o: Observable, h: HistN, t: HistN, minTheta: real, zmin: real)
    requires o == Zg || o == ThetaG
    requires Measured4(h) && Truth3(t) && SameBinning4(h, t) && NonNegative(h)
    requires OpenLow <= minTheta && OpenLow <= zmin
    requires Raa(o, minTheta) != 0.0 && EmbeddedNorm(o, h, minTheta) >= MinNorm && TruthNorm(o, t) >= MinNorm
    ensures Area(CutDecomposition(o, h, t, minTheta, zmin, EmbeddedNorm(o, h, minTheta), TruthNorm(o, t)).sum)
            <= Raa(o, minTheta)
  {
    var cut6 := SetRange(CutView(o, h, minTheta, zmin), 3, Bins(1, |Legend|));
    CutCountWithinNorm(o, h, minTheta, zmin);
    ShapeAreaBound(cut6, Config(o).axis.value, Config(o).rebin, EmbeddedNorm(o, h, minTheta),
                   Integral(NormView(h, Config(o).xmax)), Raa(o, minTheta));
  }

  /** The stacked categories of a built zg / theta_g slice have area at most RAA:
      they count a subset (flags 1..6, after the cuts) of the cells counted by the
      normalisation, and that normalisation was divided by RAA. */
  lemma SumAreaAtMostRaa(o: Observable, h: HistN, t: HistN, minTheta: real, zmin: real)
    requires o == Zg || o == ThetaG
    requires Measured4(h) && Truth3(t) && SameBinning4(h, t) && NonNegative(h)
    requires OpenLow <= minTheta && OpenLow <= zmin
    ensures var r := ObsProjection(o, h, t, minTheta, zmin);
            r.Success? && r.value.Built? ==> Area(r.value.d.sum) <= Raa(o, minTheta)
  {
    var r := ObsProjection(o, h, t, minTheta, zmin);
    if r.Success? && r.value.Built? {
      CutSumAreaAtMostRaa(o, h, t, minTheta, zmin);
    }
  }
}
