/** The money-plot driver of PlotGroomers: every grooming configuration's pt
    slices are decomposed, their Embedded/Truth and tagging-purity ratios are
    kept as attributes of the plotter, and the ratio overlays read them back. */
module RatioStore {
  import opened Results
  import opened Histograms
  import opened Groomers

  // ---------------------------------------------------------------------------
  // Ratio names

  datatype RatioKind = EmbeddedOverTruth | TaggingPurity

  /** The attribute suffix of a ratio kind in plot_money_ratio. */
  function Suffix(kind: RatioKind): string
  {
    if kind == EmbeddedOverTruth then "" else "_tagged"
  }

  /** What an attribute name encodes: the ratio kind, the observable label, the
      pt slice and, for zg and theta_g only, the angular cut min_theta * jetR. */
  datatype RatioKey = RatioKey(kind: RatioKind, obsLabel: string, minPt: real, maxPt: real, dR: Option<real>)

  /** The ratios kept so far, by name. */
  type Attrs = map<RatioKey, H1>

  /** The attribute name written after a slice is built; num stands for Python's
      string form of a number. */
  function StoredName(k: RatioKey, num: real -> string): (s: string)
    ensures var head := if k.kind == EmbeddedOverTruth then "h_ratio_" else "h_ratio_tagged_";
            && |head| + |k.obsLabel| < |s|
            && s[..|head|] == head
            && s[|head|..|head| + |k.obsLabel|] == k.obsLabel
            && s[|head| + |k.obsLabel|] == '_'
    ensures k.dR.Some? ==> var tail := "_dR" + num(k.dR.value);
                           |tail| <= |s| && s[|s| - |tail|..] == tail
  {
    var head := if k.kind == EmbeddedOverTruth then "h_ratio_" else "h_ratio_tagged_";
    var tail := match k.dR case None => "" case Some(d) => "_dR" + num(d);
    var front := head + k.obsLabel + "_";
    var s := front + num(k.minPt) + "-" + num(k.maxPt) + tail;
    assert s == front + (num(k.minPt) + "-" + num(k.maxPt) + tail);
    assert front[..|head|] == head && front[|head|..|head| + |k.obsLabel|] == k.obsLabel;
    assert s[|s| - |tail|..] == tail;
    s
  }

  /** The attribute name read by the ratio overlay: it is the name written. */
  function LookupName(k: RatioKey, num: real -> string): (s: string)
    ensures s == StoredName(k, num)
  {
    var tail := match k.dR case None => "" case Some(d) => "_dR" + num(d);
    assert "h_ratio" + Suffix(k.kind) + "_" == (if k.kind == EmbeddedOverTruth then "h_ratio_" else "h_ratio_tagged_");
    "h_ratio" + Suffix(k.kind) + "_" + k.obsLabel + "_" + num(k.minPt) + "-" + num(k.maxPt) + tail
  }

  /** The two ratios of one slice never share a name. */
  lemma KindsNeverCollide(k: RatioKey, num: real -> string)
    ensures StoredName(k.(kind := EmbeddedOverTruth), num) != StoredName(k.(kind := TaggingPurity), num)
  {
    assert |StoredName(k.(kind := TaggingPurity), num)| == |StoredName(k.(kind := EmbeddedOverTruth), num)| + 7;
  }

  // ---------------------------------------------------------------------------
  // Slices and calls

  /** Consecutive pairs of the reported pt bin edges. */
  function PtSlices(bins: seq<real>): (s: seq<(real, real)>)
    ensures |s| == if |bins| < 2 then 0 else |bins| - 1
    ensures forall i :: 0 <= i < |s| ==> s[i].0 == bins[i] && s[i].1 == bins[i + 1]
  {
    if |bins| < 2 then [] else [(bins[0], bins[1])] + PtSlices(bins[1..])
  }

  /** Slices tile the reported range: each starts where the previous ends, and on
      increasing edges each slice is non-empty. */
  lemma PtSlicesTile(bins: seq<real>)
    requires |bins| >= 2
    ensures var s := PtSlices(bins);
            && s[0].0 == bins[0] && s[|s| - 1].1 == bins[|bins| - 1]
            && (forall i :: 0 <= i < |s| - 1 ==> s[i].1 == s[i + 1].0)
            && ((forall i, j :: 0 <= i < j < |bins| ==> bins[i] < bins[j]) ==>
                  forall i :: 0 <= i < |s| ==> s[i].0 < s[i].1)
  {
  }

  /** One call of the slice plot: a pt slice and a minimum theta. */
  datatype Call = Call(minPt: real, maxPt: real, minTheta: real)

  /** Call c is one pt slice paired with one minimum theta. */
  predicate OnGrid(c: Call, slices: seq<(real, real)>, thetas: seq<real>)
  {
    exists i, j :: 0 <= i < |slices| && 0 <= j < |thetas| && c == Call(slices[i].0, slices[i].1, thetas[j])
  }

  /** The calls of plot_money_plot in loop order: pt slices outside, thetas inside. */
  function Calls(slices: seq<(real, real)>, thetas: seq<real>): (cs: seq<Call>)
    ensures |cs| == |slices| * |thetas|
    ensures forall c :: c in cs ==> OnGrid(c, slices, thetas)
  {
    if |slices| == 0 then []
    else
      var head := seq(|thetas|, j requires 0 <= j < |thetas| => Call(slices[0].0, slices[0].1, thetas[j]));
      var rest := Calls(slices[1..], thetas);
      assert forall c :: c in head ==> OnGrid(c, slices, thetas) by {
        forall c | c in head
          ensures OnGrid(c, slices, thetas)
        {
          var j :| 0 <= j < |thetas| && c == head[j];
          assert c == Call(slices[0].0, slices[0].1, thetas[j]);
        }
      }
      assert forall c :: c in rest ==> OnGrid(c, slices, thetas) by {
        forall c | c in rest
          ensures OnGrid(c, slices, thetas)
        {
          assert OnGrid(c, slices[1..], thetas);
          var i, j :| 0 <= i < |slices| - 1 && 0 <= j < |thetas| && c == Call(slices[1..][i].0, slices[1..][i].1, thetas[j]);
          assert c == Call(slices[i + 1].0, slices[i + 1].1, thetas[j]);
        }
      }
      head + rest
  }

  /** Calls lists the grid in row-major order: the call at position
      i * |thetas| + j is pt slice i with minimum theta j. */
  lemma {:induction false} CallsInOrder(slices: seq<(real, real)>, thetas: seq<real>, i: int, j: int, k: int)
    requires 0 <= i < |slices| && 0 <= j < |thetas| && k == i * |thetas| + j
    ensures k < |Calls(slices, thetas)| && Calls(slices, thetas)[k] == Call(slices[i].0, slices[i].1, thetas[j])
    decreases |slices|
  {
    var n := |thetas|;
    var rest := Calls(slices[1..], thetas);
    assert |Calls(slices, thetas)| == n + |rest| && Calls(slices, thetas)[n..] == rest;
    if i > 0 {
      MulStep(i, n);
      MulStep(i - 1, n);
      CallsInOrder(slices[1..], thetas, i - 1, j, k - n);
      assert slices[1..][i - 1] == slices[i];
      assert Calls(slices, thetas)[n..][k - n] == rest[k - n];
    }
  }

  function DeltaR(o: Observable, minTheta: real, jetR: real): Option<real>
  {
    if o == Zg || o == ThetaG then Some(minTheta * jetR) else None
  }

  function KeyOf(o: Observable, kind: RatioKind, obsLabel: string, c: Call, jetR: real): RatioKey
  {
    RatioKey(kind, obsLabel, c.minPt, c.maxPt, DeltaR(o, c.minTheta, jetR))
  }

  // ---------------------------------------------------------------------------
  // One grooming configuration

  /** A grooming configuration's name, observable label, grooming setting, and its
      measured and truth histograms for the current R_max and jet R. */
  datatype Inputs = Inputs(name: string, obsLabel: string, grooming: GroomingSetting, meas: HistN, truth: HistN)

  predicate ValidInputs(o: Observable, x: Inputs)
  {
    && DistinctKeys(x.grooming)
    && if o == Zg || o == ThetaG then Measured4(x.meas) && Truth3(x.truth) && SameBinning4(x.meas, x.truth)
       else Measured3(x.meas) && Truth2(x.truth) && x.meas.axes[1] == x.truth.axes[1]
  }

  /** The histogram with its pt axis restricted to one slice. */
  function WithPt(h: HistN, lo: real, hi: real): (g: HistN)
    requires |h.ranges| >= 1
    ensures g.axes == h.axes && g.cells == h.cells && |g.ranges| == |h.ranges|
    ensures g.ranges[0] == Coords(lo, hi)
  {
    SetRange(h, 0, Coords(lo, hi))
  }

  /** One call of plot_obs_projection (zg, theta_g) or plot_obs_projection_kappa. */
  function SliceResult(o: Observable, x: Inputs, zmin: real, c: Call): (r: Result<SliceOutcome>)
    requires ValidInputs(o, x)
    ensures r.Failure? <==> o == Zg && c.minTheta == 1.0
    ensures r.Failure? ==> r.error == ZeroDivision
  {
    var h, t := WithPt(x.meas, c.minPt, c.maxPt), WithPt(x.truth, c.minPt, c.maxPt);
    if o == Zg || o == ThetaG then ObsProjection(o, h, t, c.minTheta, zmin)
    else Success(ObsProjectionKappa(o, h, t))
  }

  function RatioOf(kind: RatioKind, d: Decomposition): H1
  {
    if kind == EmbeddedOverTruth then d.ratio else d.purity
  }

  /** What one call leaves in the attributes: nothing when the slice was skipped,
      both ratios under the slice's names when it was built. */
  function Store(attrs: Attrs, o: Observable, obsLabel: string, jetR: real, c: Call, s: SliceOutcome): (r: Attrs)
    ensures s.Skipped? ==> r == attrs
    ensures s.Built? ==> KeyOf(o, EmbeddedOverTruth, obsLabel, c, jetR) in r
                         && r[KeyOf(o, EmbeddedOverTruth, obsLabel, c, jetR)] == s.d.ratio
    ensures s.Built? ==> KeyOf(o, TaggingPurity, obsLabel, c, jetR) in r
                         && r[KeyOf(o, TaggingPurity, obsLabel, c, jetR)] == s.d.purity
    ensures forall k :: k in attrs ==> k in r
    ensures forall k :: k in r && k != KeyOf(o, k.kind, obsLabel, c, jetR) ==> k in attrs && r[k] == attrs[k]
  {
    match s
    case Skipped(_) => attrs
    case Built(d) =>
      attrs[KeyOf(o, EmbeddedOverTruth, obsLabel, c, jetR) := d.ratio][KeyOf(o, TaggingPurity, obsLabel, c, jetR) := d.purity]
  }

  /** Storing the same outcome under the same names twice is storing it once: the
      repeated min_theta loop of kappa and tf recomputes and rewrites identical ratios. */
  lemma StoreIdempotent(attrs: Attrs, o: Observable, obsLabel: string, jetR: real, c: Call, s: SliceOutcome)
    ensures Store(Store(attrs, o, obsLabel, jetR, c, s), o, obsLabel, jetR, c, s) == Store(attrs, o, obsLabel, jetR, c, s)
  {
  }

  /** For kappa and tf neither the slice result nor the names depend on min_theta. */
  lemma KappaIgnoresTheta(o: Observable, x: Inputs, zmin: real, obsLabel: string, jetR: real, c: Call, theta: real, kind: RatioKind)
    requires o == Kappa || o == Tf
    requires ValidInputs(o, x)
    ensures SliceResult(o, x, zmin, c.(minTheta := theta)) == SliceResult(o, x, zmin, c)
    ensures KeyOf(o, kind, obsLabel, c.(minTheta := theta), jetR) == KeyOf(o, kind, obsLabel, c, jetR)
  {
  }

  /** The outcome of every call of one configuration, in order. */
  function Outcomes(o: Observable, x: Inputs, zmin: real, cs: seq<Call>): (outs: seq<Result<SliceOutcome>>)
    requires ValidInputs(o, x)
    ensures |outs| == |cs|
    ensures forall i :: 0 <= i < |cs| ==> outs[i] == SliceResult(o, x, zmin, cs[i])
    ensures forall i :: 0 <= i < |cs| && outs[i].Failure? ==> outs[i].error == ZeroDivision
  {
    seq(|cs|, i requires 0 <= i < |cs| => SliceResult(o, x, zmin, cs[i]))
  }

  /** Stores the outcomes of the calls in order; the first division by zero ends
      the run, as the exception it stands for would. */
  function StoreAll(attrs: Attrs, o: Observable, obsLabel: string, jetR: real, cs: seq<Call>, outs: seq<Result<SliceOutcome>>): (r: Result<Attrs>)
    requires |outs| == |cs|
    ensures r.Failure? <==> exists i :: 0 <= i < |outs| && outs[i].Failure?
    ensures r.Failure? ==> exists i :: 0 <= i < |outs| && outs[i] == Failure(r.error)
    ensures r.Success? ==> forall k :: k in attrs ==> k in r.value
    decreases |cs|
  {
    if |cs| == 0 then Success(attrs)
    else
      var s :- outs[0];
      StoreAll(Store(attrs, o, obsLabel, jetR, cs[0], s), o, obsLabel, jetR, cs[1..], outs[1..])
  }

  /** Call i was built and wrote key k. */
  predicate BuiltAt(o: Observable, obsLabel: string, jetR: real, cs: seq<Call>, outs: seq<Result<SliceOutcome>>, i: int, k: RatioKey)
    requires |outs| == |cs|
  {
    && 0 <= i < |cs|
    && KeyOf(o, k.kind, obsLabel, cs[i], jetR) == k
    && outs[i].Success?
    && outs[i].value.Built?
  }

  /** Every call that wrote k wrote the value v. */
  predicate WritersAgree(o: Observable, obsLabel: string, jetR: real, cs: seq<Call>, outs: seq<Result<SliceOutcome>>, k: RatioKey, v: H1)
    requires |outs| == |cs|
  {
    forall i :: 0 <= i < |cs| && BuiltAt(o, obsLabel, jetR, cs, outs, i, k) ==> RatioOf(k.kind, outs[i].value.d) == v
  }

  /** A name no call builds keeps whatever it held before the run, or stays absent. */
  lemma {:induction false} StoreAllKeepsUnbuilt(attrs: Attrs, o: Observable, obsLabel: string, jetR: real, cs: seq<Call>, outs: seq<Result<SliceOutcome>>, k: RatioKey)
    requires |outs| == |cs|
    requires forall i :: !BuiltAt(o, obsLabel, jetR, cs, outs, i, k)
    ensures var r := StoreAll(attrs, o, obsLabel, jetR, cs, outs);
            r.Success? ==> (k in r.value <==> k in attrs) && (k in attrs ==> r.value[k] == attrs[k])
    decreases |cs|
  {
    if |cs| > 0 && outs[0].Success? {
      var next := Store(attrs, o, obsLabel, jetR, cs[0], outs[0].value);
      assert !BuiltAt(o, obsLabel, jetR, cs, outs, 0, k);
      assert forall i :: !BuiltAt(o, obsLabel, jetR, cs[1..], outs[1..], i, k) by {
        forall i | 0 <= i < |cs| - 1
          ensures !BuiltAt(o, obsLabel, jetR, cs[1..], outs[1..], i, k)
        {
          assert !BuiltAt(o, obsLabel, jetR, cs, outs, i + 1, k);
        }
      }
      StoreAllKeepsUnbuilt(next, o, obsLabel, jetR, cs[1..], outs[1..], k);
    }
  }

  /** A name some call builds holds the ratio those calls computed. */
  lemma {:induction false} StoreAllKeepsBuilt(attrs: Attrs, o: Observable, obsLabel: string, jetR: real, cs: seq<Call>, outs: seq<Result<SliceOutcome>>, k: RatioKey, v: H1)
    requires |outs| == |cs|
    requires WritersAgree(o, obsLabel, jetR, cs, outs, k, v)
    ensures var r := StoreAll(attrs, o, obsLabel, jetR, cs, outs);
            r.Success? && (exists i :: BuiltAt(o, obsLabel, jetR, cs, outs, i, k)) ==> k in r.value && r.value[k] == v
    decreases |cs|
  {
    if |cs| > 0 && outs[0].Success? {
      var next := Store(attrs, o, obsLabel, jetR, cs[0], outs[0].value);
      assert WritersAgree(o, obsLabel, jetR, cs[1..], outs[1..], k, v) by {
        forall i | BuiltAt(o, obsLabel, jetR, cs[1..], outs[1..], i, k)
          ensures RatioOf(k.kind, outs[1..][i].value.d) == v
        {
          assert BuiltAt(o, obsLabel, jetR, cs, outs, i + 1, k);
        }
      }
      StoreAllKeepsBuilt(next, o, obsLabel, jetR, cs[1..], outs[1..], k, v);
      if exists i :: BuiltAt(o, obsLabel, jetR, cs[1..], outs[1..], i, k) {
      } else if BuiltAt(o, obsLabel, jetR, cs, outs, 0, k) {
        forall i
          ensures !BuiltAt(o, obsLabel, jetR, cs[1..], outs[1..], i, k)
        {
        }
        StoreAllKeepsUnbuilt(next, o, obsLabel, jetR, cs[1..], outs[1..], k);
        assert k in next && next[k] == v;
      } else {
        forall i | BuiltAt(o, obsLabel, jetR, cs, outs, i, k)
          ensures false
        {
          assert i > 0 && BuiltAt(o, obsLabel, jetR, cs[1..], outs[1..], i - 1, k);
        }
      }
    }
  }

  /** A name is written by StoreAll only where a built call wrote it: its final
      value is either the one it held before or the ratio of such a call. */
  lemma {:induction false} StoreAllProvenance(attrs: Attrs, o: Observable, obsLabel: string, jetR: real, cs: seq<Call>, outs: seq<Result<SliceOutcome>>, k: RatioKey)
    requires |outs| == |cs|
    ensures var r := StoreAll(attrs, o, obsLabel, jetR, cs, outs);
            r.Success? && k in r.value ==>
              (k in attrs && r.value[k] == attrs[k])
              || exists i :: BuiltAt(o, obsLabel, jetR, cs, outs, i, k) && r.value[k] == RatioOf(k.kind, outs[i].value.d)
    decreases |cs|
  {
    if |cs| > 0 && outs[0].Success? {
      var next := Store(attrs, o, obsLabel, jetR, cs[0], outs[0].value);
      var r := StoreAll(attrs, o, obsLabel, jetR, cs, outs);
      assert r == StoreAll(next, o, obsLabel, jetR, cs[1..], outs[1..]);
      StoreAllProvenance(next, o, obsLabel, jetR, cs[1..], outs[1..], k);
      if r.Success? && k in r.value {
        if exists i :: BuiltAt(o, obsLabel, jetR, cs[1..], outs[1..], i, k) && r.value[k] == RatioOf(k.kind, outs[1..][i].value.d) {
          var i :| BuiltAt(o, obsLabel, jetR, cs[1..], outs[1..], i, k) && r.value[k] == RatioOf(k.kind, outs[1..][i].value.d);
          assert BuiltAt(o, obsLabel, jetR, cs, outs, i + 1, k);
        } else if k == KeyOf(o, k.kind, obsLabel, cs[0], jetR) && outs[0].value.Built? {
          assert BuiltAt(o, obsLabel, jetR, cs, outs, 0, k);
        }
      }
    }
  }

  // ---------------------------------------------------------------------------
  // plot_money_plot and the slice plots of every configuration

  /** The zmin set for a configuration before its slice plots; only zg reads it. */
  function ZminFor(o: Observable, g: GroomingSetting): (r: Result<real>)
    ensures r.Failure? ==> o == Zg && r.error == IndexError
  {
    if o == Zg then ZminFromSd(Lookup(g, "sd")) else Success(0.0)
  }

  /** The calls of a configuration's money plot. */
  function PlotCalls(ptBins: seq<real>, thetas: seq<real>): seq<Call>
  {
    Calls(PtSlices(ptBins), thetas)
  }

  /** What a configuration's slice plots produce: the outcome of every call, or
      the error set_zmin raised before them. */
  type PlotResult = Result<seq<Result<SliceOutcome>>>

  /** The slice plots of one configuration. */
  function PlotOutcomes(o: Observable, x: Inputs, ptBins: seq<real>, thetas: seq<real>): (r: PlotResult)
    requires ValidInputs(o, x)
    ensures r.Failure? <==> ZminFor(o, x.grooming).Failure?
    ensures r.Success? ==> |r.value| == |PlotCalls(ptBins, thetas)|
    ensures RaisesOnly(r)
  {
    var zmin :- ZminFor(o, x.grooming);
    Success(Outcomes(o, x, zmin, PlotCalls(ptBins, thetas)))
  }

  /** set_zmin raises only IndexError and a slice only ZeroDivision. */
  predicate RaisesOnly(p: PlotResult)
  {
    && (p.Failure? ==> p.error == IndexError)
    && (p.Success? ==> forall i :: 0 <= i < |p.value| && p.value[i].Failure? ==> p.value[i].error == ZeroDivision)
  }

  predicate Fits(p: PlotResult, cs: seq<Call>)
  {
    p.Success? ==> |p.value| == |cs|
  }

  /** plot_money_plot for one configuration: its outcomes stored in order. */
  function MoneyPlot(attrs: Attrs, o: Observable, obsLabel: string, jetR: real, cs: seq<Call>, p: PlotResult): (r: Result<Attrs>)
    requires Fits(p, cs)
    ensures r.Failure? <==> p.Failure? || exists i :: 0 <= i < |p.value| && p.value[i].Failure?
    ensures r.Failure? && RaisesOnly(p) ==> r.error == ZeroDivision || r.error == IndexError
    ensures r.Success? ==> forall k :: k in attrs ==> k in r.value
  {
    var outs :- p;
    StoreAll(attrs, o, obsLabel, jetR, cs, outs)
  }

  /** The plot writes v under k from one of its built slices. */
  ghost predicate Writes(o: Observable, obsLabel: string, jetR: real, cs: seq<Call>, p: PlotResult, k: RatioKey, v: H1)
    requires Fits(p, cs)
  {
    && p.Success?
    && exists i :: BuiltAt(o, obsLabel, jetR, cs, p.value, i, k) && RatioOf(k.kind, p.value[i].value.d) == v
  }

  /** The plot writes something under k. */
  ghost predicate WritesKey(o: Observable, obsLabel: string, jetR: real, cs: seq<Call>, p: PlotResult, k: RatioKey)
    requires Fits(p, cs)
  {
    p.Success? && exists i :: BuiltAt(o, obsLabel, jetR, cs, p.value, i, k)
  }

  predicate AllFit(ps: seq<PlotResult>, cs: seq<Call>)
  {
    forall j :: 0 <= j < |ps| ==> Fits(ps[j], cs)
  }

  /** The money plots of every configuration in configuration order; the first
      error ends the run. */
  function StorePlots(attrs: Attrs, o: Observable, xs: seq<Inputs>, jetR: real, cs: seq<Call>, ps: seq<PlotResult>): (r: Result<Attrs>)
    requires |ps| == |xs| && AllFit(ps, cs)
    ensures r.Failure? && (forall j :: 0 <= j < |ps| ==> RaisesOnly(ps[j])) ==> r.error == ZeroDivision || r.error == IndexError
    decreases |xs|
  {
    if |xs| == 0 then Success(attrs)
    else
      var next :- MoneyPlot(attrs, o, xs[0].obsLabel, jetR, cs, ps[0]);
      StorePlots(next, o, xs[1..], jetR, cs, ps[1..])
  }

  predicate AllValid(o: Observable, xs: seq<Inputs>)
  {
    forall j :: 0 <= j < |xs| ==> ValidInputs(o, xs[j])
  }

  /** The slice plots of every configuration. */
  function AllOutcomes(o: Observable, xs: seq<Inputs>, ptBins: seq<real>, thetas: seq<real>): (ps: seq<PlotResult>)
    requires AllValid(o, xs)
    ensures |ps| == |xs| && AllFit(ps, PlotCalls(ptBins, thetas))
    ensures forall j :: 0 <= j < |xs| ==> RaisesOnly(ps[j])
  {
    seq(|xs|, j requires 0 <= j < |xs| => PlotOutcomes(o, xs[j], ptBins, thetas))
  }

  /** A name no configuration writes keeps what it held, or stays absent. */
  lemma {:induction false} StorePlotsKeepUnwritten(attrs: Attrs, o: Observable, xs: seq<Inputs>, jetR: real, cs: seq<Call>, ps: seq<PlotResult>, k: RatioKey)
    requires |ps| == |xs| && AllFit(ps, cs)
    requires forall j :: 0 <= j < |xs| ==> !WritesKey(o, xs[j].obsLabel, jetR, cs, ps[j], k)
    ensures var r := StorePlots(attrs, o, xs, jetR, cs, ps);
            r.Success? ==> (k in r.value <==> k in attrs) && (k in attrs ==> r.value[k] == attrs[k])
    decreases |xs|
  {
    if |xs| > 0 && ps[0].Success? {
      assert Fits(ps[0], cs) && !WritesKey(o, xs[0].obsLabel, jetR, cs, ps[0], k);
      StoreAllKeepsUnbuilt(attrs, o, xs[0].obsLabel, jetR, cs, ps[0].value, k);
      var next := MoneyPlot(attrs, o, xs[0].obsLabel, jetR, cs, ps[0]);
      if next.Success? {
        assert forall j :: 0 <= j < |xs| - 1 ==> !WritesKey(o, xs[1..][j].obsLabel, jetR, cs, ps[1..][j], k) by {
          forall j | 0 <= j < |xs| - 1
            ensures !WritesKey(o, xs[1..][j].obsLabel, jetR, cs, ps[1..][j], k)
          {
            assert xs[1..][j] == xs[j + 1] && ps[1..][j] == ps[j + 1];
          }
        }
        StorePlotsKeepUnwritten(next.value, o, xs[1..], jetR, cs, ps[1..], k);
      }
    }
  }

  /** Every name the money plots leave holds either what it held before or a
      ratio that some configuration's built slice wrote under it. */
  lemma {:induction false} StorePlotsProvenance(attrs: Attrs, o: Observable, xs: seq<Inputs>, jetR: real, cs: seq<Call>, ps: seq<PlotResult>, k: RatioKey)
    requires |ps| == |xs| && AllFit(ps, cs)
    ensures var r := StorePlots(attrs, o, xs, jetR, cs, ps);
            r.Success? && k in r.value ==>
              (k in attrs && r.value[k] == attrs[k])
              || exists j :: 0 <= j < |xs| && Writes(o, xs[j].obsLabel, jetR, cs, ps[j], k, r.value[k])
    decreases |xs|
  {
    if |xs| > 0 && ps[0].Success? {
      assert Fits(ps[0], cs);
      var next := MoneyPlot(attrs, o, xs[0].obsLabel, jetR, cs, ps[0]);
      var r := StorePlots(attrs, o, xs, jetR, cs, ps);
      if next.Success? && r.Success? && k in r.value {
        var v := r.value[k];
        assert r == StorePlots(next.value, o, xs[1..], jetR, cs, ps[1..]);
        StorePlotsProvenance(next.value, o, xs[1..], jetR, cs, ps[1..], k);
        if k in next.value && v == next.value[k] {
          StoreAllProvenance(attrs, o, xs[0].obsLabel, jetR, cs, ps[0].value, k);
          if !(k in attrs && v == attrs[k]) {
            assert Writes(o, xs[0].obsLabel, jetR, cs, ps[0], k, v);
          }
        } else {
          var j :| 0 <= j < |xs| - 1 && Writes(o, xs[1..][j].obsLabel, jetR, cs, ps[1..][j], k, v);
          assert xs[1..][j] == xs[j + 1] && ps[1..][j] == ps[j + 1];
        }
      }
    }
  }

  // ---------------------------------------------------------------------------
  // plot_money_ratios and plot_money_ratio

  /** Configuration j is overlaid and its ratio under the slice's name is stored. */
  predicate Stored(attrs: Attrs, o: Observable, kind: RatioKind, xs: seq<Inputs>, overlay: seq<string>, c: Call, jetR: real, j: int)
  {
    0 <= j < |xs| && xs[j].name in overlay && KeyOf(o, kind, xs[j].obsLabel, c, jetR) in attrs
  }

  /** Configuration j is overlaid but nothing is stored under its slice's name. */
  predicate Missing(attrs: Attrs, o: Observable, kind: RatioKind, xs: seq<Inputs>, overlay: seq<string>, c: Call, jetR: real, j: int)
  {
    0 <= j < |xs| && xs[j].name in overlay && KeyOf(o, kind, xs[j].obsLabel, c, jetR) !in attrs
  }

  /** h is the stored ratio of some overlaid configuration. */
  ghost predicate ShownFrom(attrs: Attrs, o: Observable, kind: RatioKind, xs: seq<Inputs>, overlay: seq<string>, c: Call, jetR: real, h: H1)
  {
    exists j :: Stored(attrs, o, kind, xs, overlay, c, jetR, j) && attrs[KeyOf(o, kind, xs[j].obsLabel, c, jetR)] == h
  }

  /** The number of fill colours plot_money_ratio can hand out: ColorArray has
      nine entries and is indexed by the number of ratios drawn so far. */
  const ColorCount: nat := 9

  /** How many configurations the overlay list names. */
  function OverlaidCount(xs: seq<Inputs>, overlay: seq<string>): nat
  {
    if |xs| == 0 then 0 else (if xs[0].name in overlay then 1 else 0) + OverlaidCount(xs[1..], overlay)
  }

  /** How many overlaid configurations have their ratio stored. */
  function StoredCount(attrs: Attrs, o: Observable, kind: RatioKind, xs: seq<Inputs>, overlay: seq<string>, c: Call, jetR: real): nat
  {
    if |xs| == 0 then 0
    else (if xs[0].name in overlay && KeyOf(o, kind, xs[0].obsLabel, c, jetR) in attrs then 1 else 0)
         + StoredCount(attrs, o, kind, xs[1..], overlay, c, jetR)
  }

  /** plot_money_ratio: the stored ratio of every configuration in the overlay
      list, in configuration order, after `drawn` ratios already took a colour.
      A name never stored raises AttributeError; a ratio found once all nine
      colours are taken raises IndexError. i_reset starts at 0 and only grows
      while a colour is left, so drawn never exceeds the colours. */
  function MoneyRatio(attrs: Attrs, o: Observable, kind: RatioKind, xs: seq<Inputs>, overlay: seq<string>, c: Call, jetR: real, drawn: nat)
    : (r: Result<seq<H1>>)
    requires drawn <= ColorCount
    ensures r.Failure? <==> (exists j :: Missing(attrs, o, kind, xs, overlay, c, jetR, j)) || drawn + OverlaidCount(xs, overlay) > ColorCount
    ensures r.Failure? ==> r.error == MissingAttribute || r.error == IndexError
    ensures r.Failure? && r.error == MissingAttribute ==> exists j :: Missing(attrs, o, kind, xs, overlay, c, jetR, j)
    ensures r.Failure? && r.error == IndexError ==> drawn + OverlaidCount(xs, overlay) > ColorCount
    ensures r.Success? ==> |r.value| == OverlaidCount(xs, overlay)
    ensures r.Success? ==> forall h :: h in r.value <==> ShownFrom(attrs, o, kind, xs, overlay, c, jetR, h)
    decreases |xs|
  {
    if |xs| == 0 then Success([])
    else
      var k := KeyOf(o, kind, xs[0].obsLabel, c, jetR);
      var here := xs[0].name in overlay;
      if here && k !in attrs then
        assert Missing(attrs, o, kind, xs, overlay, c, jetR, 0);
        Failure(MissingAttribute)
      else if here && drawn >= ColorCount then
        Failure(IndexError)
      else
        var rest := MoneyRatio(attrs, o, kind, xs[1..], overlay, c, jetR, if here then drawn + 1 else drawn);
        ShiftMissing(attrs, o, kind, xs, overlay, c, jetR);
        if rest.Failure? then Failure(rest.error)
        else
          ShiftStored(attrs, o, kind, xs, overlay, c, jetR);
          Success((if here then [attrs[k]] else []) + rest.value)
  }

  /** The overlay with every never-stored name left out; only the ratios drawn
      take a colour. */
  function PresentRatios(attrs: Attrs, o: Observable, kind: RatioKind, xs: seq<Inputs>, overlay: seq<string>, c: Call, jetR: real, drawn: nat)
    : (r: Result<seq<H1>>)
    requires drawn <= ColorCount
    ensures r.Failure? <==> drawn + StoredCount(attrs, o, kind, xs, overlay, c, jetR) > ColorCount
    ensures r.Failure? ==> r.error == IndexError
    ensures r.Success? ==> |r.value| == StoredCount(attrs, o, kind, xs, overlay, c, jetR)
    ensures r.Success? ==> forall h :: h in r.value <==> ShownFrom(attrs, o, kind, xs, overlay, c, jetR, h)
    decreases |xs|
  {
    if |xs| == 0 then Success([])
    else
      var k := KeyOf(o, kind, xs[0].obsLabel, c, jetR);
      var here := xs[0].name in overlay && k in attrs;
      if here && drawn >= ColorCount then Failure(IndexError)
      else
        var rest := PresentRatios(attrs, o, kind, xs[1..], overlay, c, jetR, if here then drawn + 1 else drawn);
        if rest.Failure? then rest
        else
          ShiftStored(attrs, o, kind, xs, overlay, c, jetR);
          Success((if here then [attrs[k]] else []) + rest.value)
  }

  lemma ShiftMissing(attrs: Attrs, o: Observable, kind: RatioKind, xs: seq<Inputs>, overlay: seq<string>, c: Call, jetR: real)
    requires |xs| > 0
    ensures (exists j :: Missing(attrs, o, kind, xs, overlay, c, jetR, j)) <==>
            Missing(attrs, o, kind, xs, overlay, c, jetR, 0) || exists j :: Missing(attrs, o, kind, xs[1..], overlay, c, jetR, j)
  {
    if j :| Missing(attrs, o, kind, xs, overlay, c, jetR, j) && j > 0 {
      assert Missing(attrs, o, kind, xs[1..], overlay, c, jetR, j - 1);
    }
    if j :| Missing(attrs, o, kind, xs[1..], overlay, c, jetR, j) {
      assert Missing(attrs, o, kind, xs, overlay, c, jetR, j + 1);
    }
  }

  lemma ShiftStored(attrs: Attrs, o: Observable, kind: RatioKind, xs: seq<Inputs>, overlay: seq<string>, c: Call, jetR: real)
    requires |xs| > 0
    ensures forall h :: ShownFrom(attrs, o, kind, xs, overlay, c, jetR, h) <==>
              (Stored(attrs, o, kind, xs, overlay, c, jetR, 0) && attrs[KeyOf(o, kind, xs[0].obsLabel, c, jetR)] == h)
              || ShownFrom(attrs, o, kind, xs[1..], overlay, c, jetR, h)
  {
    forall h
      ensures ShownFrom(attrs, o, kind, xs, overlay, c, jetR, h) <==>
              (Stored(attrs, o, kind, xs, overlay, c, jetR, 0) && attrs[KeyOf(o, kind, xs[0].obsLabel, c, jetR)] == h)
              || ShownFrom(attrs, o, kind, xs[1..], overlay, c, jetR, h)
    {
      if j :| Stored(attrs, o, kind, xs, overlay, c, jetR, j) && attrs[KeyOf(o, kind, xs[j].obsLabel, c, jetR)] == h && j > 0 {
        assert Stored(attrs, o, kind, xs[1..], overlay, c, jetR, j - 1);
      }
      if j :| Stored(attrs, o, kind, xs[1..], overlay, c, jetR, j) && attrs[KeyOf(o, kind, xs[1..][j].obsLabel, c, jetR)] == h {
        assert Stored(attrs, o, kind, xs, overlay, c, jetR, j + 1);
      }
    }
  }

  /** When the overlay as written succeeds, the overlay without missing names
      gives the same histograms in the same order. */
  lemma {:induction false} MoneyRatioIsPresent(attrs: Attrs, o: Observable, kind: RatioKind, xs: seq<Inputs>, overlay: seq<string>, c: Call, jetR: real, drawn: nat)
    requires drawn <= ColorCount
    ensures var r := MoneyRatio(attrs, o, kind, xs, overlay, c, jetR, drawn);
            r.Success? ==> PresentRatios(attrs, o, kind, xs, overlay, c, jetR, drawn) == r
    decreases |xs|
  {
    if |xs| > 0 {
      var here := xs[0].name in overlay;
      if !here || drawn < ColorCount {
        MoneyRatioIsPresent(attrs, o, kind, xs[1..], overlay, c, jetR, if here then drawn + 1 else drawn);
      }
    }
  }

  /** One ratio plot: a pt slice, a minimum theta and an overlay list. */
  datatype Request = Request(c: Call, overlay: seq<string>)

  /** The minimum thetas plot_money_ratios uses: all of them for zg and theta_g,
      only the first for kappa and tf. */
  function RatioThetas(o: Observable, thetas: seq<real>): (ths: seq<real>)
    ensures o == Zg || o == ThetaG ==> ths == thetas
    ensures o == Kappa || o == Tf ==> |ths| == (if |thetas| == 0 then 0 else 1)
    ensures forall t :: t in ths ==> t in thetas
  {
    if o == Zg || o == ThetaG || |thetas| == 0 then thetas else thetas[..1]
  }

  /** The requests for one minimum theta: overlays outside, pt slices inside. */
  function ThetaRequests(theta: real, overlays: seq<seq<string>>, slices: seq<(real, real)>): (rs: seq<Request>)
    ensures |rs| == |overlays| * |slices|
    ensures forall r :: r in rs ==> r.c.minTheta == theta && r.overlay in overlays && (r.c.minPt, r.c.maxPt) in slices
  {
    if |overlays| == 0 then []
    else
      var head := seq(|slices|, i requires 0 <= i < |slices| => Request(Call(slices[i].0, slices[i].1, theta), overlays[0]));
      var rest := ThetaRequests(theta, overlays[1..], slices);
      assert |overlays| * |slices| == |slices| + (|overlays| - 1) * |slices|;
      assert forall r :: r in head ==> (r.c.minPt, r.c.maxPt) in slices by {
        forall r | r in head
          ensures (r.c.minPt, r.c.maxPt) in slices
        {
          var i :| 0 <= i < |slices| && head[i] == r;
          assert (r.c.minPt, r.c.maxPt) == slices[i];
        }
      }
      head + rest
  }

  /** The ratio plots of plot_money_ratios in order: minimum thetas, then
      overlays, then pt slices. */
  function Requests(ths: seq<real>, overlays: seq<seq<string>>, slices: seq<(real, real)>): (rs: seq<Request>)
    ensures |rs| == |ths| * (|overlays| * |slices|)
    ensures forall r :: r in rs ==> r.c.minTheta in ths && r.overlay in overlays && (r.c.minPt, r.c.maxPt) in slices
  {
    if |ths| == 0 then []
    else
      assert |ths| * (|overlays| * |slices|) == |overlays| * |slices| + (|ths| - 1) * (|overlays| * |slices|);
      ThetaRequests(ths[0], overlays, slices) + Requests(ths[1..], overlays, slices)
  }

  /** The requests for one minimum theta in order: the request at position
      v * |slices| + i is overlay v over pt slice i. */
  lemma {:induction false} ThetaRequestsInOrder(theta: real, overlays: seq<seq<string>>, slices: seq<(real, real)>, v: int, i: int, k: int)
    requires 0 <= v < |overlays| && 0 <= i < |slices| && k == v * |slices| + i
    ensures k < |ThetaRequests(theta, overlays, slices)|
    ensures ThetaRequests(theta, overlays, slices)[k] == Request(Call(slices[i].0, slices[i].1, theta), overlays[v])
    decreases |overlays|
  {
    var n := |slices|;
    var rest := ThetaRequests(theta, overlays[1..], slices);
    assert |ThetaRequests(theta, overlays, slices)| == n + |rest| && ThetaRequests(theta, overlays, slices)[n..] == rest;
    if v > 0 {
      MulStep(v, n);
      MulStep(v - 1, n);
      ThetaRequestsInOrder(theta, overlays[1..], slices, v - 1, i, k - n);
      assert overlays[1..][v - 1] == overlays[v];
      assert ThetaRequests(theta, overlays, slices)[n..][k - n] == rest[k - n];
    }
  }

  /** Past the first minimum theta's requests come those of the remaining thetas. */
  lemma RequestsShift(ths: seq<real>, overlays: seq<seq<string>>, slices: seq<(real, real)>, k: int)
    requires |ths| > 0 && 0 <= k < |Requests(ths[1..], overlays, slices)|
    ensures |ThetaRequests(ths[0], overlays, slices)| + k < |Requests(ths, overlays, slices)|
    ensures Requests(ths, overlays, slices)[|ThetaRequests(ths[0], overlays, slices)| + k] == Requests(ths[1..], overlays, slices)[k]
  {
    assert Requests(ths, overlays, slices) == ThetaRequests(ths[0], overlays, slices) + Requests(ths[1..], overlays, slices);
  }

  /** One more row of n entries; rows of non-negative length start at
      non-negative positions. */
  lemma MulStep(t: int, n: int)
    ensures t * n == n + (t - 1) * n
    ensures t >= 0 && n >= 0 ==> t * n >= 0
  {
  }

  /** The ratio plots in order: the request at position
      t * (|overlays| * |slices|) + (v * |slices| + i) is overlay v over pt
      slice i at minimum theta t. */
  lemma {:induction false} RequestsInOrder(ths: seq<real>, overlays: seq<seq<string>>, slices: seq<(real, real)>, t: int, v: int, i: int, k: int)
    requires 0 <= t < |ths| && 0 <= v < |overlays| && 0 <= i < |slices|
    requires k == t * (|overlays| * |slices|) + (v * |slices| + i)
    ensures k < |Requests(ths, overlays, slices)|
    ensures Requests(ths, overlays, slices)[k] == Request(Call(slices[i].0, slices[i].1, ths[t]), overlays[v])
    decreases |ths|
  {
    var p := v * |slices| + i;
    var head := ThetaRequests(ths[0], overlays, slices);
    var n := |head|;
    ThetaRequestsInOrder(ths[0], overlays, slices, v, i, p);
    if t == 0 {
      assert k == p;
      assert Requests(ths, overlays, slices) == head + Requests(ths[1..], overlays, slices);
    } else {
      MulStep(t, n);
      MulStep(t - 1, n);
      MulStep(v, |slices|);
      RequestsInOrder(ths[1..], overlays, slices, t - 1, v, i, k - n);
      assert ths[1..][t - 1] == ths[t];
      RequestsShift(ths, overlays, slices, k - n);
    }
  }

  /** The overlay of one request, as written or with missing names skipped. */
  function Overlay(attrs: Attrs, o: Observable, kind: RatioKind, xs: seq<Inputs>, jetR: real, rq: Request, skipMissing: bool)
    : Result<seq<H1>>
  {
    if skipMissing then PresentRatios(attrs, o, kind, xs, rq.overlay, rq.c, jetR, 0)
    else MoneyRatio(attrs, o, kind, xs, rq.overlay, rq.c, jetR, 0)
  }

  /** A request after the first is a request of the tail, one position earlier. */
  lemma OverlayShift(attrs: Attrs, o: Observable, kind: RatioKind, xs: seq<Inputs>, jetR: real, rs: seq<Request>, skipMissing: bool)
    requires |rs| > 0
    ensures (exists m :: 0 <= m < |rs| && Overlay(attrs, o, kind, xs, jetR, rs[m], skipMissing).Failure?) <==>
            Overlay(attrs, o, kind, xs, jetR, rs[0], skipMissing).Failure?
            || exists m :: 0 <= m < |rs| - 1 && Overlay(attrs, o, kind, xs, jetR, rs[1..][m], skipMissing).Failure?
    ensures forall e :: (exists m :: 0 <= m < |rs| - 1 && Overlay(attrs, o, kind, xs, jetR, rs[1..][m], skipMissing) == Failure(e)) ==>
              exists m :: 0 <= m < |rs| && Overlay(attrs, o, kind, xs, jetR, rs[m], skipMissing) == Failure(e)
  {
    if m :| 0 <= m < |rs| && Overlay(attrs, o, kind, xs, jetR, rs[m], skipMissing).Failure? && m > 0 {
      assert rs[1..][m - 1] == rs[m];
    }
    forall e | exists m :: 0 <= m < |rs| - 1 && Overlay(attrs, o, kind, xs, jetR, rs[1..][m], skipMissing) == Failure(e)
      ensures exists m :: 0 <= m < |rs| && Overlay(attrs, o, kind, xs, jetR, rs[m], skipMissing) == Failure(e)
    {
      var m :| 0 <= m < |rs| - 1 && Overlay(attrs, o, kind, xs, jetR, rs[1..][m], skipMissing) == Failure(e);
      assert rs[1..][m] == rs[m + 1];
    }
  }

  /** Every request's overlay, in order; with skipMissing a never-stored name is
      left out of its overlay instead of raising AttributeError. The run stops
      at the first overlay that fails. */
  function ShowRatios(attrs: Attrs, o: Observable, kind: RatioKind, xs: seq<Inputs>, jetR: real, rs: seq<Request>, skipMissing: bool)
    : (r: Result<seq<seq<H1>>>)
    ensures r.Failure? <==> exists m :: 0 <= m < |rs| && Overlay(attrs, o, kind, xs, jetR, rs[m], skipMissing).Failure?
    ensures r.Failure? ==> r.error == MissingAttribute || r.error == IndexError
    ensures skipMissing && r.Failure? ==> r.error == IndexError
    ensures r.Failure? ==> exists m :: 0 <= m < |rs| && Overlay(attrs, o, kind, xs, jetR, rs[m], skipMissing) == Failure(r.error)
    ensures r.Success? ==> |r.value| == |rs|
    ensures r.Success? ==> forall m :: 0 <= m < |rs| ==>
              forall h :: h in r.value[m] <==> ShownFrom(attrs, o, kind, xs, rs[m].overlay, rs[m].c, jetR, h)
    decreases |rs|
  {
    if |rs| == 0 then Success([])
    else
      var shown := Overlay(attrs, o, kind, xs, jetR, rs[0], skipMissing);
      if shown.Failure? then Failure(shown.error)
      else
        var rest := ShowRatios(attrs, o, kind, xs, jetR, rs[1..], skipMissing);
        OverlayShift(attrs, o, kind, xs, jetR, rs, skipMissing);
        if rest.Failure? then Failure(rest.error)
        else Success([shown.value] + rest.value)
  }

  // ---------------------------------------------------------------------------
  // The loop over R_max and jet R

  /** The configurations' inputs for one (R_max, jet R) pair. */
  datatype Iteration = Iteration(rMax: real, jetR: real, xs: seq<Inputs>)

  /** The overlays one iteration shows: Embedded/Truth, then tagging purity. */
  datatype Shown = Shown(ratios: seq<seq<H1>>, purities: seq<seq<H1>>)

  predicate ValidIterations(o: Observable, its: seq<Iteration>)
  {
    forall n :: 0 <= n < |its| ==> AllValid(o, its[n].xs)
  }

  /** One (R_max, jet R) iteration given the slice outcomes ps of its
      configurations: the money plots, then both ratio overlays. As written the
      overlays read the attributes left by earlier iterations too; with reset they
      start from none and skip missing names. */
  function Step(attrs: Attrs, o: Observable, it: Iteration, cs: seq<Call>, ps: seq<PlotResult>, rs: seq<Request>, reset: bool)
    : (r: Result<(Attrs, Shown)>)
    requires |ps| == |it.xs| && AllFit(ps, cs)
    ensures r.Success? ==> |r.value.1.ratios| == |r.value.1.purities| == |rs|
    ensures reset && r.Failure? && (forall j :: 0 <= j < |ps| ==> RaisesOnly(ps[j])) ==> r.error != MissingAttribute
  {
    var a :- StorePlots(if reset then map[] else attrs, o, it.xs, it.jetR, cs, ps);
    var ratios :- ShowRatios(a, o, EmbeddedOverTruth, it.xs, it.jetR, rs, reset);
    var purities :- ShowRatios(a, o, TaggingPurity, it.xs, it.jetR, rs, reset);
    Success((a, Shown(ratios, purities)))
  }

  /** Table n holds the slice outcomes of iteration n's configurations. */
  predicate TablesFit(its: seq<Iteration>, tables: seq<seq<PlotResult>>, cs: seq<Call>)
  {
    && |tables| == |its|
    && forall n :: 0 <= n < |its| ==> |tables[n]| == |its[n].xs| && AllFit(tables[n], cs)
  }

  predicate TablesRaiseOnly(tables: seq<seq<PlotResult>>)
  {
    forall n, j :: 0 <= n < |tables| && 0 <= j < |tables[n]| ==> RaisesOnly(tables[n][j])
  }

  function RunSteps(attrs: Attrs, o: Observable, its: seq<Iteration>, cs: seq<Call>, tables: seq<seq<PlotResult>>, rs: seq<Request>, reset: bool)
    : (r: Result<seq<Shown>>)
    requires TablesFit(its, tables, cs)
    ensures r.Success? ==> |r.value| == |its|
    ensures r.Success? ==> forall n :: 0 <= n < |its| ==> |r.value[n].ratios| == |r.value[n].purities| == |rs|
    ensures reset && r.Failure? && TablesRaiseOnly(tables) ==> r.error != MissingAttribute
    decreases |its|
  {
    if |its| == 0 then Success([])
    else
      assert |tables[0]| == |its[0].xs| && AllFit(tables[0], cs);
      var step :- Step(attrs, o, its[0], cs, tables[0], rs, reset);
      assert TablesFit(its[1..], tables[1..], cs) by {
        forall n | 0 <= n < |its| - 1
          ensures |tables[1..][n]| == |its[1..][n].xs| && AllFit(tables[1..][n], cs)
        {
          assert tables[1..][n] == tables[n + 1] && its[1..][n] == its[n + 1];
        }
      }
      var rest :- RunSteps(step.0, o, its[1..], cs, tables[1..], rs, reset);
      Success([step.1] + rest)
  }

  /** The slice outcomes of every iteration. */
  function Tables(o: Observable, its: seq<Iteration>, ptBins: seq<real>, thetas: seq<real>): (tables: seq<seq<PlotResult>>)
    requires ValidIterations(o, its)
    ensures TablesFit(its, tables, PlotCalls(ptBins, thetas)) && TablesRaiseOnly(tables)
    ensures forall n :: 0 <= n < |its| ==> tables[n] == AllOutcomes(o, its[n].xs, ptBins, thetas)
  {
    seq(|its|, n requires 0 <= n < |its| => AllOutcomes(o, its[n].xs, ptBins, thetas))
  }

  /** The ratio plots every iteration draws. */
  function RatioRequests(o: Observable, ptBins: seq<real>, thetas: seq<real>, overlays: seq<seq<string>>): (rs: seq<Request>)
    ensures |rs| == |RatioThetas(o, thetas)| * (|overlays| * |PtSlices(ptBins)|)
  {
    Requests(RatioThetas(o, thetas), overlays, PtSlices(ptBins))
  }

  /** The body of plot_groomers for one observable as written: the attributes
      persist across every (R_max, jet R) iteration, starting from those earlier
      observables left; the first error ends the run. */
  function PlotGroomers(attrs: Attrs, o: Observable, its: seq<Iteration>, ptBins: seq<real>, thetas: seq<real>, overlays: seq<seq<string>>)
    : (r: Result<seq<Shown>>)
    requires ValidIterations(o, its)
    ensures r.Success? ==> |r.value| == |its|
    ensures r.Success? ==> forall n :: 0 <= n < |its| ==>
              |r.value[n].ratios| == |r.value[n].purities| == |RatioThetas(o, thetas)| * (|overlays| * |PtSlices(ptBins)|)
  {
    RunSteps(attrs, o, its, PlotCalls(ptBins, thetas), Tables(o, its, ptBins, thetas), RatioRequests(o, ptBins, thetas, overlays), false)
  }

  /** The corrected plot_groomers: each iteration shows only ratios it built, so
      a missing name is never raised. */
  function PlotGroomersFresh(o: Observable, its: seq<Iteration>, ptBins: seq<real>, thetas: seq<real>, overlays: seq<seq<string>>)
    : (r: Result<seq<Shown>>)
    requires ValidIterations(o, its)
    ensures r.Failure? ==> r.error == ZeroDivision || r.error == IndexError
    ensures r.Success? ==> |r.value| == |its|
    ensures r.Success? ==> forall n :: 0 <= n < |its| ==>
              |r.value[n].ratios| == |r.value[n].purities| == |RatioThetas(o, thetas)| * (|overlays| * |PtSlices(ptBins)|)
  {
    RunSteps(map[], o, its, PlotCalls(ptBins, thetas), Tables(o, its, ptBins, thetas), RatioRequests(o, ptBins, thetas, overlays), true)
  }

  // ---------------------------------------------------------------------------
  // Where a shown ratio comes from

  /** The overlay of one kind for request m. */
  function ShownAt(s: Shown, kind: RatioKind, m: nat): seq<H1>
    requires m < |s.ratios| && m < |s.purities|
  {
    if kind == EmbeddedOverTruth then s.ratios[m] else s.purities[m]
  }

  /** h was computed under k by a built slice of iteration it, whose slice
      outcomes are ps. */
  ghost predicate ComputedIn(o: Observable, it: Iteration, cs: seq<Call>, ps: seq<PlotResult>, k: RatioKey, h: H1)
    requires |ps| == |it.xs| && AllFit(ps, cs)
  {
    exists i :: 0 <= i < |it.xs| && Writes(o, it.xs[i].obsLabel, it.jetR, cs, ps[i], k, h)
  }

  /** No slice of iteration it writes anything under k. */
  ghost predicate NeverWritten(o: Observable, it: Iteration, cs: seq<Call>, ps: seq<PlotResult>, k: RatioKey)
    requires |ps| == |it.xs| && AllFit(ps, cs)
  {
    forall i :: 0 <= i < |it.xs| ==> !WritesKey(o, it.xs[i].obsLabel, it.jetR, cs, ps[i], k)
  }

  /** The premise of the stale read: the first iteration's money plots leave v
      under the name configuration j of the second iteration looks up for
      request m, and no slice of the second iteration writes that name. */
  ghost predicate StaleSetup(o: Observable, it1: Iteration, it2: Iteration, cs: seq<Call>, ps1: seq<PlotResult>, ps2: seq<PlotResult>,
                             rs: seq<Request>, kind: RatioKind, j: nat, m: nat, v: H1)
  {
    && |ps1| == |it1.xs| && AllFit(ps1, cs) && |ps2| == |it2.xs| && AllFit(ps2, cs)
    && j < |it2.xs| && m < |rs| && it2.xs[j].name in rs[m].overlay
    && var k := KeyOf(o, kind, it2.xs[j].obsLabel, rs[m].c, it2.jetR);
       var a1 := StorePlots(map[], o, it1.xs, it1.jetR, cs, ps1);
       a1.Success? && k in a1.value && a1.value[k] == v && NeverWritten(o, it2, cs, ps2, k)
  }

  /** As written, a ratio the first (R_max, jet R) iteration built is shown again
      by the second when none of the second's slices rebuilds it: the names carry
      neither R_max nor, for kappa and tf (or min_theta = 0), the jet radius. */
  lemma StaleRatioShown(o: Observable, it1: Iteration, it2: Iteration, ptBins: seq<real>, thetas: seq<real>,
                        overlays: seq<seq<string>>, kind: RatioKind, j: nat, m: nat, v: H1)
    requires AllValid(o, it1.xs) && AllValid(o, it2.xs)
    requires StaleSetup(o, it1, it2, PlotCalls(ptBins, thetas), AllOutcomes(o, it1.xs, ptBins, thetas),
                        AllOutcomes(o, it2.xs, ptBins, thetas), RatioRequests(o, ptBins, thetas, overlays), kind, j, m, v)
    ensures ValidIterations(o, [it1, it2])
    ensures var r := PlotGroomers(map[], o, [it1, it2], ptBins, thetas, overlays);
            r.Success? ==> m < |r.value[1].ratios| && v in ShownAt(r.value[1], kind, m)
  {
    TablesOfTwo(o, it1, it2, ptBins, thetas);
    StaleAcrossSteps(o, it1, it2, PlotCalls(ptBins, thetas), AllOutcomes(o, it1.xs, ptBins, thetas),
                     AllOutcomes(o, it2.xs, ptBins, thetas), RatioRequests(o, ptBins, thetas, overlays), kind, j, m, v);
  }

  lemma TablesOfTwo(o: Observable, it1: Iteration, it2: Iteration, ptBins: seq<real>, thetas: seq<real>)
    requires AllValid(o, it1.xs) && AllValid(o, it2.xs)
    ensures ValidIterations(o, [it1, it2])
    ensures Tables(o, [it1, it2], ptBins, thetas) == [AllOutcomes(o, it1.xs, ptBins, thetas), AllOutcomes(o, it2.xs, ptBins, thetas)]
  {
    assert ValidIterations(o, [it1, it2]);
  }

  /** StaleRatioShown for any slice outcomes. */
  lemma StaleAcrossSteps(o: Observable, it1: Iteration, it2: Iteration, cs: seq<Call>, ps1: seq<PlotResult>, ps2: seq<PlotResult>,
                         rs: seq<Request>, kind: RatioKind, j: nat, m: nat, v: H1)
    requires StaleSetup(o, it1, it2, cs, ps1, ps2, rs, kind, j, m, v)
    ensures ComputedIn(o, it1, cs, ps1, KeyOf(o, kind, it2.xs[j].obsLabel, rs[m].c, it2.jetR), v)
    ensures TablesFit([it1, it2], [ps1, ps2], cs)
    ensures var r := RunSteps(map[], o, [it1, it2], cs, [ps1, ps2], rs, false);
            r.Success? ==> m < |r.value[1].ratios| && v in ShownAt(r.value[1], kind, m)
  {
    var k := KeyOf(o, kind, it2.xs[j].obsLabel, rs[m].c, it2.jetR);
    var a1 := StorePlots(map[], o, it1.xs, it1.jetR, cs, ps1).value;
    StorePlotsProvenance(map[], o, it1.xs, it1.jetR, cs, ps1, k);
    TwoSteps(o, it1, it2, cs, ps1, ps2, rs);
    var r := RunSteps(map[], o, [it1, it2], cs, [ps1, ps2], rs, false);
    if r.Success? {
      StaleInStep(a1, o, it2, cs, ps2, rs, kind, j, m, v);
    }
  }

  /** The second of two iterations as written continues from the attributes
      the first left. */
  lemma TwoSteps(o: Observable, it1: Iteration, it2: Iteration, cs: seq<Call>, ps1: seq<PlotResult>, ps2: seq<PlotResult>, rs: seq<Request>)
    requires |ps1| == |it1.xs| && AllFit(ps1, cs) && |ps2| == |it2.xs| && AllFit(ps2, cs)
    ensures TablesFit([it1, it2], [ps1, ps2], cs)
    ensures var r := RunSteps(map[], o, [it1, it2], cs, [ps1, ps2], rs, false);
            var first := Step(map[], o, it1, cs, ps1, rs, false);
            r.Success? ==> && first.Success?
                           && Step(first.value.0, o, it2, cs, ps2, rs, false).Success?
                           && r.value[1] == Step(first.value.0, o, it2, cs, ps2, rs, false).value.1
  {
    assert TablesFit([it1, it2], [ps1, ps2], cs);
    assert [it1, it2][1..] == [it2] && [ps1, ps2][1..] == [ps2];
  }

  /** An iteration as written shows a stored ratio no slice of its own rewrites. */
  lemma StaleInStep(attrs: Attrs, o: Observable, it: Iteration, cs: seq<Call>, ps: seq<PlotResult>, rs: seq<Request>,
                    kind: RatioKind, j: nat, m: nat, v: H1)
    requires |ps| == |it.xs| && AllFit(ps, cs)
    requires j < |it.xs| && m < |rs| && it.xs[j].name in rs[m].overlay
    requires var k := KeyOf(o, kind, it.xs[j].obsLabel, rs[m].c, it.jetR);
             k in attrs && attrs[k] == v && NeverWritten(o, it, cs, ps, k)
    ensures var r := Step(attrs, o, it, cs, ps, rs, false);
            r.Success? ==> v in ShownAt(r.value.1, kind, m)
  {
    var k := KeyOf(o, kind, it.xs[j].obsLabel, rs[m].c, it.jetR);
    StorePlotsKeepUnwritten(attrs, o, it.xs, it.jetR, cs, ps, k);
    var a := StorePlots(attrs, o, it.xs, it.jetR, cs, ps);
    if a.Success? {
      assert Stored(a.value, o, kind, it.xs, rs[m].overlay, rs[m].c, it.jetR, j) && a.value[k] == v;
      assert ShownFrom(a.value, o, kind, it.xs, rs[m].overlay, rs[m].c, it.jetR, v);
    }
  }

  /** Dropping the first iteration keeps the tables fitting. */
  lemma TablesFitTail(its: seq<Iteration>, tables: seq<seq<PlotResult>>, cs: seq<Call>)
    requires TablesFit(its, tables, cs) && |its| > 0
    ensures |tables[0]| == |its[0].xs| && AllFit(tables[0], cs)
    ensures TablesFit(its[1..], tables[1..], cs)
  {
    forall i | 0 <= i < |its| - 1
      ensures |tables[1..][i]| == |its[1..][i].xs| && AllFit(tables[1..][i], cs)
    {
      assert tables[1..][i] == tables[i + 1] && its[1..][i] == its[i + 1];
    }
  }

  /** With reset, an iteration does not read the attributes it is handed. */
  lemma ResetIgnoresAttrs(attrs: Attrs, o: Observable, it: Iteration, cs: seq<Call>, ps: seq<PlotResult>, rs: seq<Request>)
    requires |ps| == |it.xs| && AllFit(ps, cs)
    ensures Step(attrs, o, it, cs, ps, rs, true) == Step(map[], o, it, cs, ps, rs, true)
  {
  }

  /** A successful run is its first iteration followed by the run of the rest
      from the attributes that iteration left. */
  lemma RunStepsHead(attrs: Attrs, o: Observable, its: seq<Iteration>, cs: seq<Call>,
                     tables: seq<seq<PlotResult>>, rs: seq<Request>, reset: bool)
    requires TablesFit(its, tables, cs) && |its| > 0
    requires |tables[0]| == |its[0].xs| && AllFit(tables[0], cs)
    requires TablesFit(its[1..], tables[1..], cs)
    ensures var r := RunSteps(attrs, o, its, cs, tables, rs, reset);
            var step := Step(attrs, o, its[0], cs, tables[0], rs, reset);
            r.Success? ==> step.Success? && r.value[0] == step.value.1
                           && RunSteps(step.value.0, o, its[1..], cs, tables[1..], rs, reset).Success?
                           && r.value[1..] == RunSteps(step.value.0, o, its[1..], cs, tables[1..], rs, reset).value
  {
  }

  /** With reset, iteration n shows what it would show on its own. */
  lemma {:induction false} ResetStepsArePerIteration(attrs: Attrs, o: Observable, its: seq<Iteration>, cs: seq<Call>,
                                                     tables: seq<seq<PlotResult>>, rs: seq<Request>, n: nat)
    requires TablesFit(its, tables, cs) && n < |its|
    ensures |tables[n]| == |its[n].xs| && AllFit(tables[n], cs)
    ensures var r := RunSteps(attrs, o, its, cs, tables, rs, true);
            r.Success? ==> Step(map[], o, its[n], cs, tables[n], rs, true).Success?
                           && r.value[n] == Step(map[], o, its[n], cs, tables[n], rs, true).value.1
    decreases n
  {
    TablesFitTail(its, tables, cs);
    RunStepsHead(attrs, o, its, cs, tables, rs, true);
    ResetIgnoresAttrs(attrs, o, its[0], cs, tables[0], rs);
    var step := Step(attrs, o, its[0], cs, tables[0], rs, true);
    if n > 0 && step.Success? {
      ResetStepsArePerIteration(step.value.0, o, its[1..], cs, tables[1..], rs, n - 1);
      assert its[1..][n - 1] == its[n] && tables[1..][n - 1] == tables[n];
    }
  }

  /** Corrected: every ratio an iteration shows was computed from that
      iteration's own histograms, under an overlaid configuration's name. */
  lemma FreshRatiosOnly(o: Observable, its: seq<Iteration>, ptBins: seq<real>, thetas: seq<real>,
                        overlays: seq<seq<string>>, kind: RatioKind, n: nat, m: nat, h: H1)
    requires ValidIterations(o, its) && n < |its|
    requires m < |RatioRequests(o, ptBins, thetas, overlays)|
    ensures var r := PlotGroomersFresh(o, its, ptBins, thetas, overlays);
            var rq := RatioRequests(o, ptBins, thetas, overlays)[m];
            r.Success? && h in ShownAt(r.value[n], kind, m) ==>
              exists j :: 0 <= j < |its[n].xs| && its[n].xs[j].name in rq.overlay
                          && ComputedIn(o, its[n], PlotCalls(ptBins, thetas), AllOutcomes(o, its[n].xs, ptBins, thetas),
                                        KeyOf(o, kind, its[n].xs[j].obsLabel, rq.c, its[n].jetR), h)
  {
    var cs := PlotCalls(ptBins, thetas);
    var rs := RatioRequests(o, ptBins, thetas, overlays);
    var tables := Tables(o, its, ptBins, thetas);
    assert tables[n] == AllOutcomes(o, its[n].xs, ptBins, thetas);
    FreshInStep(o, its, cs, tables, rs, kind, n, m, h);
  }

  /** FreshRatiosOnly for any slice outcomes. */
  lemma FreshInStep(o: Observable, its: seq<Iteration>, cs: seq<Call>, tables: seq<seq<PlotResult>>, rs: seq<Request>,
                    kind: RatioKind, n: nat, m: nat, h: H1)
    requires TablesFit(its, tables, cs) && n < |its| && m < |rs|
    ensures |tables[n]| == |its[n].xs| && AllFit(tables[n], cs)
    ensures var r := RunSteps(map[], o, its, cs, tables, rs, true);
            r.Success? && h in ShownAt(r.value[n], kind, m) ==>
              exists j :: 0 <= j < |its[n].xs| && its[n].xs[j].name in rs[m].overlay
                          && ComputedIn(o, its[n], cs, tables[n], KeyOf(o, kind, its[n].xs[j].obsLabel, rs[m].c, its[n].jetR), h)
  {
    var it, ps := its[n], tables[n];
    assert |ps| == |it.xs| && AllFit(ps, cs);
    var r := RunSteps(map[], o, its, cs, tables, rs, true);
    if r.Success? && h in ShownAt(r.value[n], kind, m) {
      ResetStepsArePerIteration(map[], o, its, cs, tables, rs, n);
      var a := StorePlots(map[], o, it.xs, it.jetR, cs, ps).value;
      assert ShownFrom(a, o, kind, it.xs, rs[m].overlay, rs[m].c, it.jetR, h);
      var j :| Stored(a, o, kind, it.xs, rs[m].overlay, rs[m].c, it.jetR, j) && a[KeyOf(o, kind, it.xs[j].obsLabel, rs[m].c, it.jetR)] == h;
      var k := KeyOf(o, kind, it.xs[j].obsLabel, rs[m].c, it.jetR);
      StorePlotsProvenance(map[], o, it.xs, it.jetR, cs, ps, k);
      assert ComputedIn(o, it, cs, ps, k, h);
    }
  }

  // ---------------------------------------------------------------------------
  // As written: where a shown ratio and a missing name come from

  /** Storing only adds names: a name absent after the money plots was absent
      before and no built slice wrote it. */
  lemma {:induction false} StoreAllGrows(attrs: Attrs, o: Observable, obsLabel: string, jetR: real, cs: seq<Call>, outs: seq<Result<SliceOutcome>>, k: RatioKey)
    requires |outs| == |cs|
    ensures var r := StoreAll(attrs, o, obsLabel, jetR, cs, outs);
            r.Success? && k !in r.value ==> k !in attrs && forall i :: !BuiltAt(o, obsLabel, jetR, cs, outs, i, k)
    decreases |cs|
  {
    if |cs| > 0 && outs[0].Success? {
      var next := Store(attrs, o, obsLabel, jetR, cs[0], outs[0].value);
      assert BuiltAt(o, obsLabel, jetR, cs, outs, 0, k) ==> k in next by {
        if BuiltAt(o, obsLabel, jetR, cs, outs, 0, k) {
          assert k == KeyOf(o, k.kind, obsLabel, cs[0], jetR);
          assert k.kind == EmbeddedOverTruth || k.kind == TaggingPurity;
        }
      }
      StoreAllGrows(next, o, obsLabel, jetR, cs[1..], outs[1..], k);
      var r := StoreAll(attrs, o, obsLabel, jetR, cs, outs);
      if r.Success? && k !in r.value {
        forall i | 0 <= i < |cs|
          ensures !BuiltAt(o, obsLabel, jetR, cs, outs, i, k)
        {
          if i > 0 {
            assert !BuiltAt(o, obsLabel, jetR, cs[1..], outs[1..], i - 1, k);
          }
        }
      }
    }
  }

  /** StoreAllGrows over every configuration's money plot. */
  lemma {:induction false} StorePlotsGrows(attrs: Attrs, o: Observable, xs: seq<Inputs>, jetR: real, cs: seq<Call>, ps: seq<PlotResult>, k: RatioKey)
    requires |ps| == |xs| && AllFit(ps, cs)
    ensures var r := StorePlots(attrs, o, xs, jetR, cs, ps);
            r.Success? && k !in r.value ==>
              k !in attrs && forall j :: 0 <= j < |xs| ==> !WritesKey(o, xs[j].obsLabel, jetR, cs, ps[j], k)
    decreases |xs|
  {
    var r := StorePlots(attrs, o, xs, jetR, cs, ps);
    if |xs| > 0 && r.Success? && k !in r.value {
      assert Fits(ps[0], cs);
      var next := MoneyPlot(attrs, o, xs[0].obsLabel, jetR, cs, ps[0]).value;
      StoreAllGrows(attrs, o, xs[0].obsLabel, jetR, cs, ps[0].value, k);
      StorePlotsGrows(next, o, xs[1..], jetR, cs, ps[1..], k);
      forall j | 0 <= j < |xs|
        ensures !WritesKey(o, xs[j].obsLabel, jetR, cs, ps[j], k)
      {
        if j > 0 {
          assert xs[1..][j - 1] == xs[j] && ps[1..][j - 1] == ps[j];
        }
      }
    }
  }

  /** h is the value attrs held under k, or some iteration up to n computed h
      under k. */
  ghost predicate Origin(attrs: Attrs, o: Observable, its: seq<Iteration>, cs: seq<Call>, tables: seq<seq<PlotResult>>, n: nat, k: RatioKey, h: H1)
    requires TablesFit(its, tables, cs) && n < |its|
  {
    || (k in attrs && attrs[k] == h)
    || exists p :: 0 <= p <= n && ComputedIn(o, its[p], cs, tables[p], k, h)
  }

  /** An origin in the run after the first iteration is an origin in the whole
      run, given where the first iteration's attributes come from. */
  lemma OriginShift(attrs: Attrs, a: Attrs, o: Observable, its: seq<Iteration>, cs: seq<Call>, tables: seq<seq<PlotResult>>,
                    n: nat, k: RatioKey, h: H1)
    requires TablesFit(its, tables, cs) && 0 < n < |its| && TablesFit(its[1..], tables[1..], cs)
    requires k in a && a[k] == h ==> (k in attrs && attrs[k] == h) || ComputedIn(o, its[0], cs, tables[0], k, h)
    requires Origin(a, o, its[1..], cs, tables[1..], n - 1, k, h)
    ensures Origin(attrs, o, its, cs, tables, n, k, h)
  {
    if !(k in a && a[k] == h) {
      var p :| 0 <= p <= n - 1 && ComputedIn(o, its[1..][p], cs, tables[1..][p], k, h);
      assert its[1..][p] == its[p + 1] && tables[1..][p] == tables[p + 1];
      assert ComputedIn(o, its[p + 1], cs, tables[p + 1], k, h);
    } else if !(k in attrs && attrs[k] == h) {
      assert ComputedIn(o, its[0], cs, tables[0], k, h);
    }
  }

  /** An iteration shows, for request m, the stored ratio of an overlaid
      configuration after its own money plots. */
  lemma ShownInStep(attrs: Attrs, o: Observable, it: Iteration, cs: seq<Call>, ps: seq<PlotResult>, rs: seq<Request>,
                    kind: RatioKind, m: nat, h: H1)
    requires |ps| == |it.xs| && AllFit(ps, cs) && m < |rs|
    ensures var r := Step(attrs, o, it, cs, ps, rs, false);
            r.Success? && h in ShownAt(r.value.1, kind, m) ==>
              && r.value.0 == StorePlots(attrs, o, it.xs, it.jetR, cs, ps).value
              && ShownFrom(r.value.0, o, kind, it.xs, rs[m].overlay, rs[m].c, it.jetR, h)
  {
  }

  /** As written: every ratio iteration n shows for request m is the stored
      ratio of an overlaid configuration of iteration n, and under that name it
      was either already held on entry or computed by some iteration up to n,
      not necessarily iteration n itself. */
  lemma {:induction false} ShownAsWritten(attrs: Attrs, o: Observable, its: seq<Iteration>, cs: seq<Call>, tables: seq<seq<PlotResult>>,
                                          rs: seq<Request>, kind: RatioKind, n: nat, m: nat, h: H1)
    requires TablesFit(its, tables, cs) && n < |its| && m < |rs|
    ensures var r := RunSteps(attrs, o, its, cs, tables, rs, false);
            r.Success? && h in ShownAt(r.value[n], kind, m) ==>
              exists j :: 0 <= j < |its[n].xs| && its[n].xs[j].name in rs[m].overlay
                          && Origin(attrs, o, its, cs, tables, n, KeyOf(o, kind, its[n].xs[j].obsLabel, rs[m].c, its[n].jetR), h)
    decreases n, 1
  {
    var r := RunSteps(attrs, o, its, cs, tables, rs, false);
    if r.Success? && h in ShownAt(r.value[n], kind, m) {
      if n == 0 {
        TablesFitTail(its, tables, cs);
        RunStepsHead(attrs, o, its, cs, tables, rs, false);
        ShownFirst(attrs, o, its, cs, tables, rs, kind, m, h);
      } else {
        ShownAsWrittenLater(attrs, o, its, cs, tables, rs, kind, n, m, h);
      }
    }
  }

  /** ShownAsWritten for n > 0: the run after the first iteration shows h at
      n - 1, and its origins are origins of the whole run. */
  lemma {:induction false} ShownAsWrittenLater(attrs: Attrs, o: Observable, its: seq<Iteration>, cs: seq<Call>, tables: seq<seq<PlotResult>>,
                                               rs: seq<Request>, kind: RatioKind, n: nat, m: nat, h: H1)
    requires TablesFit(its, tables, cs) && 0 < n < |its| && m < |rs|
    requires var r := RunSteps(attrs, o, its, cs, tables, rs, false);
             r.Success? && h in ShownAt(r.value[n], kind, m)
    ensures exists j :: 0 <= j < |its[n].xs| && its[n].xs[j].name in rs[m].overlay
                        && Origin(attrs, o, its, cs, tables, n, KeyOf(o, kind, its[n].xs[j].obsLabel, rs[m].c, its[n].jetR), h)
    decreases n, 0
  {
    TablesFitTail(its, tables, cs);
    ShownTail(attrs, o, its, cs, tables, rs, kind, n, m, h);
    var a := StorePlots(attrs, o, its[0].xs, its[0].jetR, cs, tables[0]).value;
    ShownAsWritten(a, o, its[1..], cs, tables[1..], rs, kind, n - 1, m, h);
    ShownLater(attrs, o, its, cs, tables, rs, kind, n, m, h);
  }

  /** A ratio shown by a later iteration is shown by the run that starts after
      the first iteration's money plots. */
  lemma ShownTail(attrs: Attrs, o: Observable, its: seq<Iteration>, cs: seq<Call>, tables: seq<seq<PlotResult>>,
                  rs: seq<Request>, kind: RatioKind, n: nat, m: nat, h: H1)
    requires TablesFit(its, tables, cs) && 0 < n < |its| && m < |rs| && TablesFit(its[1..], tables[1..], cs)
    requires |tables[0]| == |its[0].xs| && AllFit(tables[0], cs)
    requires var r := RunSteps(attrs, o, its, cs, tables, rs, false);
             r.Success? && h in ShownAt(r.value[n], kind, m)
    ensures var a := StorePlots(attrs, o, its[0].xs, its[0].jetR, cs, tables[0]);
            && a.Success?
            && var tail := RunSteps(a.value, o, its[1..], cs, tables[1..], rs, false);
               tail.Success? && h in ShownAt(tail.value[n - 1], kind, m)
  {
    var r := RunSteps(attrs, o, its, cs, tables, rs, false);
    RunStepsHead(attrs, o, its, cs, tables, rs, false);
    assert r.value[n] == r.value[1..][n - 1];
  }

  /** ShownAsWritten for the first iteration. */
  lemma ShownFirst(attrs: Attrs, o: Observable, its: seq<Iteration>, cs: seq<Call>, tables: seq<seq<PlotResult>>,
                   rs: seq<Request>, kind: RatioKind, m: nat, h: H1)
    requires TablesFit(its, tables, cs) && 0 < |its| && m < |rs|
    requires |tables[0]| == |its[0].xs| && AllFit(tables[0], cs)
    requires var step := Step(attrs, o, its[0], cs, tables[0], rs, false);
             step.Success? && h in ShownAt(step.value.1, kind, m)
    ensures exists j :: 0 <= j < |its[0].xs| && its[0].xs[j].name in rs[m].overlay
                        && Origin(attrs, o, its, cs, tables, 0, KeyOf(o, kind, its[0].xs[j].obsLabel, rs[m].c, its[0].jetR), h)
  {
    ShownInStep(attrs, o, its[0], cs, tables[0], rs, kind, m, h);
    var a := StorePlots(attrs, o, its[0].xs, its[0].jetR, cs, tables[0]).value;
    var j :| Stored(a, o, kind, its[0].xs, rs[m].overlay, rs[m].c, its[0].jetR, j)
             && a[KeyOf(o, kind, its[0].xs[j].obsLabel, rs[m].c, its[0].jetR)] == h;
    var k := KeyOf(o, kind, its[0].xs[j].obsLabel, rs[m].c, its[0].jetR);
    StorePlotsProvenance(attrs, o, its[0].xs, its[0].jetR, cs, tables[0], k);
    assert (k in attrs && attrs[k] == h) || ComputedIn(o, its[0], cs, tables[0], k, h);
    assert Origin(attrs, o, its, cs, tables, 0, k, h);
  }

  /** ShownAsWritten for a later iteration, from the same fact about the run
      after the first iteration. */
  lemma ShownLater(attrs: Attrs, o: Observable, its: seq<Iteration>, cs: seq<Call>, tables: seq<seq<PlotResult>>,
                   rs: seq<Request>, kind: RatioKind, n: nat, m: nat, h: H1)
    requires TablesFit(its, tables, cs) && 0 < n < |its| && m < |rs| && TablesFit(its[1..], tables[1..], cs)
    requires |tables[0]| == |its[0].xs| && AllFit(tables[0], cs)
    requires var a := StorePlots(attrs, o, its[0].xs, its[0].jetR, cs, tables[0]);
             && a.Success?
             && var it := its[1..][n - 1];
                exists j :: 0 <= j < |it.xs| && it.xs[j].name in rs[m].overlay
                            && Origin(a.value, o, its[1..], cs, tables[1..], n - 1, KeyOf(o, kind, it.xs[j].obsLabel, rs[m].c, it.jetR), h)
    ensures exists j :: 0 <= j < |its[n].xs| && its[n].xs[j].name in rs[m].overlay
                        && Origin(attrs, o, its, cs, tables, n, KeyOf(o, kind, its[n].xs[j].obsLabel, rs[m].c, its[n].jetR), h)
  {
    var a := StorePlots(attrs, o, its[0].xs, its[0].jetR, cs, tables[0]).value;
    assert its[1..][n - 1] == its[n];
    var j :| 0 <= j < |its[n].xs| && its[n].xs[j].name in rs[m].overlay
             && Origin(a, o, its[1..], cs, tables[1..], n - 1, KeyOf(o, kind, its[n].xs[j].obsLabel, rs[m].c, its[n].jetR), h);
    var k := KeyOf(o, kind, its[n].xs[j].obsLabel, rs[m].c, its[n].jetR);
    StorePlotsProvenance(attrs, o, its[0].xs, its[0].jetR, cs, tables[0], k);
    OriginShift(attrs, a, o, its, cs, tables, n, k, h);
  }

  /** The name configuration j of iteration n looks up for request m is absent
      on entry and no iteration up to n writes it. */
  ghost predicate UnwrittenLookup(attrs: Attrs, o: Observable, its: seq<Iteration>, cs: seq<Call>, tables: seq<seq<PlotResult>>,
                                  rs: seq<Request>, kind: RatioKind, n: int, m: int, j: int)
    requires TablesFit(its, tables, cs)
  {
    && 0 <= n < |its| && 0 <= m < |rs| && 0 <= j < |its[n].xs| && its[n].xs[j].name in rs[m].overlay
    && var k := KeyOf(o, kind, its[n].xs[j].obsLabel, rs[m].c, its[n].jetR);
       k !in attrs && forall p :: 0 <= p <= n ==> NeverWritten(o, its[p], cs, tables[p], k)
  }

  /** A failing iteration raises AttributeError only from an overlay that looks
      up a name absent after its money plots. */
  lemma MissingInStep(attrs: Attrs, o: Observable, it: Iteration, cs: seq<Call>, ps: seq<PlotResult>, rs: seq<Request>)
    requires |ps| == |it.xs| && AllFit(ps, cs) && forall j :: 0 <= j < |ps| ==> RaisesOnly(ps[j])
    ensures var r := Step(attrs, o, it, cs, ps, rs, false);
            var a := StorePlots(attrs, o, it.xs, it.jetR, cs, ps);
            r.Failure? && r.error == MissingAttribute ==>
              a.Success? && exists kind, m, j :: 0 <= m < |rs| && Missing(a.value, o, kind, it.xs, rs[m].overlay, rs[m].c, it.jetR, j)
  {
    var r := Step(attrs, o, it, cs, ps, rs, false);
    var a := StorePlots(attrs, o, it.xs, it.jetR, cs, ps);
    if r.Failure? && r.error == MissingAttribute {
      var kind := if ShowRatios(a.value, o, EmbeddedOverTruth, it.xs, it.jetR, rs, false).Failure? then EmbeddedOverTruth else TaggingPurity;
      var m :| 0 <= m < |rs| && Overlay(a.value, o, kind, it.xs, it.jetR, rs[m], false) == Failure(MissingAttribute);
      var j :| Missing(a.value, o, kind, it.xs, rs[m].overlay, rs[m].c, it.jetR, j);
    }
  }

  /** A failed run is its first iteration failing, or the rest failing after it. */
  lemma RunStepsFails(attrs: Attrs, o: Observable, its: seq<Iteration>, cs: seq<Call>,
                      tables: seq<seq<PlotResult>>, rs: seq<Request>, reset: bool)
    requires TablesFit(its, tables, cs) && |its| > 0
    requires |tables[0]| == |its[0].xs| && AllFit(tables[0], cs)
    requires TablesFit(its[1..], tables[1..], cs)
    ensures var r := RunSteps(attrs, o, its, cs, tables, rs, reset);
            var step := Step(attrs, o, its[0], cs, tables[0], rs, reset);
            r.Failure? ==> step == Failure(r.error)
                           || (step.Success? && RunSteps(step.value.0, o, its[1..], cs, tables[1..], rs, reset) == Failure(r.error))
  {
  }

  /** As written: a run raises AttributeError only when some iteration n
      overlays a configuration whose name was neither present on entry nor
      written by any iteration up to n. */
  lemma {:induction false} MissingAsWritten(attrs: Attrs, o: Observable, its: seq<Iteration>, cs: seq<Call>, tables: seq<seq<PlotResult>>,
                                            rs: seq<Request>)
    requires TablesFit(its, tables, cs) && TablesRaiseOnly(tables)
    ensures var r := RunSteps(attrs, o, its, cs, tables, rs, false);
            r.Failure? && r.error == MissingAttribute ==>
              exists kind, n, m, j :: UnwrittenLookup(attrs, o, its, cs, tables, rs, kind, n, m, j)
    decreases |its|
  {
    var r := RunSteps(attrs, o, its, cs, tables, rs, false);
    if r.Failure? && r.error == MissingAttribute {
      TablesFitTail(its, tables, cs);
      RunStepsFails(attrs, o, its, cs, tables, rs, false);
      var step := Step(attrs, o, its[0], cs, tables[0], rs, false);
      if step.Failure? {
        MissingFirst(attrs, o, its, cs, tables, rs);
      } else {
        TablesRaiseOnlyTail(tables);
        MissingAsWritten(step.value.0, o, its[1..], cs, tables[1..], rs);
        MissingLater(attrs, o, its, cs, tables, rs);
      }
    }
  }

  lemma TablesRaiseOnlyTail(tables: seq<seq<PlotResult>>)
    requires TablesRaiseOnly(tables) && |tables| > 0
    ensures TablesRaiseOnly(tables[1..])
  {
    forall n, j | 0 <= n < |tables| - 1 && 0 <= j < |tables[1..][n]|
      ensures RaisesOnly(tables[1..][n][j])
    {
      assert tables[1..][n] == tables[n + 1];
    }
  }

  /** MissingAsWritten when the first iteration raises. */
  lemma MissingFirst(attrs: Attrs, o: Observable, its: seq<Iteration>, cs: seq<Call>, tables: seq<seq<PlotResult>>, rs: seq<Request>)
    requires TablesFit(its, tables, cs) && TablesRaiseOnly(tables) && |its| > 0
    requires |tables[0]| == |its[0].xs| && AllFit(tables[0], cs)
    requires Step(attrs, o, its[0], cs, tables[0], rs, false) == Failure(MissingAttribute)
    ensures exists kind, n, m, j :: UnwrittenLookup(attrs, o, its, cs, tables, rs, kind, n, m, j)
  {
    var it, ps := its[0], tables[0];
    assert forall j :: 0 <= j < |ps| ==> RaisesOnly(ps[j]);
    var a := StorePlots(attrs, o, it.xs, it.jetR, cs, ps);
    MissingInStep(attrs, o, it, cs, ps, rs);
    var kind, m, j :| 0 <= m < |rs| && Missing(a.value, o, kind, it.xs, rs[m].overlay, rs[m].c, it.jetR, j);
    var k := KeyOf(o, kind, it.xs[j].obsLabel, rs[m].c, it.jetR);
    StorePlotsGrows(attrs, o, it.xs, it.jetR, cs, ps, k);
    assert NeverWritten(o, its[0], cs, tables[0], k);
    assert UnwrittenLookup(attrs, o, its, cs, tables, rs, kind, 0, m, j);
  }

  /** MissingAsWritten when the first iteration succeeds and the rest raise. */
  lemma MissingLater(attrs: Attrs, o: Observable, its: seq<Iteration>, cs: seq<Call>, tables: seq<seq<PlotResult>>, rs: seq<Request>)
    requires TablesFit(its, tables, cs) && |its| > 0 && TablesFit(its[1..], tables[1..], cs)
    requires |tables[0]| == |its[0].xs| && AllFit(tables[0], cs)
    requires var step := Step(attrs, o, its[0], cs, tables[0], rs, false);
             step.Success? && exists kind, n, m, j :: UnwrittenLookup(step.value.0, o, its[1..], cs, tables[1..], rs, kind, n, m, j)
    ensures exists kind, n, m, j :: UnwrittenLookup(attrs, o, its, cs, tables, rs, kind, n, m, j)
  {
    var a := Step(attrs, o, its[0], cs, tables[0], rs, false).value.0;
    assert a == StorePlots(attrs, o, its[0].xs, its[0].jetR, cs, tables[0]).value;
    var kind, n, m, j :| UnwrittenLookup(a, o, its[1..], cs, tables[1..], rs, kind, n, m, j);
    UnwrittenShift(attrs, o, its, cs, tables, rs, kind, n, m, j);
  }

  /** UnwrittenLookup in the run after a succeeding first iteration is one in
      the whole run, one iteration later. */
  lemma UnwrittenShift(attrs: Attrs, o: Observable, its: seq<Iteration>, cs: seq<Call>, tables: seq<seq<PlotResult>>,
                       rs: seq<Request>, kind: RatioKind, n: int, m: int, j: int)
    requires TablesFit(its, tables, cs) && |its| > 0 && TablesFit(its[1..], tables[1..], cs)
    requires |tables[0]| == |its[0].xs| && AllFit(tables[0], cs)
    requires var a := StorePlots(attrs, o, its[0].xs, its[0].jetR, cs, tables[0]);
             a.Success? && UnwrittenLookup(a.value, o, its[1..], cs, tables[1..], rs, kind, n, m, j)
    ensures UnwrittenLookup(attrs, o, its, cs, tables, rs, kind, n + 1, m, j)
  {
    var a := StorePlots(attrs, o, its[0].xs, its[0].jetR, cs, tables[0]);
    assert its[1..][n] == its[n + 1];
    var k := KeyOf(o, kind, its[n + 1].xs[j].obsLabel, rs[m].c, its[n + 1].jetR);
    StorePlotsGrows(attrs, o, its[0].xs, its[0].jetR, cs, tables[0], k);
    forall p | 0 <= p <= n + 1
      ensures NeverWritten(o, its[p], cs, tables[p], k)
    {
      if p > 0 {
        assert its[1..][p - 1] == its[p] && tables[1..][p - 1] == tables[p];
        assert NeverWritten(o, its[1..][p - 1], cs, tables[1..][p - 1], k);
      }
    }
  }

  /** ShownAsWritten and MissingAsWritten for plot_groomers itself. */
  lemma PlotGroomersAsWritten(attrs: Attrs, o: Observable, its: seq<Iteration>, ptBins: seq<real>, thetas: seq<real>,
                              overlays: seq<seq<string>>, kind: RatioKind, n: nat, m: nat, h: H1)
    requires ValidIterations(o, its) && n < |its|
    requires m < |RatioRequests(o, ptBins, thetas, overlays)|
    ensures var cs := PlotCalls(ptBins, thetas);
            var tables := Tables(o, its, ptBins, thetas);
            var rs := RatioRequests(o, ptBins, thetas, overlays);
            var r := PlotGroomers(attrs, o, its, ptBins, thetas, overlays);
            && (r.Success? && h in ShownAt(r.value[n], kind, m) ==>
                  exists j :: 0 <= j < |its[n].xs| && its[n].xs[j].name in rs[m].overlay
                              && Origin(attrs, o, its, cs, tables, n, KeyOf(o, kind, its[n].xs[j].obsLabel, rs[m].c, its[n].jetR), h))
            && (r.Failure? && r.error == MissingAttribute ==>
                  exists kind', n', m', j :: UnwrittenLookup(attrs, o, its, cs, tables, rs, kind', n', m', j))
  {
    var cs := PlotCalls(ptBins, thetas);
    var tables := Tables(o, its, ptBins, thetas);
    var rs := RatioRequests(o, ptBins, thetas, overlays);
    ShownAsWritten(attrs, o, its, cs, tables, rs, kind, n, m, h);
    MissingAsWritten(attrs, o, its, cs, tables, rs);
  }
}
