/** The jet loop of process_rg_data: each event's jets are selected, the
    leading pair fills the dijet asymmetry A_J against the azimuthal distance,
    and every accepted jet is groomed with SoftDrop and fills z_g and R_g.
    Histograms are kept as fill logs: the values passed to Fill, in order. */
module Dijets {
  import opened Results
  import opened Vectors

  // ---------------------------------------------------------------------------
  // Jets and the jet selector

  /** A reconstructed jet: transverse momentum, rapidity and azimuth. */
  datatype Jet = Jet(pt: real, rap: real, phi: real)

  const JetR: real := 0.4
  /** SelectorPtMin(5.0). */
  const PtMin: real := 5.0
  /** SelectorAbsRapMax(0.9 - jetR). */
  const RapMax: real := 0.9 - JetR

  predicate Selected(j: Jet)
  {
    j.pt >= PtMin && Abs(j.rap) <= RapMax
  }

  /** Jets in descending pt, as fj.sorted_by_pt returns them. */
  predicate SortedByPt(jets: seq<Jet>)
  {
    forall i, k :: 0 <= i < k < |jets| ==> jets[i].pt >= jets[k].pt
  }

  /** jet_selector(jets): the selected jets in their original order. */
  function Accept(jets: seq<Jet>): (acc: seq<Jet>)
    ensures |acc| <= |jets|
    ensures forall j :: j in acc ==> Selected(j) && j in jets
    ensures forall j :: j in jets && Selected(j) ==> j in acc
  {
    if |jets| == 0 then []
    else (if Selected(jets[0]) then [jets[0]] else []) + Accept(jets[1..])
  }

  /** A single jet is kept exactly when the selector accepts it. */
  lemma AcceptOne(j: Jet)
    ensures Accept([j]) == if Selected(j) then [j] else []
  {
    assert [j][1..] == [];
  }

  /** Selection distributes over concatenation: it keeps the selected jets of
      each part, in their original order. */
  lemma {:induction false} AcceptAppend(xs: seq<Jet>, ys: seq<Jet>)
    ensures Accept(xs + ys) == Accept(xs) + Accept(ys)
    decreases |xs|
  {
    if |xs| == 0 {
      assert xs + ys == ys;
    } else {
      assert (xs + ys)[1..] == xs[1..] + ys;
      assert (xs + ys)[0] == xs[0];
      AcceptAppend(xs[1..], ys);
    }
  }

  lemma SortedTail(jets: seq<Jet>)
    requires SortedByPt(jets) && |jets| > 0
    ensures SortedByPt(jets[1..])
  {
    forall i, k | 0 <= i < k < |jets| - 1
      ensures jets[1..][i].pt >= jets[1..][k].pt
    {
      assert jets[1..][i] == jets[i + 1] && jets[1..][k] == jets[k + 1];
    }
  }

  /** A jet at least as hard as every jet of a sorted list heads a sorted list. */
  lemma SortedCons(x: Jet, s: seq<Jet>)
    requires SortedByPt(s)
    requires forall j :: j in s ==> j.pt <= x.pt
    ensures SortedByPt([x] + s)
  {
    var t := [x] + s;
    forall i, k | 0 <= i < k < |t|
      ensures t[i].pt >= t[k].pt
    {
      assert t[k] == s[k - 1];
      if i > 0 {
        assert t[i] == s[i - 1];
      } else {
        assert s[k - 1] in s;
      }
    }
  }

  /** Selection keeps the pt ordering, so the first two accepted jets are the
      two leading selected jets. */
  lemma {:induction false} AcceptKeepsOrder(jets: seq<Jet>)
    requires SortedByPt(jets)
    ensures SortedByPt(Accept(jets))
    decreases |jets|
  {
    if |jets| > 0 {
      var rest := jets[1..];
      SortedTail(jets);
      AcceptKeepsOrder(rest);
      var tail := Accept(rest);
      if Selected(jets[0]) {
        forall j | j in tail
          ensures j.pt <= jets[0].pt
        {
          var k :| 0 <= k < |rest| && rest[k] == j;
          assert jets[k + 1] == j;
        }
        SortedCons(jets[0], tail);
      }
    }
  }

  // ---------------------------------------------------------------------------
  // Fill logs

  /** The values filled into hJetPt, hAJ (A_J, delta phi), hZg and hRg. */
  datatype Fills = Fills(jetPt: seq<real>, aj: seq<(real, real)>, zg: seq<real>, rg: seq<real>)

  const NoFills: Fills := Fills([], [], [], [])

  /** The pt of every jet, in order. */
  function Pts(jets: seq<Jet>): (r: seq<real>)
    ensures |r| == |jets|
    ensures forall i :: 0 <= i < |jets| ==> r[i] == jets[i].pt
  {
    if |jets| == 0 then [] else [jets[0].pt] + Pts(jets[1..])
  }

  /** The dijet momentum asymmetry; Python raises ZeroDivisionError on a
      vanishing pt sum. */
  function Asymmetry(pt1: real, pt2: real): Result<real>
  {
    if pt1 + pt2 == 0.0 then Failure(ZeroDivision) else Success((pt1 - pt2) / (pt1 + pt2))
  }

  /** The azimuthal distance as written: the plain difference of the two azimuths. */
  function DeltaPhi(phi1: real, phi2: real): (d: real)
    ensures d >= 0.0
    ensures d == phi1 - phi2 || d == phi2 - phi1
  {
    Abs(phi1 - phi2)
  }

  /** fillJetHistograms: one hJetPt fill per jet, then one hAJ fill from the
      first two jets when there are at least two. */
  function FillJetHistograms(f: Fills, jets: seq<Jet>): (r: Result<Fills>)
    ensures r.Failure? <==> |jets| > 1 && jets[0].pt + jets[1].pt == 0.0
    ensures r.Success? ==> r.value.jetPt == f.jetPt + Pts(jets) && r.value.zg == f.zg && r.value.rg == f.rg
    ensures r.Success? ==> |r.value.aj| == |f.aj| + (if |jets| > 1 then 1 else 0)
    ensures r.Success? ==> r.value.aj[..|f.aj|] == f.aj
    ensures r.Success? && |jets| > 1 ==>
              var pair := r.value.aj[|f.aj|];
              && pair.0 * (jets[0].pt + jets[1].pt) == jets[0].pt - jets[1].pt
              && pair.1 == DeltaPhi(jets[0].phi, jets[1].phi)
  {
    var withPt := f.(jetPt := f.jetPt + Pts(jets));
    if |jets| > 1 then
      var aj :- Asymmetry(jets[0].pt, jets[1].pt);
      Success(withPt.(aj := f.aj + [(aj, DeltaPhi(jets[0].phi, jets[1].phi))]))
    else Success(withPt)
  }

  /** For pt-ordered jets with a positive subleading pt, A_J lies in [0, 1). */
  lemma AsymmetryInUnit(pt1: real, pt2: real)
    requires pt1 >= pt2 > 0.0
    ensures Asymmetry(pt1, pt2).Success?
    ensures 0.0 <= Asymmetry(pt1, pt2).value < 1.0
  {
    assert 0.0 <= pt1 - pt2 < pt1 + pt2;
  }

  // ---------------------------------------------------------------------------
  // SoftDrop

  /** What get_SD_jet_info reports for a groomed jet: z_g and R_g. */
  datatype SdInfo = SdInfo(z: real, dR: real)

  function Zs(infos: seq<SdInfo>): (r: seq<real>)
    ensures |r| == |infos|
    ensures forall i :: 0 <= i < |infos| ==> r[i] == infos[i].z
  {
    if |infos| == 0 then [] else [infos[0].z] + Zs(infos[1..])
  }

  function DRs(infos: seq<SdInfo>): (r: seq<real>)
    ensures |r| == |infos|
    ensures forall i :: 0 <= i < |infos| ==> r[i] == infos[i].dR
  {
    if |infos| == 0 then [] else [infos[0].dR] + DRs(infos[1..])
  }

  /** fillSoftDropHistograms: one hZg and one hRg fill per groomed jet. */
  function FillSoftDropHistograms(f: Fills, infos: seq<SdInfo>): (r: Fills)
    ensures r.zg == f.zg + Zs(infos) && r.rg == f.rg + DRs(infos)
    ensures r.jetPt == f.jetPt && r.aj == f.aj
  {
    f.(zg := f.zg + Zs(infos), rg := f.rg + DRs(infos))
  }

  /** sd.result followed by get_SD_jet_info for every jet. */
  function Groomed(jets: seq<Jet>, groom: Jet -> SdInfo): (r: seq<SdInfo>)
    ensures |r| == |jets|
    ensures forall i :: 0 <= i < |jets| ==> r[i] == groom(jets[i])
  {
    if |jets| == 0 then [] else [groom(jets[0])] + Groomed(jets[1..], groom)
  }

  // ---------------------------------------------------------------------------
  // Events

  /** analyzeJets for one event's jets, already clustered and sorted by pt. */
  function AnalyzeJets(f: Fills, jets: seq<Jet>, groom: Jet -> SdInfo): (r: Result<Fills>)
    ensures r.Success?
    ensures r.value.jetPt == f.jetPt + Pts(Accept(jets))
    ensures r.value.zg == f.zg + Zs(Groomed(Accept(jets), groom))
    ensures r.value.rg == f.rg + DRs(Groomed(Accept(jets), groom))
    ensures |r.value.aj| == |f.aj| + (if |Accept(jets)| > 1 then 1 else 0)
    ensures r.value.aj[..|f.aj|] == f.aj
    ensures |Accept(jets)| > 1 ==>
              var lead, sub, pair := Accept(jets)[0], Accept(jets)[1], r.value.aj[|f.aj|];
              && pair.0 * (lead.pt + sub.pt) == lead.pt - sub.pt
              && pair.1 == DeltaPhi(lead.phi, sub.phi)
  {
    var acc := Accept(jets);
    LeadingPairPtSum(jets);
    var g := FillJetHistograms(f, acc).value;
    Success(FillSoftDropHistograms(g, Groomed(acc, groom)))
  }

  /** Accepted jets have pt at least 5, so the leading accepted pair never has a
      vanishing pt sum. */
  lemma LeadingPairPtSum(jets: seq<Jet>)
    ensures |Accept(jets)| > 1 ==> Accept(jets)[0].pt + Accept(jets)[1].pt > 0.0
  {
    var acc := Accept(jets);
    if |acc| > 1 {
      assert acc[0] in acc && acc[1] in acc;
    }
  }

  /** The leading accepted pair of pt-sorted jets fills hAJ inside its x range
      [0, 1) with a non-negative delta phi. */
  lemma DijetFillInRange(f: Fills, jets: seq<Jet>, groom: Jet -> SdInfo)
    requires SortedByPt(jets) && |Accept(jets)| > 1
    ensures var p := AnalyzeJets(f, jets, groom).value.aj[|f.aj|];
            0.0 <= p.0 < 1.0 && p.1 >= 0.0
  {
    var acc := Accept(jets);
    AcceptKeepsOrder(jets);
    assert acc[0] in acc && acc[1] in acc;
    AsymmetryInUnit(acc[0].pt, acc[1].pt);
    var g := FillJetHistograms(f, acc).value;
    assert AnalyzeJets(f, jets, groom).value.aj == g.aj;
  }

  function AcceptedCount(events: seq<seq<Jet>>): nat
  {
    if |events| == 0 then 0 else |Accept(events[0])| + AcceptedCount(events[1..])
  }

  function DijetEvents(events: seq<seq<Jet>>): nat
  {
    if |events| == 0 then 0 else (if |Accept(events[0])| > 1 then 1 else 0) + DijetEvents(events[1..])
  }

  /** analyzeEvents: analyzeJets for every event in turn. */
  function AnalyzeEvents(f: Fills, events: seq<seq<Jet>>, groom: Jet -> SdInfo): (r: Fills)
    ensures |r.jetPt| == |f.jetPt| + AcceptedCount(events)
    ensures |r.zg| == |f.zg| + AcceptedCount(events) && |r.rg| == |f.rg| + AcceptedCount(events)
    ensures |r.aj| == |f.aj| + DijetEvents(events)
    ensures r.aj[..|f.aj|] == f.aj
    decreases |events|
  {
    if |events| == 0 then f
    else
      var g := AnalyzeJets(f, events[0], groom).value;
      var r := AnalyzeEvents(g, events[1..], groom);
      assert r.aj[..|f.aj|] == r.aj[..|g.aj|][..|f.aj|];
      r
  }

  predicate AjInRange(aj: seq<(real, real)>)
  {
    forall i :: 0 <= i < |aj| ==> 0.0 <= aj[i].0 < 1.0 && aj[i].1 >= 0.0
  }

  /** One pt-sorted event keeps every hAJ fill inside the histogram's range. */
  lemma FillsInRangeAfterEvent(f: Fills, jets: seq<Jet>, groom: Jet -> SdInfo)
    requires SortedByPt(jets) && AjInRange(f.aj)
    ensures AjInRange(AnalyzeJets(f, jets, groom).value.aj)
  {
    var g := AnalyzeJets(f, jets, groom).value;
    if |Accept(jets)| > 1 {
      DijetFillInRange(f, jets, groom);
    }
    forall i | 0 <= i < |g.aj|
      ensures 0.0 <= g.aj[i].0 < 1.0 && g.aj[i].1 >= 0.0
    {
      if i < |f.aj| {
        assert g.aj[i] == g.aj[..|f.aj|][i];
      }
    }
  }

  lemma SortedEventsTail(events: seq<seq<Jet>>)
    requires |events| > 0
    requires forall e :: 0 <= e < |events| ==> SortedByPt(events[e])
    ensures forall e :: 0 <= e < |events| - 1 ==> SortedByPt(events[1..][e])
  {
    forall e | 0 <= e < |events| - 1
      ensures SortedByPt(events[1..][e])
    {
      assert events[1..][e] == events[e + 1];
    }
  }

  /** Every hAJ fill of a run over pt-sorted events lies inside the histogram's
      x range [0, 1) and has a non-negative delta phi. */
  lemma {:induction false} AllDijetFillsInRange(f: Fills, events: seq<seq<Jet>>, groom: Jet -> SdInfo)
    requires forall e :: 0 <= e < |events| ==> SortedByPt(events[e])
    requires AjInRange(f.aj)
    ensures AjInRange(AnalyzeEvents(f, events, groom).aj)
    decreases |events|
  {
    if |events| > 0 {
      var g := AnalyzeJets(f, events[0], groom).value;
      assert AnalyzeEvents(f, events, groom) == AnalyzeEvents(g, events[1..], groom);
      FillsInRangeAfterEvent(f, events[0], groom);
      SortedEventsTail(events);
      AllDijetFillsInRange(g, events[1..], groom);
    }
  }

  // ---------------------------------------------------------------------------
  // The azimuthal distance, wrapped

  /** pi as the double math.pi; FastJet reports azimuths in [0, 2 pi). */
  const Pi: real := 3.141592653589793
  const TwoPi: real := 2.0 * Pi

  /** Upper edge of the delta phi axis of hAJ. */
  const DeltaPhiAxisMax: real := 4.0

  /** The plain difference leaves the axis of hAJ for two nearby jets on either
      side of phi = 0: their separation is about 0.48, the value filled 5.8. */
  lemma DeltaPhiUnwrappedLeavesAxis()
    ensures DeltaPhi(0.2, 6.0) > DeltaPhiAxisMax
    ensures DeltaPhiWrapped(0.2, 6.0) < 0.5
  {
  }

  /** The azimuthal separation folded into [0, pi]. */
  function DeltaPhiWrapped(phi1: real, phi2: real): (d: real)
    ensures d == DeltaPhi(phi1, phi2) || d == TwoPi - DeltaPhi(phi1, phi2)
    ensures d <= DeltaPhi(phi1, phi2)
  {
    var d := DeltaPhi(phi1, phi2);
    if d > Pi then TwoPi - d else d
  }

  /** For azimuths in [0, 2 pi) the wrapped separation lies in [0, pi], inside
      the axis of hAJ, and it is symmetric in the two jets. */
  lemma DeltaPhiWrappedInRange(phi1: real, phi2: real)
    requires 0.0 <= phi1 < TwoPi && 0.0 <= phi2 < TwoPi
    ensures 0.0 <= DeltaPhiWrapped(phi1, phi2) <= Pi < DeltaPhiAxisMax
    ensures DeltaPhiWrapped(phi1, phi2) == DeltaPhiWrapped(phi2, phi1)
  {
  }

  /** fillJetHistograms with the wrapped separation. */
  function FillJetHistogramsWrapped(f: Fills, jets: seq<Jet>): (r: Result<Fills>)
    ensures r.Failure? <==> |jets| > 1 && jets[0].pt + jets[1].pt == 0.0
    ensures r.Success? ==> r.value.jetPt == f.jetPt + Pts(jets) && r.value.zg == f.zg && r.value.rg == f.rg
    ensures r.Success? ==> |r.value.aj| == |f.aj| + (if |jets| > 1 then 1 else 0)
    ensures r.Success? ==> r.value.aj[..|f.aj|] == f.aj
    ensures r.Success? && |jets| > 1 ==>
              var pair := r.value.aj[|f.aj|];
              && pair.0 * (jets[0].pt + jets[1].pt) == jets[0].pt - jets[1].pt
              && pair.1 == DeltaPhiWrapped(jets[0].phi, jets[1].phi)
  {
    var withPt := f.(jetPt := f.jetPt + Pts(jets));
    if |jets| > 1 then
      var aj :- Asymmetry(jets[0].pt, jets[1].pt);
      Success(withPt.(aj := f.aj + [(aj, DeltaPhiWrapped(jets[0].phi, jets[1].phi))]))
    else Success(withPt)
  }

  /** The wrapped fill of a selected pt-sorted pair lies inside both axes of hAJ. */
  lemma WrappedFillInAxes(f: Fills, jets: seq<Jet>)
    requires SortedByPt(jets) && |jets| > 1 && Selected(jets[0]) && Selected(jets[1])
    requires 0.0 <= jets[0].phi < TwoPi && 0.0 <= jets[1].phi < TwoPi
    ensures FillJetHistogramsWrapped(f, jets).Success?
    ensures var p := FillJetHistogramsWrapped(f, jets).value.aj[|f.aj|];
            0.0 <= p.0 < 1.0 && 0.0 <= p.1 < DeltaPhiAxisMax
  {
    AsymmetryInUnit(jets[0].pt, jets[1].pt);
    DeltaPhiWrappedInRange(jets[0].phi, jets[1].phi);
  }
}
