/**
 * The event loops of the three analyses: the jet acceptance and outlier cuts, the sentinel
 * values for jets that Soft Drop grooms down to one prong, the histogram fills per accepted
 * jet, the constituent pi0/K0 spectra, the event-count policy and the pt-hard bin table.
 * Jet finding is FastJet's: the jets of each radius, their constituents, the Soft Drop result
 * and the reclustered tree are inputs.
 */
module JetAnalysis {
  import opened Wrappers
  import opened Pdg
  import opened Events
  import opened PartonOrigin
  import opened SoftDrop
  import opened Histograms

  /**
   * One anti-kt jet: its transverse momentum and pseudorapidity, the event indices of its
   * constituents, FastJet's Soft Drop result (symmetry, angle, dropped count) and the
   * Cambridge/Aachen reclustering of its constituents.
   */
  datatype Jet = Jet(
    pt: real,
    eta: real,
    constituents: seq<nat>,
    symmetry: real,
    groomedDeltaR: real,
    droppedCount: int,
    reclustered: PseudoJet)

  /** Jet radius R/10 for the integer radius key R. */
  function JetRadius(r: int): real {
    r as real / 10.0
  }

  function RealAbs(x: real): (y: real)
    ensures y >= 0.0 && (y == x || y == -x)
  {
    if x < 0.0 then -x else x
  }

  /** The jets' acceptance: |eta| <= 0.7 - R, so that the whole jet lies within |eta| <= 0.7. */
  const JetEtaLimit: real := 0.7

  /** Jets above three times the hard scale are outliers. */
  const OutlierFactor: real := 3.0

  /** The two skips at the top of the jet loop. */
  predicate AcceptJet(jet: Jet, r: int, hardScale: real) {
    !(RealAbs(jet.eta) > JetEtaLimit - JetRadius(r)) && !(jet.pt > OutlierFactor * hardScale)
  }

  /** A jet accepted at a larger radius is accepted at every smaller one. */
  lemma AcceptanceShrinksWithRadius(jet: Jet, r: int, r': int, hardScale: real)
    requires r' <= r && AcceptJet(jet, r, hardScale)
    ensures AcceptJet(jet, r', hardScale)
  {
  }

  /** The groomed momentum balance below which a jet counts as not groomed. */
  const GroomedZgMin: real := 0.1
  const RgSentinel: real := -0.01
  const NsdSentinel: real := -1.0

  /** The per-jet observables as filled: zg, rg, the number of groomed splittings and rg/R. */
  datatype JetObservables = JetObservables(zg: real, rg: real, nsd: real, thetag: real)

  /**
   * The sentinel substitution: below zg = 0.1 the angle, the splitting count and the scaled
   * angle are replaced by -0.01, -1 and -0.01.
   */
  function Observe(sd: SoftDropData, nIterative: nat, jetRadius: real): (o: JetObservables)
    requires jetRadius != 0.0
    ensures o.zg == sd.zg
    ensures sd.zg < GroomedZgMin ==> o.rg == RgSentinel && o.nsd == NsdSentinel && o.thetag == RgSentinel
    ensures sd.zg >= GroomedZgMin ==> o.rg == sd.rg && o.nsd == nIterative as real && o.thetag == sd.rg / jetRadius
  {
    if sd.zg < GroomedZgMin then JetObservables(sd.zg, RgSentinel, NsdSentinel, RgSentinel)
    else JetObservables(sd.zg, sd.rg, nIterative as real, sd.rg / jetRadius)
  }

  /**
   * The sentinels lie below every physical value: with a non-negative angle, each of rg, nsd
   * and rg/R is negative exactly when the jet was not groomed.
   */
  lemma SentinelsMarkUngroomed(sd: SoftDropData, nIterative: nat, jetRadius: real)
    requires jetRadius > 0.0 && sd.rg >= 0.0
    ensures var o := Observe(sd, nIterative, jetRadius);
            && (o.rg < 0.0 <==> sd.zg < GroomedZgMin)
            && (o.nsd < 0.0 <==> sd.zg < GroomedZgMin)
            && (o.thetag < 0.0 <==> sd.zg < GroomedZgMin)
  {
    if sd.zg >= GroomedZgMin {
      assert sd.rg / jetRadius >= 0.0;
    }
  }

  // ---------------------------------------------------------------------------------------
  // Fills of the weighted analyses (HepMC and Pythia).
  // ---------------------------------------------------------------------------------------

  /** One call histos.fill(proctype, histtype, R, pt, value, weight). */
  datatype WeightedCall = WeightedCall(category: Category, t: HistType, r: int, pt: real, value: real, weight: real)

  /**
   * Helper: what a call does to a built store, the entry Histos::fill records. The per-jet
   * lemmas below state the properties.
   */
  function AddressWeighted(calls: seq<WeightedCall>): (fills: seq<Addressed<HistType>>)
    ensures |fills| == |calls|
    ensures forall k :: 0 <= k < |calls| ==>
              fills[k] == Addressed(calls[k].r, calls[k].category, calls[k].t,
                                    Recorded(calls[k].t, calls[k].pt, calls[k].value, calls[k].weight))
  {
    seq(|calls|, k requires 0 <= k < |calls| =>
      Addressed(calls[k].r, calls[k].category, calls[k].t, Recorded(calls[k].t, calls[k].pt, calls[k].value, calls[k].weight)))
  }

  lemma AddressWeightedConcat(a: seq<WeightedCall>, b: seq<WeightedCall>)
    ensures AddressWeighted(a + b) == AddressWeighted(a) + AddressWeighted(b)
  {
    assert forall k :: 0 <= k < |a| ==> (a + b)[k] == a[k];
    assert forall k :: |a| <= k < |a + b| ==> (a + b)[k] == b[k - |a|];
  }

  /**
   * The four calls per observable, in the order of the source: weighted then absolute, for
   * all jets and then for the jet's category.
   */
  function WeightedGroup(category: Category, o: Observable, r: int, pt: real, value: real, weight: real): seq<WeightedCall> {
    [WeightedCall(AllJets, HistType(o, true), r, pt, value, weight),
     WeightedCall(AllJets, HistType(o, false), r, pt, value, 1.0),
     WeightedCall(category, HistType(o, true), r, pt, value, weight),
     WeightedCall(category, HistType(o, false), r, pt, value, 1.0)]
  }

  /**
   * The twenty fills of one accepted jet: spectrum, zg, rg, then the splitting count and rg/R.
   * The splitting count is filled into the rg histograms; the nsd histograms receive nothing.
   */
  function WeightedJetFills(category: Category, r: int, pt: real, o: JetObservables, weight: real): (calls: seq<WeightedCall>)
    ensures |calls| == 20
  {
    WeightedGroup(category, Spectrum, r, pt, 1.0, weight)
    + WeightedGroup(category, Zg, r, pt, o.zg, weight)
    + WeightedGroup(category, Rg, r, pt, o.rg, weight)
    + WeightedGroup(category, Rg, r, pt, o.nsd, weight)
    + WeightedGroup(category, Thetag, r, pt, o.thetag, weight)
  }

  /** The entries of a single fill. */
  function Matching<T(==)>(f: Addressed<T>, r: int, c: Category, t: T): seq<Entry> {
    if f.r == r && f.category == c && f.t == t then [f.entry] else []
  }

  lemma EntriesForTwo<T>(f0: Addressed<T>, f1: Addressed<T>, r: int, c: Category, t: T)
    ensures EntriesFor([f0, f1], r, c, t) == Matching(f0, r, c, t) + Matching(f1, r, c, t)
  {
    assert [f0][..0] == [];
    assert EntriesFor([f0], r, c, t) == Matching(f0, r, c, t);
    assert [f0, f1][..1] == [f0];
  }

  lemma EntriesForFour<T>(f0: Addressed<T>, f1: Addressed<T>, f2: Addressed<T>, f3: Addressed<T>, r: int, c: Category, t: T)
    ensures EntriesFor([f0, f1, f2, f3], r, c, t)
            == Matching(f0, r, c, t) + Matching(f1, r, c, t) + Matching(f2, r, c, t) + Matching(f3, r, c, t)
  {
    EntriesForTwo(f0, f1, r, c, t);
    EntriesForTwo(f2, f3, r, c, t);
    EntriesForConcat([f0, f1], [f2, f3], r, c, t);
    assert [f0, f1] + [f2, f3] == [f0, f1, f2, f3];
  }

  lemma EntriesForFive<T>(a1: seq<Addressed<T>>, a2: seq<Addressed<T>>, a3: seq<Addressed<T>>, a4: seq<Addressed<T>>,
                          a5: seq<Addressed<T>>, r: int, c: Category, t: T)
    ensures EntriesFor(a1 + a2 + a3 + a4 + a5, r, c, t)
            == EntriesFor(a1, r, c, t) + EntriesFor(a2, r, c, t) + EntriesFor(a3, r, c, t)
               + EntriesFor(a4, r, c, t) + EntriesFor(a5, r, c, t)
  {
    EntriesForConcat(a1, a2, r, c, t);
    EntriesForConcat(a1 + a2, a3, r, c, t);
    EntriesForConcat(a1 + a2 + a3, a4, r, c, t);
    EntriesForConcat(a1 + a2 + a3 + a4, a5, r, c, t);
  }

  /** The entries a group leaves in one histogram: one in All and one in the category. */
  lemma WeightedGroupEntries(category: Category, o: Observable, r: int, pt: real, value: real, weight: real,
                             r': int, c': Category, t': HistType)
    requires category != AllJets
    ensures EntriesFor(AddressWeighted(WeightedGroup(category, o, r, pt, value, weight)), r', c', t')
            == if (r' == r && (c' == AllJets || c' == category)) && t'.observable == o
               then [Recorded(t', pt, value, weight)] else []
  {
    var g := AddressWeighted(WeightedGroup(category, o, r, pt, value, weight));
    EntriesForFour(g[0], g[1], g[2], g[3], r', c', t');
    assert g == [g[0], g[1], g[2], g[3]];
    AbsIgnoresWeight(o, pt, value, 1.0, weight);
  }

  /** What one accepted jet's fills leave in each histogram of its radius. */
  function ExpectedWeighted(t: HistType, pt: real, o: JetObservables, weight: real): seq<Entry> {
    match t.observable
    case Spectrum => [Recorded(t, pt, 1.0, weight)]
    case Zg => [Recorded(t, pt, o.zg, weight)]
    case Rg => [Recorded(t, pt, o.rg, weight), Recorded(t, pt, o.nsd, weight)]
    case Nsd => []
    case Thetag => [Recorded(t, pt, o.thetag, weight)]
  }

  /** A jet's fills as its five groups. */
  lemma WeightedJetFillsSplit(category: Category, r: int, pt: real, o: JetObservables, weight: real)
    ensures AddressWeighted(WeightedJetFills(category, r, pt, o, weight))
            == AddressWeighted(WeightedGroup(category, Spectrum, r, pt, 1.0, weight))
               + AddressWeighted(WeightedGroup(category, Zg, r, pt, o.zg, weight))
               + AddressWeighted(WeightedGroup(category, Rg, r, pt, o.rg, weight))
               + AddressWeighted(WeightedGroup(category, Rg, r, pt, o.nsd, weight))
               + AddressWeighted(WeightedGroup(category, Thetag, r, pt, o.thetag, weight))
  {
    var g1 := WeightedGroup(category, Spectrum, r, pt, 1.0, weight);
    var g2 := WeightedGroup(category, Zg, r, pt, o.zg, weight);
    var g3 := WeightedGroup(category, Rg, r, pt, o.rg, weight);
    var g4 := WeightedGroup(category, Rg, r, pt, o.nsd, weight);
    var g5 := WeightedGroup(category, Thetag, r, pt, o.thetag, weight);
    AddressWeightedConcat(g1, g2);
    AddressWeightedConcat(g1 + g2, g3);
    AddressWeightedConcat(g1 + g2 + g3, g4);
    AddressWeightedConcat(g1 + g2 + g3 + g4, g5);
  }

  /** The entries of one jet's fills as the sum of its five groups' entries. */
  lemma WeightedJetEntriesSum(category: Category, r: int, pt: real, o: JetObservables, weight: real,
                              r': int, c': Category, t': HistType)
    ensures EntriesFor(AddressWeighted(WeightedJetFills(category, r, pt, o, weight)), r', c', t')
            == EntriesFor(AddressWeighted(WeightedGroup(category, Spectrum, r, pt, 1.0, weight)), r', c', t')
               + EntriesFor(AddressWeighted(WeightedGroup(category, Zg, r, pt, o.zg, weight)), r', c', t')
               + EntriesFor(AddressWeighted(WeightedGroup(category, Rg, r, pt, o.rg, weight)), r', c', t')
               + EntriesFor(AddressWeighted(WeightedGroup(category, Rg, r, pt, o.nsd, weight)), r', c', t')
               + EntriesFor(AddressWeighted(WeightedGroup(category, Thetag, r, pt, o.thetag, weight)), r', c', t')
  {
    WeightedJetFillsSplit(category, r, pt, o, weight);
    EntriesForFive(AddressWeighted(WeightedGroup(category, Spectrum, r, pt, 1.0, weight)),
                   AddressWeighted(WeightedGroup(category, Zg, r, pt, o.zg, weight)),
                   AddressWeighted(WeightedGroup(category, Rg, r, pt, o.rg, weight)),
                   AddressWeighted(WeightedGroup(category, Rg, r, pt, o.nsd, weight)),
                   AddressWeighted(WeightedGroup(category, Thetag, r, pt, o.thetag, weight)), r', c', t');
  }

  /**
   * Every accepted jet is filled once into All and once into its category for the spectrum,
   * zg and rg/R, twice (rg, then the splitting count) into rg, and never into nsd; nothing
   * reaches another radius or category.
   */
  lemma WeightedJetEntries(category: Category, r: int, pt: real, o: JetObservables, weight: real,
                           r': int, c': Category, t': HistType)
    requires category != AllJets
    ensures EntriesFor(AddressWeighted(WeightedJetFills(category, r, pt, o, weight)), r', c', t')
            == if r' == r && (c' == AllJets || c' == category) then ExpectedWeighted(t', pt, o, weight) else []
  {
    var cond := r' == r && (c' == AllJets || c' == category);
    WeightedJetEntriesByGroup(category, r, pt, o, weight, r', c', t');
    WeightedJetAssemble(cond, t', pt, o, weight,
                        if cond && t'.observable == Spectrum then [Recorded(t', pt, 1.0, weight)] else [],
                        if cond && t'.observable == Zg then [Recorded(t', pt, o.zg, weight)] else [],
                        if cond && t'.observable == Rg then [Recorded(t', pt, o.rg, weight)] else [],
                        if cond && t'.observable == Rg then [Recorded(t', pt, o.nsd, weight)] else [],
                        if cond && t'.observable == Thetag then [Recorded(t', pt, o.thetag, weight)] else []);
  }

  /** Each group's share of one histogram's entries. */
  lemma WeightedJetEntriesByGroup(category: Category, r: int, pt: real, o: JetObservables, weight: real,
                                  r': int, c': Category, t': HistType)
    requires category != AllJets
    ensures var cond := r' == r && (c' == AllJets || c' == category);
            EntriesFor(AddressWeighted(WeightedJetFills(category, r, pt, o, weight)), r', c', t')
            == (if cond && t'.observable == Spectrum then [Recorded(t', pt, 1.0, weight)] else [])
               + (if cond && t'.observable == Zg then [Recorded(t', pt, o.zg, weight)] else [])
               + (if cond && t'.observable == Rg then [Recorded(t', pt, o.rg, weight)] else [])
               + (if cond && t'.observable == Rg then [Recorded(t', pt, o.nsd, weight)] else [])
               + (if cond && t'.observable == Thetag then [Recorded(t', pt, o.thetag, weight)] else [])
  {
    WeightedJetEntriesSum(category, r, pt, o, weight, r', c', t');
    WeightedGroupEntries(category, Spectrum, r, pt, 1.0, weight, r', c', t');
    WeightedGroupEntries(category, Zg, r, pt, o.zg, weight, r', c', t');
    WeightedGroupEntries(category, Rg, r, pt, o.rg, weight, r', c', t');
    WeightedGroupEntries(category, Rg, r, pt, o.nsd, weight, r', c', t');
    WeightedGroupEntries(category, Thetag, r, pt, o.thetag, weight, r', c', t');
  }

  /** The five groups' entries together give the expected entries of one histogram. */
  lemma WeightedJetAssemble(cond: bool, t': HistType, pt: real, o: JetObservables, weight: real,
                            e1: seq<Entry>, e2: seq<Entry>, e3: seq<Entry>, e4: seq<Entry>, e5: seq<Entry>)
    requires e1 == if cond && t'.observable == Spectrum then [Recorded(t', pt, 1.0, weight)] else []
    requires e2 == if cond && t'.observable == Zg then [Recorded(t', pt, o.zg, weight)] else []
    requires e3 == if cond && t'.observable == Rg then [Recorded(t', pt, o.rg, weight)] else []
    requires e4 == if cond && t'.observable == Rg then [Recorded(t', pt, o.nsd, weight)] else []
    requires e5 == if cond && t'.observable == Thetag then [Recorded(t', pt, o.thetag, weight)] else []
    ensures e1 + e2 + e3 + e4 + e5 == if cond then ExpectedWeighted(t', pt, o, weight) else []
  {
    if cond && t'.observable == Rg {
      assert e3 + e4 == [Recorded(t', pt, o.rg, weight), Recorded(t', pt, o.nsd, weight)];
    }
  }


  /** The category of the jet's traced parton. */
  function JetCategoryOf(event: Event, tests: PartonTests, identity: Identity, jet: Jet): (c: Category)
    requires ValidEvent(event) && JetInEvent(event, jet)
    ensures c != AllJets
  {
    PartonOriginProperties(event, tests, identity, jet.constituents);
    JetCategory(event, tests, PartonOriginOf(event, tests, identity, jet.constituents))
  }

  predicate JetInEvent(event: Event, jet: Jet) {
    forall k :: 0 <= k < |jet.constituents| ==> jet.constituents[k] < |event|
  }

  /** The fills of one jet of radius R: none when a cut skips it. */
  function WeightedJetCalls(event: Event, tests: PartonTests, identity: Identity, jet: Jet, r: int,
                            hardScale: real, weight: real): seq<WeightedCall>
    requires ValidEvent(event) && JetInEvent(event, jet) && IsRadius(r)
  {
    if !AcceptJet(jet, r, hardScale) then []
    else
      var category := JetCategoryOf(event, tests, identity, jet);
      var sd := SoftDropResult(jet.symmetry, jet.groomedDeltaR, jet.droppedCount);
      var n := |Declustering(jet.reclustered, 0, JetRadius(r))|;
      WeightedJetFills(category, r, jet.pt, Observe(sd, n, JetRadius(r)), weight)
  }

  /** The fills of all jets of radius R, in jet order. */
  function WeightedJetsCalls(event: Event, tests: PartonTests, identity: Identity, jets: seq<Jet>, r: int,
                             hardScale: real, weight: real): seq<WeightedCall>
    requires ValidEvent(event) && (forall k :: 0 <= k < |jets| ==> JetInEvent(event, jets[k])) && IsRadius(r)
  {
    if jets == [] then []
    else WeightedJetsCalls(event, tests, identity, jets[..|jets| - 1], r, hardScale, weight)
         + WeightedJetCalls(event, tests, identity, jets[|jets| - 1], r, hardScale, weight)
  }

  /**
   * On a built store, an accepted jet of radius R adds to each histogram of radius R in All
   * and in its parton's category the entries ExpectedWeighted lists, and leaves every other
   * histogram as it was; a rejected jet leaves the store unchanged.
   */
  lemma JetWeightedHistograms(store: Store<HistType>, event: Event, tests: PartonTests, identity: Identity, jet: Jet,
                              r: int, hardScale: real, weight: real, r': int, c': Category, t': HistType)
    requires Complete(store, WeightedTypes) && ValidEvent(event) && JetInEvent(event, jet) && IsRadius(r) && IsRadius(r')
    ensures var after := ApplyFills(store, AddressWeighted(WeightedJetCalls(event, tests, identity, jet, r, hardScale, weight)));
            var sd := SoftDropResult(jet.symmetry, jet.groomedDeltaR, jet.droppedCount);
            var o := Observe(sd, |Declustering(jet.reclustered, 0, JetRadius(r))|, JetRadius(r));
            var category := JetCategoryOf(event, tests, identity, jet);
            Entries(after, r', c', t')
            == Entries(store, r', c', t')
               + (if AcceptJet(jet, r, hardScale) && r' == r && (c' == AllJets || c' == category)
                  then ExpectedWeighted(t', jet.pt, o, weight) else [])
  {
    var calls := WeightedJetCalls(event, tests, identity, jet, r, hardScale, weight);
    ApplyFillsEntries(store, AddressWeighted(calls), r', c', t');
    assert Observables[ObservableCode(t'.observable)] == t'.observable;
    assert t' in WeightedTypes;
    assert Built(store, r', c', t');
    if AcceptJet(jet, r, hardScale) {
      var sd := SoftDropResult(jet.symmetry, jet.groomedDeltaR, jet.droppedCount);
      var o := Observe(sd, |Declustering(jet.reclustered, 0, JetRadius(r))|, JetRadius(r));
      WeightedJetEntries(JetCategoryOf(event, tests, identity, jet), r, jet.pt, o, weight, r', c', t');
    } else {
      assert calls == [];
    }
  }

  /** histos.fill for each call in turn. */
  method ApplyWeightedCalls(histos: SoftDropHistograms, calls: seq<WeightedCall>)
    modifies histos
    ensures histos.data == ApplyFills(old(histos.data), AddressWeighted(calls))
    ensures histos.nevents == old(histos.nevents) && histos.averageWeight == old(histos.averageWeight)
    ensures histos.ktAbs == old(histos.ktAbs) && histos.ktWeighted == old(histos.ktWeighted)
  {
    var i := 0;
    while i < |calls|
      invariant i <= |calls|
      invariant histos.data == ApplyFills(old(histos.data), AddressWeighted(calls[..i]))
      invariant histos.nevents == old(histos.nevents) && histos.averageWeight == old(histos.averageWeight)
      invariant histos.ktAbs == old(histos.ktAbs) && histos.ktWeighted == old(histos.ktWeighted)
    {
      var call := calls[i];
      HistTypeCodeRoundTrip(call.t, 0);
      histos.Fill(CategoryCode(call.category), HistTypeCode(call.t), call.r, call.pt, call.value, call.weight);
      AddressWeightedConcat(calls[..i], [call]);
      assert calls[..i + 1] == calls[..i] + [call];
      var fills := AddressWeighted(calls[..i + 1]);
      assert fills[..|fills| - 1] == AddressWeighted(calls[..i]);
      i := i + 1;
    }
    assert calls[..i] == calls;
  }

  /** The jet loop of one radius in the HepMC and Pythia analyses. */
  method AnalyseJetsWeighted(histos: SoftDropHistograms, event: Event, tests: PartonTests, identity: Identity,
                             jets: seq<Jet>, r: int, hardScale: real, weight: real)
    requires ValidEvent(event) && (forall k :: 0 <= k < |jets| ==> JetInEvent(event, jets[k])) && IsRadius(r)
    modifies histos
    ensures histos.data == ApplyFills(old(histos.data),
                                      AddressWeighted(WeightedJetsCalls(event, tests, identity, jets, r, hardScale, weight)))
    ensures histos.nevents == old(histos.nevents) && histos.averageWeight == old(histos.averageWeight)
    ensures histos.ktAbs == old(histos.ktAbs) && histos.ktWeighted == old(histos.ktWeighted)
  {
    var i := 0;
    while i < |jets|
      invariant i <= |jets|
      invariant histos.data == ApplyFills(old(histos.data),
                                          AddressWeighted(WeightedJetsCalls(event, tests, identity, jets[..i], r, hardScale, weight)))
      invariant histos.nevents == old(histos.nevents) && histos.averageWeight == old(histos.averageWeight)
      invariant histos.ktAbs == old(histos.ktAbs) && histos.ktWeighted == old(histos.ktWeighted)
    {
      WeightedJetsStep(old(histos.data), event, tests, identity, jets, i, r, hardScale, weight);
      AnalyseJetWeighted(histos, event, tests, identity, jets[i], r, hardScale, weight);
      i := i + 1;
    }
    assert jets[..i] == jets;
  }

  /** Analysing one more jet applies that jet's fills after those of the jets before it. */
  lemma WeightedJetsStep(store: Store<HistType>, event: Event, tests: PartonTests, identity: Identity,
                         jets: seq<Jet>, i: nat, r: int, hardScale: real, weight: real)
    requires ValidEvent(event) && (forall k :: 0 <= k < |jets| ==> JetInEvent(event, jets[k])) && IsRadius(r)
    requires i < |jets|
    ensures ApplyFills(store, AddressWeighted(WeightedJetsCalls(event, tests, identity, jets[..i + 1], r, hardScale, weight)))
         == ApplyFills(ApplyFills(store, AddressWeighted(WeightedJetsCalls(event, tests, identity, jets[..i], r, hardScale, weight))),
                       AddressWeighted(WeightedJetCalls(event, tests, identity, jets[i], r, hardScale, weight)))
  {
    assert jets[..i + 1][..i] == jets[..i] && jets[..i + 1][i] == jets[i];
    var before := WeightedJetsCalls(event, tests, identity, jets[..i], r, hardScale, weight);
    var these := WeightedJetCalls(event, tests, identity, jets[i], r, hardScale, weight);
    assert WeightedJetsCalls(event, tests, identity, jets[..i + 1], r, hardScale, weight) == before + these;
    AddressWeightedConcat(before, these);
    ApplyFillsConcat(store, AddressWeighted(before), AddressWeighted(these));
  }

  /** One jet of the jet loop: rejected by the cuts, or traced, groomed and filled. */
  method AnalyseJetWeighted(histos: SoftDropHistograms, event: Event, tests: PartonTests, identity: Identity,
                            jet: Jet, r: int, hardScale: real, weight: real)
    requires ValidEvent(event) && JetInEvent(event, jet) && IsRadius(r)
    modifies histos
    ensures histos.data == ApplyFills(old(histos.data),
                                      AddressWeighted(WeightedJetCalls(event, tests, identity, jet, r, hardScale, weight)))
    ensures histos.nevents == old(histos.nevents) && histos.averageWeight == old(histos.averageWeight)
    ensures histos.ktAbs == old(histos.ktAbs) && histos.ktWeighted == old(histos.ktWeighted)
  {
    if !AcceptJet(jet, r, hardScale) {
      return;
    }
    var jetRadius := JetRadius(r);
    var parton := GetPartonOrigin(event, tests, identity, jet.constituents);
    PartonOriginProperties(event, tests, identity, jet.constituents);
    var category := JetCategory(event, tests, parton);
    var softdrop := SoftDropResult(jet.symmetry, jet.groomedDeltaR, jet.droppedCount);
    var iterative := IterativeSoftDrop(jet.reclustered, jetRadius);
    var observables := Observe(softdrop, |iterative|, jetRadius);
    ApplyWeightedCalls(histos, WeightedJetFills(category, r, jet.pt, observables, weight));
  }

  /** The jet radii of the analyses, R = 2..6. */
  function WeightedEventCalls(event: Event, tests: PartonTests, identity: Identity, jetsByRadius: seq<seq<Jet>>,
                              n: nat, hardScale: real, weight: real): seq<WeightedCall>
    requires ValidEvent(event) && n <= |jetsByRadius| <= 5
    requires forall i, k :: 0 <= i < |jetsByRadius| && 0 <= k < |jetsByRadius[i]| ==> JetInEvent(event, jetsByRadius[i][k])
  {
    if n == 0 then []
    else WeightedEventCalls(event, tests, identity, jetsByRadius, n - 1, hardScale, weight)
         + WeightedJetsCalls(event, tests, identity, jetsByRadius[n - 1], n + 1, hardScale, weight)
  }

  /**
   * One iteration of the event loop of the HepMC and Pythia analyses: the event is counted,
   * then the jets of each radius R = 2..6 (jetsByRadius[R-2]) are analysed. The hard scale is
   * the HepMC event scale or Pythia's pTHat; identity is by value for HepMC and by position in
   * the event table for Pythia.
   */
  method AnalyseEventWeighted(histos: SoftDropHistograms, event: Event, tests: PartonTests, identity: Identity,
                              jetsByRadius: seq<seq<Jet>>, hardScale: real, weight: real)
    requires ValidEvent(event) && |jetsByRadius| == 5
    requires forall i, k :: 0 <= i < 5 && 0 <= k < |jetsByRadius[i]| ==> JetInEvent(event, jetsByRadius[i][k])
    modifies histos
    ensures histos.data == ApplyFills(old(histos.data),
                                      AddressWeighted(WeightedEventCalls(event, tests, identity, jetsByRadius, 5, hardScale, weight)))
    ensures histos.nevents == old(histos.nevents) + [Fill1D(1.0, 1.0)]
    ensures histos.averageWeight == old(histos.averageWeight) + [Fill2D(1.0, weight, 1.0)]
    ensures histos.ktAbs == old(histos.ktAbs) + [Fill1D(hardScale, 1.0)]
    ensures histos.ktWeighted == old(histos.ktWeighted) + [Fill1D(hardScale, weight)]
  {
    histos.CountEvent(hardScale, weight);
    ghost var start := histos.data;
    var r := 2;
    while r < 7
      invariant 2 <= r <= 7
      invariant histos.data == ApplyFills(start,
                                          AddressWeighted(WeightedEventCalls(event, tests, identity, jetsByRadius, r - 2, hardScale, weight)))
      invariant histos.nevents == old(histos.nevents) + [Fill1D(1.0, 1.0)]
      invariant histos.averageWeight == old(histos.averageWeight) + [Fill2D(1.0, weight, 1.0)]
      invariant histos.ktAbs == old(histos.ktAbs) + [Fill1D(hardScale, 1.0)]
      invariant histos.ktWeighted == old(histos.ktWeighted) + [Fill1D(hardScale, weight)]
    {
      ghost var before := WeightedEventCalls(event, tests, identity, jetsByRadius, r - 2, hardScale, weight);
      ghost var these := WeightedJetsCalls(event, tests, identity, jetsByRadius[r - 2], r, hardScale, weight);
      AnalyseJetsWeighted(histos, event, tests, identity, jetsByRadius[r - 2], r, hardScale, weight);
      AddressWeightedConcat(before, these);
      ApplyFillsConcat(start, AddressWeighted(before), AddressWeighted(these));
      r := r + 1;
    }
  }

  // ---------------------------------------------------------------------------------------
  // Fills of the K0/pi0 analysis: unweighted, and the splitting count goes to nsd.
  // ---------------------------------------------------------------------------------------

  /** One call histos.fill(proctype, histtype, R, pt, value). */
  datatype UnweightedCall = UnweightedCall(category: Category, o: Observable, r: int, pt: real, value: real)

  /** Helper: the entries the pi0/K0 Histos::fill records; the per-jet lemmas state the properties. */
  function AddressUnweighted(calls: seq<UnweightedCall>): (fills: seq<Addressed<Observable>>)
    ensures |fills| == |calls|
    ensures forall k :: 0 <= k < |calls| ==>
              fills[k] == Addressed(calls[k].r, calls[k].category, calls[k].o,
                                    RecordedUnweighted(calls[k].o, calls[k].pt, calls[k].value))
  {
    seq(|calls|, k requires 0 <= k < |calls| =>
      Addressed(calls[k].r, calls[k].category, calls[k].o, RecordedUnweighted(calls[k].o, calls[k].pt, calls[k].value)))
  }

  lemma AddressUnweightedConcat(a: seq<UnweightedCall>, b: seq<UnweightedCall>)
    ensures AddressUnweighted(a + b) == AddressUnweighted(a) + AddressUnweighted(b)
  {
    assert forall k :: 0 <= k < |a| ==> (a + b)[k] == a[k];
    assert forall k :: |a| <= k < |a + b| ==> (a + b)[k] == b[k - |a|];
  }

  /** The two calls per observable: all jets, then the jet's category. */
  function UnweightedPair(category: Category, o: Observable, r: int, pt: real, value: real): seq<UnweightedCall> {
    [UnweightedCall(AllJets, o, r, pt, value), UnweightedCall(category, o, r, pt, value)]
  }

  /** The ten fills of one accepted jet; here the splitting count goes to nsd. */
  function UnweightedJetFills(category: Category, r: int, pt: real, o: JetObservables): (calls: seq<UnweightedCall>)
    ensures |calls| == 10
  {
    UnweightedPair(category, Spectrum, r, pt, 1.0)
    + UnweightedPair(category, Zg, r, pt, o.zg)
    + UnweightedPair(category, Rg, r, pt, o.rg)
    + UnweightedPair(category, Nsd, r, pt, o.nsd)
    + UnweightedPair(category, Thetag, r, pt, o.thetag)
  }

  function ObservedValue(o: Observable, obs: JetObservables): real {
    match o
    case Spectrum => 1.0
    case Zg => obs.zg
    case Rg => obs.rg
    case Nsd => obs.nsd
    case Thetag => obs.thetag
  }

  lemma UnweightedPairEntries(category: Category, o: Observable, r: int, pt: real, value: real,
                              r': int, c': Category, o': Observable)
    requires category != AllJets
    ensures EntriesFor(AddressUnweighted(UnweightedPair(category, o, r, pt, value)), r', c', o')
            == if r' == r && o' == o && (c' == AllJets || c' == category)
               then [RecordedUnweighted(o, pt, value)] else []
  {
    var g := AddressUnweighted(UnweightedPair(category, o, r, pt, value));
    EntriesForTwo(g[0], g[1], r', c', o');
    assert g == [g[0], g[1]];
  }

  lemma UnweightedJetFillsSplit(category: Category, r: int, pt: real, obs: JetObservables)
    ensures AddressUnweighted(UnweightedJetFills(category, r, pt, obs))
            == AddressUnweighted(UnweightedPair(category, Spectrum, r, pt, 1.0))
               + AddressUnweighted(UnweightedPair(category, Zg, r, pt, obs.zg))
               + AddressUnweighted(UnweightedPair(category, Rg, r, pt, obs.rg))
               + AddressUnweighted(UnweightedPair(category, Nsd, r, pt, obs.nsd))
               + AddressUnweighted(UnweightedPair(category, Thetag, r, pt, obs.thetag))
  {
    var g1 := UnweightedPair(category, Spectrum, r, pt, 1.0);
    var g2 := UnweightedPair(category, Zg, r, pt, obs.zg);
    var g3 := UnweightedPair(category, Rg, r, pt, obs.rg);
    var g4 := UnweightedPair(category, Nsd, r, pt, obs.nsd);
    var g5 := UnweightedPair(category, Thetag, r, pt, obs.thetag);
    AddressUnweightedConcat(g1, g2);
    AddressUnweightedConcat(g1 + g2, g3);
    AddressUnweightedConcat(g1 + g2 + g3, g4);
    AddressUnweightedConcat(g1 + g2 + g3 + g4, g5);
  }

  lemma UnweightedJetEntriesSum(category: Category, r: int, pt: real, obs: JetObservables,
                                r': int, c': Category, o': Observable)
    ensures EntriesFor(AddressUnweighted(UnweightedJetFills(category, r, pt, obs)), r', c', o')
            == EntriesFor(AddressUnweighted(UnweightedPair(category, Spectrum, r, pt, 1.0)), r', c', o')
               + EntriesFor(AddressUnweighted(UnweightedPair(category, Zg, r, pt, obs.zg)), r', c', o')
               + EntriesFor(AddressUnweighted(UnweightedPair(category, Rg, r, pt, obs.rg)), r', c', o')
               + EntriesFor(AddressUnweighted(UnweightedPair(category, Nsd, r, pt, obs.nsd)), r', c', o')
               + EntriesFor(AddressUnweighted(UnweightedPair(category, Thetag, r, pt, obs.thetag)), r', c', o')
  {
    UnweightedJetFillsSplit(category, r, pt, obs);
    EntriesForFive(AddressUnweighted(UnweightedPair(category, Spectrum, r, pt, 1.0)),
                   AddressUnweighted(UnweightedPair(category, Zg, r, pt, obs.zg)),
                   AddressUnweighted(UnweightedPair(category, Rg, r, pt, obs.rg)),
                   AddressUnweighted(UnweightedPair(category, Nsd, r, pt, obs.nsd)),
                   AddressUnweighted(UnweightedPair(category, Thetag, r, pt, obs.thetag)), r', c', o');
  }

  /** What each of the five pairs of calls leaves in one histogram. */
  lemma UnweightedJetEntriesParts(category: Category, r: int, pt: real, obs: JetObservables,
                                  r': int, c': Category, o': Observable)
    requires category != AllJets
    ensures var here := r' == r && (c' == AllJets || c' == category);
            EntriesFor(AddressUnweighted(UnweightedJetFills(category, r, pt, obs)), r', c', o')
            == (if here && o' == Spectrum then [RecordedUnweighted(Spectrum, pt, 1.0)] else [])
               + (if here && o' == Zg then [RecordedUnweighted(Zg, pt, obs.zg)] else [])
               + (if here && o' == Rg then [RecordedUnweighted(Rg, pt, obs.rg)] else [])
               + (if here && o' == Nsd then [RecordedUnweighted(Nsd, pt, obs.nsd)] else [])
               + (if here && o' == Thetag then [RecordedUnweighted(Thetag, pt, obs.thetag)] else [])
  {
    UnweightedJetEntriesSum(category, r, pt, obs, r', c', o');
    UnweightedPairEntries(category, Spectrum, r, pt, 1.0, r', c', o');
    UnweightedPairEntries(category, Zg, r, pt, obs.zg, r', c', o');
    UnweightedPairEntries(category, Rg, r, pt, obs.rg, r', c', o');
    UnweightedPairEntries(category, Nsd, r, pt, obs.nsd, r', c', o');
    UnweightedPairEntries(category, Thetag, r, pt, obs.thetag, r', c', o');
  }
  /**
   * Every accepted jet puts exactly one unweighted entry into each of the five histograms of
   * All and of its category at its radius, and nothing anywhere else.
   */
  lemma UnweightedJetEntries(category: Category, r: int, pt: real, obs: JetObservables,
                             r': int, c': Category, o': Observable)
    requires category != AllJets
    ensures EntriesFor(AddressUnweighted(UnweightedJetFills(category, r, pt, obs)), r', c', o')
            == if r' == r && (c' == AllJets || c' == category)
               then [RecordedUnweighted(o', pt, ObservedValue(o', obs))] else []
  {
    match o'
    case Spectrum => UnweightedJetEntriesParts(category, r, pt, obs, r', c', o');
    case Zg => UnweightedJetEntriesParts(category, r, pt, obs, r', c', o');
    case Rg => UnweightedJetEntriesParts(category, r, pt, obs, r', c', o');
    case Nsd => UnweightedJetEntriesParts(category, r, pt, obs, r', c', o');
    case Thetag => UnweightedJetEntriesParts(category, r, pt, obs, r', c', o');
  }



  function UnweightedJetCalls(event: Event, tests: PartonTests, identity: Identity, jet: Jet, r: int,
                              hardScale: real): seq<UnweightedCall>
    requires ValidEvent(event) && JetInEvent(event, jet) && IsRadius(r)
  {
    if !AcceptJet(jet, r, hardScale) then []
    else
      var category := JetCategoryOf(event, tests, identity, jet);
      var sd := SoftDropResult(jet.symmetry, jet.groomedDeltaR, jet.droppedCount);
      var n := |Declustering(jet.reclustered, 0, JetRadius(r))|;
      UnweightedJetFills(category, r, jet.pt, Observe(sd, n, JetRadius(r)))
  }

  function UnweightedJetsCalls(event: Event, tests: PartonTests, identity: Identity, jets: seq<Jet>, r: int,
                               hardScale: real): seq<UnweightedCall>
    requires ValidEvent(event) && (forall k :: 0 <= k < |jets| ==> JetInEvent(event, jets[k])) && IsRadius(r)
  {
    if jets == [] then []
    else UnweightedJetsCalls(event, tests, identity, jets[..|jets| - 1], r, hardScale)
         + UnweightedJetCalls(event, tests, identity, jets[|jets| - 1], r, hardScale)
  }

  /** The K0/pi0 analysis' counterpart: one entry per histogram of All and of the category. */
  lemma JetUnweightedHistograms(store: Store<Observable>, event: Event, tests: PartonTests, jet: Jet,
                                r: int, hardScale: real, r': int, c': Category, o': Observable)
    requires Complete(store, UnweightedTypes) && ValidEvent(event) && JetInEvent(event, jet) && IsRadius(r) && IsRadius(r')
    ensures var after := ApplyFills(store, AddressUnweighted(UnweightedJetCalls(event, tests, ByIndex, jet, r, hardScale)));
            var sd := SoftDropResult(jet.symmetry, jet.groomedDeltaR, jet.droppedCount);
            var o := Observe(sd, |Declustering(jet.reclustered, 0, JetRadius(r))|, JetRadius(r));
            var category := JetCategoryOf(event, tests, ByIndex, jet);
            Entries(after, r', c', o')
            == Entries(store, r', c', o')
               + (if AcceptJet(jet, r, hardScale) && r' == r && (c' == AllJets || c' == category)
                  then [RecordedUnweighted(o', jet.pt, ObservedValue(o', o))] else [])
  {
    var calls := UnweightedJetCalls(event, tests, ByIndex, jet, r, hardScale);
    ApplyFillsEntries(store, AddressUnweighted(calls), r', c', o');
    assert Observables[ObservableCode(o')] == o';
    assert Built(store, r', c', o');
    if AcceptJet(jet, r, hardScale) {
      var sd := SoftDropResult(jet.symmetry, jet.groomedDeltaR, jet.droppedCount);
      var o := Observe(sd, |Declustering(jet.reclustered, 0, JetRadius(r))|, JetRadius(r));
      UnweightedJetEntries(JetCategoryOf(event, tests, ByIndex, jet), r, jet.pt, o, r', c', o');
    } else {
      assert calls == [];
    }
  }

  method ApplyUnweightedCalls(histos: K0Histograms, calls: seq<UnweightedCall>)
    modifies histos
    ensures histos.data == ApplyFills(old(histos.data), AddressUnweighted(calls))
    ensures histos.nevents == old(histos.nevents) && histos.crossSection == old(histos.crossSection)
    ensures histos.trials == old(histos.trials) && histos.ptHard == old(histos.ptHard)
    ensures histos.eventScale == old(histos.eventScale)
    ensures histos.pi0Spectrum == old(histos.pi0Spectrum) && histos.k0Spectrum == old(histos.k0Spectrum)
  {
    var i := 0;
    while i < |calls|
      invariant i <= |calls|
      invariant histos.data == ApplyFills(old(histos.data), AddressUnweighted(calls[..i]))
      invariant histos.nevents == old(histos.nevents) && histos.crossSection == old(histos.crossSection)
      invariant histos.trials == old(histos.trials) && histos.ptHard == old(histos.ptHard)
      invariant histos.eventScale == old(histos.eventScale)
      invariant histos.pi0Spectrum == old(histos.pi0Spectrum) && histos.k0Spectrum == old(histos.k0Spectrum)
    {
      var call := calls[i];
      histos.Fill(CategoryCode(call.category), ObservableCode(call.o), call.r, call.pt, call.value);
      AddressUnweightedConcat(calls[..i], [call]);
      assert calls[..i + 1] == calls[..i] + [call];
      var fills := AddressUnweighted(calls[..i + 1]);
      assert fills[..|fills| - 1] == AddressUnweighted(calls[..i]);
      i := i + 1;
    }
    assert calls[..i] == calls;
  }

  /** The jet loop of one radius in the K0/pi0 analysis. */
  method AnalyseJetsUnweighted(histos: K0Histograms, event: Event, tests: PartonTests, identity: Identity,
                               jets: seq<Jet>, r: int, hardScale: real)
    requires ValidEvent(event) && (forall k :: 0 <= k < |jets| ==> JetInEvent(event, jets[k])) && IsRadius(r)
    modifies histos
    ensures histos.data == ApplyFills(old(histos.data),
                                      AddressUnweighted(UnweightedJetsCalls(event, tests, identity, jets, r, hardScale)))
    ensures histos.nevents == old(histos.nevents) && histos.crossSection == old(histos.crossSection)
    ensures histos.trials == old(histos.trials) && histos.ptHard == old(histos.ptHard)
    ensures histos.eventScale == old(histos.eventScale)
    ensures histos.pi0Spectrum == old(histos.pi0Spectrum) && histos.k0Spectrum == old(histos.k0Spectrum)
  {
    var i := 0;
    while i < |jets|
      invariant i <= |jets|
      invariant histos.data == ApplyFills(old(histos.data),
                                          AddressUnweighted(UnweightedJetsCalls(event, tests, identity, jets[..i], r, hardScale)))
      invariant histos.nevents == old(histos.nevents) && histos.crossSection == old(histos.crossSection)
      invariant histos.trials == old(histos.trials) && histos.ptHard == old(histos.ptHard)
      invariant histos.eventScale == old(histos.eventScale)
      invariant histos.pi0Spectrum == old(histos.pi0Spectrum) && histos.k0Spectrum == old(histos.k0Spectrum)
    {
      UnweightedJetsStep(old(histos.data), event, tests, identity, jets, i, r, hardScale);
      AnalyseJetUnweighted(histos, event, tests, identity, jets[i], r, hardScale);
      i := i + 1;
    }
    assert jets[..i] == jets;
  }

  /** Analysing one more jet applies that jet's fills after those of the jets before it. */
  lemma UnweightedJetsStep(store: Store<Observable>, event: Event, tests: PartonTests, identity: Identity,
                           jets: seq<Jet>, i: nat, r: int, hardScale: real)
    requires ValidEvent(event) && (forall k :: 0 <= k < |jets| ==> JetInEvent(event, jets[k])) && IsRadius(r)
    requires i < |jets|
    ensures ApplyFills(store, AddressUnweighted(UnweightedJetsCalls(event, tests, identity, jets[..i + 1], r, hardScale)))
         == ApplyFills(ApplyFills(store, AddressUnweighted(UnweightedJetsCalls(event, tests, identity, jets[..i], r, hardScale))),
                       AddressUnweighted(UnweightedJetCalls(event, tests, identity, jets[i], r, hardScale)))
  {
    assert jets[..i + 1][..i] == jets[..i] && jets[..i + 1][i] == jets[i];
    var before := UnweightedJetsCalls(event, tests, identity, jets[..i], r, hardScale);
    var these := UnweightedJetCalls(event, tests, identity, jets[i], r, hardScale);
    assert UnweightedJetsCalls(event, tests, identity, jets[..i + 1], r, hardScale) == before + these;
    AddressUnweightedConcat(before, these);
    ApplyFillsConcat(store, AddressUnweighted(before), AddressUnweighted(these));
  }

  /** One jet of the K0/pi0 jet loop. */
  method AnalyseJetUnweighted(histos: K0Histograms, event: Event, tests: PartonTests, identity: Identity,
                              jet: Jet, r: int, hardScale: real)
    requires ValidEvent(event) && JetInEvent(event, jet) && IsRadius(r)
    modifies histos
    ensures histos.data == ApplyFills(old(histos.data),
                                      AddressUnweighted(UnweightedJetCalls(event, tests, identity, jet, r, hardScale)))
    ensures histos.nevents == old(histos.nevents) && histos.crossSection == old(histos.crossSection)
    ensures histos.trials == old(histos.trials) && histos.ptHard == old(histos.ptHard)
    ensures histos.eventScale == old(histos.eventScale)
    ensures histos.pi0Spectrum == old(histos.pi0Spectrum) && histos.k0Spectrum == old(histos.k0Spectrum)
  {
    if !AcceptJet(jet, r, hardScale) {
      return;
    }
    var jetRadius := JetRadius(r);
    var parton := GetPartonOrigin(event, tests, identity, jet.constituents);
    PartonOriginProperties(event, tests, identity, jet.constituents);
    var category := JetCategory(event, tests, parton);
    var softdrop := SoftDropResult(jet.symmetry, jet.groomedDeltaR, jet.droppedCount);
    var iterative := IterativeSoftDrop(jet.reclustered, jetRadius);
    var observables := Observe(softdrop, |iterative|, jetRadius);
    ApplyUnweightedCalls(histos, UnweightedJetFills(category, r, jet.pt, observables));
  }

  /** The codes of the neutral pion and the K0 short. */
  const Pi0: int := 111
  const K0Short: int := 310

  /** The transverse momenta of the selected particles with |id| = code, in selection order. */
  function SpeciesSpectrum(event: Event, selected: seq<nat>, code: int): seq<Entry>
    requires forall k :: 0 <= k < |selected| ==> selected[k] < |event|
  {
    if selected == [] then []
    else
      var p := event[selected[|selected| - 1]];
      SpeciesSpectrum(event, selected[..|selected| - 1], code) + (if Abs(p.id) == code then [Fill1D(p.pt, 1.0)] else [])
  }

  /** The number of selected particles of a species, and the unit weight of their entries. */
  lemma {:induction false} SpeciesSpectrumCount(event: Event, selected: seq<nat>, code: int)
    requires forall k :: 0 <= k < |selected| ==> selected[k] < |event|
    ensures |SpeciesSpectrum(event, selected, code)| == |set k | 0 <= k < |selected| && Abs(event[selected[k]].id) == code|
    ensures forall e :: e in SpeciesSpectrum(event, selected, code) ==>
              e.Fill1D? && e.w == 1.0 && exists k :: 0 <= k < |selected| && Abs(event[selected[k]].id) == code && e.x == event[selected[k]].pt
  {
    SpeciesSpectrumLength(event, selected, code);
    SpeciesSpectrumEntries(event, selected, code);
  }

  lemma {:induction false} SpeciesSpectrumLength(event: Event, selected: seq<nat>, code: int)
    requires forall k :: 0 <= k < |selected| ==> selected[k] < |event|
    ensures |SpeciesSpectrum(event, selected, code)| == |set k | 0 <= k < |selected| && Abs(event[selected[k]].id) == code|
    decreases |selected|
  {
    if selected != [] {
      var n := |selected| - 1;
      var init := selected[..n];
      SpeciesSpectrumLength(event, init, code);
      SpeciesPositionsSnoc(event, selected, code);
    }
  }

  /** The positions of a species among the selected particles, one more particle at a time. */
  lemma SpeciesPositionsSnoc(event: Event, selected: seq<nat>, code: int)
    requires forall k :: 0 <= k < |selected| ==> selected[k] < |event|
    requires selected != []
    ensures var n := |selected| - 1;
            |set k | 0 <= k < |selected| && Abs(event[selected[k]].id) == code|
            == |set k | 0 <= k < n && Abs(event[selected[..n][k]].id) == code|
               + (if Abs(event[selected[n]].id) == code then 1 else 0)
  {
    var n := |selected| - 1;
    var last: set<int> := if Abs(event[selected[n]].id) == code then {n} else {};
    SpeciesPositionsSplit(event, selected, code);
    DisjointCount((set k | 0 <= k < n && Abs(event[selected[..n][k]].id) == code), last);
  }

  lemma SpeciesPositionsSplit(event: Event, selected: seq<nat>, code: int)
    requires forall k :: 0 <= k < |selected| ==> selected[k] < |event|
    requires selected != []
    ensures var n := |selected| - 1;
            (set k | 0 <= k < |selected| && Abs(event[selected[k]].id) == code)
            == (set k | 0 <= k < n && Abs(event[selected[..n][k]].id) == code)
               + (if Abs(event[selected[n]].id) == code then {n} else {})
  {
    var n := |selected| - 1;
    var init := selected[..n];
    var before := set k | 0 <= k < n && Abs(event[init[k]].id) == code;
    var after := set k | 0 <= k < |selected| && Abs(event[selected[k]].id) == code;
    var last: set<int> := if Abs(event[selected[n]].id) == code then {n} else {};
    forall k
      ensures k in after <==> k in before || k in last
    {
      if 0 <= k < n {
        assert init[k] == selected[k];
      }
    }
  }

  lemma DisjointCount(a: set<int>, b: set<int>)
    requires forall x :: x in b ==> x !in a
    ensures |a + b| == |a| + |b|
  {
    assert a * b == {} by {
      forall x | x in a * b
        ensures false
      {
      }
    }
  }

  lemma {:induction false} SpeciesSpectrumEntries(event: Event, selected: seq<nat>, code: int)
    requires forall k :: 0 <= k < |selected| ==> selected[k] < |event|
    ensures forall e :: e in SpeciesSpectrum(event, selected, code) ==>
              e.Fill1D? && e.w == 1.0 && exists k :: 0 <= k < |selected| && Abs(event[selected[k]].id) == code && e.x == event[selected[k]].pt
    decreases |selected|
  {
    if selected != [] {
      var n := |selected| - 1;
      var init := selected[..n];
      SpeciesSpectrumEntries(event, init, code);
      forall e | e in SpeciesSpectrum(event, selected, code)
        ensures e.Fill1D? && e.w == 1.0
        ensures exists k :: 0 <= k < |selected| && Abs(event[selected[k]].id) == code && e.x == event[selected[k]].pt
      {
        if e in SpeciesSpectrum(event, init, code) {
          var k :| 0 <= k < n && Abs(event[init[k]].id) == code && e.x == event[init[k]].pt;
          assert selected[k] == init[k];
        } else {
          assert Abs(event[selected[n]].id) == code && e.x == event[selected[n]].pt;
        }
      }
    }
  }

  /** The pi0 and K0 spectra of the selected constituents. */
  method FillConstituentSpectra(histos: K0Histograms, event: Event, selected: seq<nat>)
    requires forall k :: 0 <= k < |selected| ==> selected[k] < |event|
    modifies histos
    ensures histos.pi0Spectrum == old(histos.pi0Spectrum) + SpeciesSpectrum(event, selected, Pi0)
    ensures histos.k0Spectrum == old(histos.k0Spectrum) + SpeciesSpectrum(event, selected, K0Short)
    ensures histos.data == old(histos.data)
    ensures histos.nevents == old(histos.nevents) && histos.crossSection == old(histos.crossSection)
    ensures histos.trials == old(histos.trials) && histos.ptHard == old(histos.ptHard)
    ensures histos.eventScale == old(histos.eventScale)
  {
    var i := 0;
    while i < |selected|
      invariant i <= |selected|
      invariant histos.pi0Spectrum == old(histos.pi0Spectrum) + SpeciesSpectrum(event, selected[..i], Pi0)
      invariant histos.k0Spectrum == old(histos.k0Spectrum) + SpeciesSpectrum(event, selected[..i], K0Short)
      invariant histos.data == old(histos.data)
      invariant histos.nevents == old(histos.nevents) && histos.crossSection == old(histos.crossSection)
      invariant histos.trials == old(histos.trials) && histos.ptHard == old(histos.ptHard)
      invariant histos.eventScale == old(histos.eventScale)
    {
      var part := event[selected[i]];
      assert selected[..i + 1][..i] == selected[..i];
      if Abs(part.id) == Pi0 {
        histos.FillPi0(part.pt);
      }
      if Abs(part.id) == K0Short {
        histos.FillK0(part.pt);
      }
      i := i + 1;
    }
    assert selected[..i] == selected;
  }

  /** The azimuthal window of the K0/pi0 analysis: the EMCal one when cutting, none otherwise. */
  function PhiWindow(cutPhiPart: bool): (window: (real, real))
    ensures cutPhiPart ==> window == (EmcalPhiMin, EmcalPhiMax)
    ensures !cutPhiPart ==> window.0 < 0.0 && window.1 < 0.0
  {
    if cutPhiPart then (EmcalPhiMin, EmcalPhiMax) else (-1.0, -1.0)
  }

  /** Without the cut the K0/pi0 selection is the Pythia analysis' selection. */
  lemma NoWindowNoPhiCut(p: Particle)
    ensures var w := PhiWindow(false);
            Selected(Pythia, p, w.0, w.1) == Selected(Pythia, p, -1.0, -1.0)
    ensures var w := PhiWindow(true);
            Selected(Pythia, p, w.0, w.1) <==> Selected(Pythia, p, -1.0, -1.0) && EmcalPhiMin <= p.phi <= EmcalPhiMax
  {
  }

  function UnweightedEventCalls(event: Event, tests: PartonTests, identity: Identity, jetsByRadius: seq<seq<Jet>>,
                                n: nat, hardScale: real): seq<UnweightedCall>
    requires ValidEvent(event) && n <= |jetsByRadius| <= 5
    requires forall i, k :: 0 <= i < |jetsByRadius| && 0 <= k < |jetsByRadius[i]| ==> JetInEvent(event, jetsByRadius[i][k])
  {
    if n == 0 then []
    else UnweightedEventCalls(event, tests, identity, jetsByRadius, n - 1, hardScale)
         + UnweightedJetsCalls(event, tests, identity, jetsByRadius[n - 1], n + 1, hardScale)
  }

  /**
   * One iteration of the K0/pi0 event loop: count the event at its pt-hard bin, select the
   * particles within the EMCal window, fill the pi0 and K0 spectra, then analyse the jets of
   * each radius with the pt-hard scale as outlier threshold. Returns the selection.
   */
  method AnalyseEventK0(histos: K0Histograms, event: Event, tests: PartonTests, jetsByRadius: seq<seq<Jet>>,
                        ptHardBin: int, scale: real, hardPt: real, xsec: real, ntrials: int)
    returns (selected: seq<nat>)
    requires ValidEvent(event) && |jetsByRadius| == 5
    requires forall i, k :: 0 <= i < 5 && 0 <= k < |jetsByRadius[i]| ==> JetInEvent(event, jetsByRadius[i][k])
    modifies histos
    ensures forall i :: 0 <= i < |event| ==> (i in selected <==> Selected(Pythia, event[i], EmcalPhiMin, EmcalPhiMax))
    ensures forall k :: 0 <= k < |selected| ==> selected[k] < |event|
    ensures histos.pi0Spectrum == old(histos.pi0Spectrum) + SpeciesSpectrum(event, selected, Pi0)
    ensures histos.k0Spectrum == old(histos.k0Spectrum) + SpeciesSpectrum(event, selected, K0Short)
    ensures histos.data == ApplyFills(old(histos.data),
                                      AddressUnweighted(UnweightedEventCalls(event, tests, ByIndex, jetsByRadius, 5, hardPt)))
    ensures histos.nevents == old(histos.nevents) + [Fill1D(ptHardBin as real, 1.0)]
    ensures histos.crossSection == old(histos.crossSection) + [Fill2D(ptHardBin as real, xsec, 1.0)]
    ensures histos.trials == old(histos.trials) + [Fill1D(ptHardBin as real, ntrials as real)]
    ensures histos.ptHard == old(histos.ptHard) + [Fill1D(hardPt, 1.0)]
    ensures histos.eventScale == old(histos.eventScale) + [Fill1D(scale, 1.0)]
  {
    histos.CountEvent(ptHardBin, scale, hardPt, xsec, ntrials);
    var window := PhiWindow(true);
    selected := SelectParticles(event, Pythia, window.0, window.1);
    FillConstituentSpectra(histos, event, selected);
    ghost var start := histos.data;
    var r := 2;
    while r < 7
      invariant 2 <= r <= 7
      invariant histos.data == ApplyFills(start,
                                          AddressUnweighted(UnweightedEventCalls(event, tests, ByIndex, jetsByRadius, r - 2, hardPt)))
      invariant histos.pi0Spectrum == old(histos.pi0Spectrum) + SpeciesSpectrum(event, selected, Pi0)
      invariant histos.k0Spectrum == old(histos.k0Spectrum) + SpeciesSpectrum(event, selected, K0Short)
      invariant histos.nevents == old(histos.nevents) + [Fill1D(ptHardBin as real, 1.0)]
      invariant histos.crossSection == old(histos.crossSection) + [Fill2D(ptHardBin as real, xsec, 1.0)]
      invariant histos.trials == old(histos.trials) + [Fill1D(ptHardBin as real, ntrials as real)]
      invariant histos.ptHard == old(histos.ptHard) + [Fill1D(hardPt, 1.0)]
      invariant histos.eventScale == old(histos.eventScale) + [Fill1D(scale, 1.0)]
    {
      ghost var before := UnweightedEventCalls(event, tests, ByIndex, jetsByRadius, r - 2, hardPt);
      ghost var these := UnweightedJetsCalls(event, tests, ByIndex, jetsByRadius[r - 2], r, hardPt);
      AnalyseJetsUnweighted(histos, event, tests, ByIndex, jetsByRadius[r - 2], r, hardPt);
      AddressUnweightedConcat(before, these);
      ApplyFillsConcat(start, AddressUnweighted(before), AddressUnweighted(these));
      r := r + 1;
    }
  }

  // ---------------------------------------------------------------------------------------
  // Event-count policy and the pt-hard bins.
  // ---------------------------------------------------------------------------------------

  /**
   * The HepMC loop's count: events are read until the file ends; after each one the counter
   * is incremented and, when maxevents > -1, the loop stops once the counter reaches
   * maxevents. The test comes after the first event, so maxevents = 0 still processes one.
   */
  function HepMCEventsProcessed(available: nat, maxevents: int): nat {
    if maxevents > -1 && available > 0 then
      (if maxevents <= 1 then 1 else if maxevents < available then maxevents else available)
    else available
  }

  /** The HepMC event loop's control flow, over a file holding `available` events. */
  method HepMCEventLoop(available: nat, maxevents: int) returns (processed: nat)
    ensures processed == HepMCEventsProcessed(available, maxevents)
  {
    var remaining := available;
    processed := 0;
    while remaining > 0
      invariant processed + remaining == available
      invariant maxevents > -1 ==> processed < maxevents || processed == 0
    {
      remaining := remaining - 1;
      processed := processed + 1;
      if maxevents > -1 && processed >= maxevents {
        break;
      }
    }
  }

  /** A negative maxevents reads the whole file; otherwise at most max(maxevents, 1) events are read. */
  lemma HepMCEventBound(available: nat, maxevents: int)
    ensures HepMCEventsProcessed(available, maxevents) <= available
    ensures maxevents <= -1 ==> HepMCEventsProcessed(available, maxevents) == available
    ensures maxevents > -1 && available > 0 ==>
              1 <= HepMCEventsProcessed(available, maxevents)
              && (maxevents >= 1 ==> HepMCEventsProcessed(available, maxevents) <= maxevents)
  {
  }

  /** The Pythia loops' count: `for (ievent = 0; ievent < maxevents; ievent++)`. */
  method PythiaEventLoop(maxevents: int) returns (processed: nat)
    ensures processed == if maxevents > 0 then maxevents else 0
  {
    processed := 0;
    var ievent := 0;
    while ievent < maxevents
      invariant processed == ievent
      invariant maxevents > 0 ==> ievent <= maxevents
      invariant maxevents <= 0 ==> ievent == 0
    {
      processed := processed + 1;
      ievent := ievent + 1;
    }
  }

  /** The pt-hard intervals of the Pythia configurations, in GeV. */
  const PtHardBins: seq<(real, real)> :=
    [(0.0, 5.0), (5.0, 7.0), (7.0, 9.0), (9.0, 12.0), (12.0, 16.0), (16.0, 21.0), (21.0, 28.0),
     (28.0, 36.0), (36.0, 45.0), (45.0, 57.0), (57.0, 70.0), (70.0, 85.0), (85.0, 99.0),
     (99.0, 115.0), (115.0, 132.0), (132.0, 150.0), (150.0, 169.0), (169.0, 190.0),
     (190.0, 212.0), (212.0, 235.0), (235.0, 1000.0)]

  /** 21 non-empty intervals, each starting where the previous one ends, covering 0 to 1000. */
  lemma PtHardBinsContiguous()
    ensures |PtHardBins| == 21
    ensures PtHardBins[0].0 == 0.0 && PtHardBins[20].1 == 1000.0
    ensures forall b :: 0 <= b < 21 ==> PtHardBins[b].0 < PtHardBins[b].1
    ensures forall b :: 0 <= b < 20 ==> PtHardBins[b].1 == PtHardBins[b + 1].0
  {
  }
}
