/**
 * The analyses' histogram store: jet radius R -> jet category -> histogram type -> the fills
 * the histogram received, next to the event-level histograms. A histogram is represented by
 * the sequence of its Fill calls; binning is left to ROOT.
 */
module Histograms {
  import opened Wrappers
  import opened Pdg

  /** One TH1::Fill call: a 1D fill of x, or a 2D fill of (x, y), each with its weight. */
  datatype Entry = Fill1D(x: real, w: real) | Fill2D(x: real, y: real, w: real)

  /** The observables recorded per jet, in the order of the histogram-type enumerations. */
  datatype Observable = Spectrum | Zg | Rg | Thetag | Nsd

  const Observables: seq<Observable> := [Spectrum, Zg, Rg, Thetag, Nsd]

  /** The store of one analysis: R -> category -> histogram type -> fills. */
  type Store<T> = map<int, map<Category, map<T, seq<Entry>>>>

  /** The radii the store is built for: R = 2..6, i.e. jet radii 0.2 to 0.6. */
  predicate IsRadius(r: int) {
    2 <= r <= 6
  }

  const Radii: seq<int> := [2, 3, 4, 5, 6]

  /** The fills of one histogram; an unbuilt histogram has none. */
  function Entries<T>(store: Store<T>, r: int, c: Category, t: T): seq<Entry> {
    if r in store && c in store[r] && t in store[r][c] then store[r][c][t] else []
  }

  predicate Built<T>(store: Store<T>, r: int, c: Category, t: T) {
    r in store && c in store[r] && t in store[r][c]
  }

  /**
   * fill: look up R, then the category, then the histogram type, and append the fill; a
   * lookup that fails (it is logged) leaves the store as it was. A category or type code the
   * enumeration does not define arrives here as None.
   */
  function Routed<T>(store: Store<T>, r: int, c: Option<Category>, t: Option<T>, e: Entry): Store<T> {
    if r in store && c.Some? && c.value in store[r] && t.Some? && t.value in store[r][c.value] then
      var rbin := store[r];
      var histos := rbin[c.value];
      store[r := rbin[c.value := histos[t.value := histos[t.value] + [e]]]]
    else store
  }

  /**
   * A fill reaches exactly one histogram: the one it is addressed to gains the entry at its
   * end when it is built; every other histogram keeps its fills.
   */
  lemma RoutedEntries<T>(store: Store<T>, r: int, c: Option<Category>, t: Option<T>, e: Entry,
                         r': int, c': Category, t': T)
    ensures Entries(Routed(store, r, c, t, e), r', c', t')
            == Entries(store, r', c', t')
               + (if r' == r && c == Some(c') && t == Some(t') && Built(store, r', c', t') then [e] else [])
  {
  }

  /** A fill that does not find its histogram changes nothing. */
  lemma RoutedMissing<T>(store: Store<T>, r: int, c: Option<Category>, t: Option<T>, e: Entry)
    requires r !in store || c.None? || t.None? || !Built(store, r, c.value, t.value)
    ensures Routed(store, r, c, t, e) == store
  {
  }

  /** Two stores with the same radii, categories and histogram types. */
  predicate SameShape<T>(a: Store<T>, b: Store<T>) {
    a.Keys == b.Keys
    && (forall r :: r in a && r in b ==> a[r].Keys == b[r].Keys)
    && (forall r, c :: r in a && r in b && c in a[r] && c in b[r] ==> a[r][c].Keys == b[r][c].Keys)
  }

  /** Fills never create or remove histograms. */
  lemma RoutedShape<T>(store: Store<T>, r: int, c: Option<Category>, t: Option<T>, e: Entry)
    ensures SameShape(Routed(store, r, c, t, e), store)
  {
  }

  /** The store as build() leaves it: every radius, every category, every type, no fills. */
  ghost predicate Complete<T>(store: Store<T>, types: set<T>) {
    (forall r :: r in store <==> IsRadius(r))
    && (forall r :: r in store ==> forall c: Category :: c in store[r])
    && (forall r, c :: r in store && c in store[r] ==> store[r][c].Keys == types)
  }

  /** A fill keeps a built store complete: it only appends to a histogram that exists. */
  lemma RoutedComplete<T>(store: Store<T>, types: set<T>, r: int, c: Option<Category>, t: Option<T>, e: Entry)
    requires Complete(store, types)
    ensures Complete(Routed(store, r, c, t, e), types)
  {
    RoutedShape(store, r, c, t, e);
  }

  function EmptyHistos<T>(types: set<T>): map<T, seq<Entry>> {
    map t | t in types :: []
  }

  /** SoftDropRbin::build: one set of histograms per category, each category once. */
  method BuildRbin<T>(types: set<T>) returns (rbin: map<Category, map<T, seq<Entry>>>)
    ensures forall c: Category :: c in rbin && rbin[c] == EmptyHistos(types)
  {
    rbin := map[];
    var procs := Categories;
    var k := 0;
    while k < |procs|
      invariant k <= |procs|
      invariant forall c :: c in rbin <==> c in procs[..k]
      invariant forall c :: c in rbin ==> rbin[c] == EmptyHistos(types)
    {
      rbin := rbin[procs[k] := EmptyHistos(types)];
      k := k + 1;
    }
    assert procs[..k] == procs;
    forall c: Category
      ensures c in rbin
    {
      assert c == procs[CategoryCode(c)];
    }
  }

  /** The build() loop over R = 2..6: a complete store without fills. */
  method BuildStore<T>(types: set<T>) returns (store: Store<T>)
    ensures Complete(store, types)
    ensures forall r, c, t :: Entries(store, r, c, t) == []
  {
    store := map[];
    var r := 2;
    while r < 7
      invariant 2 <= r <= 7
      invariant forall r' :: r' in store <==> 2 <= r' < r
      invariant forall r' :: r' in store ==> forall c: Category :: c in store[r'] && store[r'][c] == EmptyHistos(types)
    {
      var rbin := BuildRbin(types);
      store := store[r := rbin];
      r := r + 1;
    }
  }

  /**
   * In a complete store, a fill addressed to a radius 2..6, a category and a built type adds
   * exactly one entry to that histogram, and a fill for any other radius adds nothing.
   */
  lemma CompleteFill<T>(store: Store<T>, types: set<T>, r: int, c: Category, t: T, e: Entry)
    requires Complete(store, types) && t in types
    ensures IsRadius(r) ==> Entries(Routed(store, r, Some(c), Some(t), e), r, c, t) == Entries(store, r, c, t) + [e]
    ensures !IsRadius(r) ==> Routed(store, r, Some(c), Some(t), e) == store
    ensures Complete(Routed(store, r, Some(c), Some(t), e), types)
  {
    RoutedEntries(store, r, Some(c), Some(t), e, r, c, t);
    RoutedShape(store, r, Some(c), Some(t), e);
  }

  /** A fill as the store sees it: where it goes and the entry it records. */
  datatype Addressed<T> = Addressed(r: int, category: Category, t: T, entry: Entry)

  /** A sequence of fills applied in order. */
  function ApplyFills<T>(store: Store<T>, fills: seq<Addressed<T>>): Store<T> {
    if fills == [] then store
    else
      var f := fills[|fills| - 1];
      Routed(ApplyFills(store, fills[..|fills| - 1]), f.r, Some(f.category), Some(f.t), f.entry)
  }

  /** The entries of the fills addressed to one histogram, in order. */
  function EntriesFor<T(==)>(fills: seq<Addressed<T>>, r: int, c: Category, t: T): seq<Entry> {
    if fills == [] then []
    else
      var f := fills[|fills| - 1];
      EntriesFor(fills[..|fills| - 1], r, c, t) + (if f.r == r && f.category == c && f.t == t then [f.entry] else [])
  }

  /**
   * After a sequence of fills, a built histogram holds its old fills followed by the entries
   * addressed to it, in call order; an unbuilt one stays empty, and no histogram appears or
   * disappears.
   */
  lemma {:induction false} ApplyFillsEntries<T>(store: Store<T>, fills: seq<Addressed<T>>, r: int, c: Category, t: T)
    ensures SameShape(ApplyFills(store, fills), store)
    ensures Entries(ApplyFills(store, fills), r, c, t)
            == Entries(store, r, c, t) + (if Built(store, r, c, t) then EntriesFor(fills, r, c, t) else [])
    decreases |fills|
  {
    ApplyFillsShape(store, fills);
    if fills != [] {
      var init := fills[..|fills| - 1];
      var f := fills[|fills| - 1];
      var before := ApplyFills(store, init);
      ApplyFillsEntries(store, init, r, c, t);
      ApplyFillsShape(store, init);
      SameShapeBuilt(before, store, r, c, t);
      RoutedEntries(before, f.r, Some(f.category), Some(f.t), f.entry, r, c, t);
      assert EntriesFor(fills, r, c, t)
          == EntriesFor(init, r, c, t) + (if f.r == r && f.category == c && f.t == t then [f.entry] else []);
    }
  }

  lemma {:induction false} ApplyFillsShape<T>(store: Store<T>, fills: seq<Addressed<T>>)
    ensures SameShape(ApplyFills(store, fills), store)
    decreases |fills|
  {
    if fills != [] {
      var init := fills[..|fills| - 1];
      var f := fills[|fills| - 1];
      var before := ApplyFills(store, init);
      ApplyFillsShape(store, init);
      RoutedShape(before, f.r, Some(f.category), Some(f.t), f.entry);
      SameShapeTransitive(ApplyFills(store, fills), before, store);
    }
  }

  lemma SameShapeTransitive<T>(a: Store<T>, b: Store<T>, c: Store<T>)
    requires SameShape(a, b) && SameShape(b, c)
    ensures SameShape(a, c)
  {
  }

  /** Stores of the same shape have the same histograms built. */
  lemma SameShapeBuilt<T>(a: Store<T>, b: Store<T>, r: int, c: Category, t: T)
    requires SameShape(a, b)
    ensures Built(a, r, c, t) == Built(b, r, c, t)
  {
  }

  lemma {:induction false} ApplyFillsConcat<T>(store: Store<T>, a: seq<Addressed<T>>, b: seq<Addressed<T>>)
    ensures ApplyFills(store, a + b) == ApplyFills(ApplyFills(store, a), b)
    decreases |b|
  {
    if b == [] {
      assert a + b == a;
    } else {
      assert (a + b)[..|a + b| - 1] == a + b[..|b| - 1];
      ApplyFillsConcat(store, a, b[..|b| - 1]);
    }
  }

  lemma EntriesForConcat<T>(a: seq<Addressed<T>>, b: seq<Addressed<T>>, r: int, c: Category, t: T)
    ensures EntriesFor(a + b, r, c, t) == EntriesFor(a, r, c, t) + EntriesFor(b, r, c, t)
    decreases |b|
  {
    if b == [] {
      assert a + b == a;
    } else {
      assert (a + b)[..|a + b| - 1] == a + b[..|b| - 1];
      EntriesForConcat(a, b[..|b| - 1], r, c, t);
    }
  }

  // ---------------------------------------------------------------------------------------
  // The weighted store of the HepMC and Pythia analyses.
  // ---------------------------------------------------------------------------------------

  /** HistogramHandler::HistType_t of the weighted analyses: each observable twice. */
  datatype HistType = HistType(observable: Observable, weighted: bool)

  /** kSpectrumAbs = 0, kSpectrumWeighted = 1, kZgAbs = 2, ..., kNsdWeighted = 9. */
  function HistTypeCode(t: HistType): (code: int)
    ensures 0 <= code < 10
  {
    var base := match t.observable
      case Spectrum => 0 case Zg => 2 case Rg => 4 case Thetag => 6 case Nsd => 8;
    base + (if t.weighted then 1 else 0)
  }

  /** The enumerator a code stands for, if any; the switch's default catches the rest. */
  function HistTypeOfCode(code: int): Option<HistType> {
    if 0 <= code < 10 then Some(HistType(Observables[code / 2], code % 2 == 1)) else None
  }

  /** Codes and enumerators correspond one to one. */
  lemma HistTypeCodeRoundTrip(t: HistType, code: int)
    ensures HistTypeOfCode(HistTypeCode(t)) == Some(t)
    ensures HistTypeOfCode(code).Some? <==> 0 <= code < 10
    ensures HistTypeOfCode(code).Some? ==> HistTypeCode(HistTypeOfCode(code).value) == code
  {
  }

  /** HardProcessType_t: kAllJets = 0, kQuarkJet = 1, kGluonJet = 2, kUnknownJet = 3. */
  function CategoryCode(c: Category): (code: int)
    ensures 0 <= code < 4 && Categories[code] == c
  {
    match c
    case AllJets => 0
    case QuarkJet => 1
    case GluonJet => 2
    case UnknownJet => 3
  }

  function CategoryOfCode(code: int): (c: Option<Category>)
    ensures c.Some? <==> 0 <= code < 4
    ensures c.Some? ==> CategoryCode(c.value) == code
  {
    if 0 <= code < 4 then Some(Categories[code]) else None
  }

  const WeightedTypes: set<HistType> := set o: Observable, w: bool | o in Observables :: HistType(o, w)

  /**
   * Histos::fill: a spectrum records the jet pt, every other observable the pair
   * (value, pt); an Abs type fills with weight 1 whatever weight it is given, a Weighted type
   * with the given weight.
   */
  function Recorded(t: HistType, pt: real, value: real, weight: real): (e: Entry)
    ensures e.Fill1D? <==> t.observable == Spectrum
    ensures e.Fill1D? ==> e.x == pt
    ensures e.Fill2D? ==> e.x == value && e.y == pt
    ensures e.w == (if t.weighted then weight else 1.0)
  {
    var w := if t.weighted then weight else 1.0;
    if t.observable == Spectrum then Fill1D(pt, w) else Fill2D(value, pt, w)
  }

  /** Abs fills do not depend on the weight passed. */
  lemma AbsIgnoresWeight(o: Observable, pt: real, value: real, w1: real, w2: real)
    ensures Recorded(HistType(o, false), pt, value, w1) == Recorded(HistType(o, false), pt, value, w2)
  {
  }

  /** HistogramHandler of the HepMC and Pythia analyses. */
  class SoftDropHistograms {
    /** mData: the per-radius histograms. */
    var data: Store<HistType>
    /** hNevents, hXsection (a profile), hKtAbs and hKtWeighted. */
    var nevents: seq<Entry>
    var averageWeight: seq<Entry>
    var ktAbs: seq<Entry>
    var ktWeighted: seq<Entry>

    /** The default-constructed handler, before build(). */
    constructor ()
      ensures data == map[] && nevents == [] && averageWeight == [] && ktAbs == [] && ktWeighted == []
    {
      data := map[];
      nevents, averageWeight, ktAbs, ktWeighted := [], [], [], [];
    }

    ghost predicate Valid()
      reads this
    {
      Complete(data, WeightedTypes)
    }

    /** build(): fresh event histograms and the complete per-radius store. */
    method Build()
      modifies this
      ensures Valid()
      ensures forall r, c, t :: Entries(data, r, c, t) == []
      ensures nevents == [] && averageWeight == [] && ktAbs == [] && ktWeighted == []
    {
      nevents, averageWeight, ktAbs, ktWeighted := [], [], [], [];
      data := BuildStore(WeightedTypes);
    }

    /** countEvent: one entry in the event counter at 1, the weight profile and both kt spectra. */
    method CountEvent(kt: real, weight: real)
      modifies this
      ensures nevents == old(nevents) + [Fill1D(1.0, 1.0)]
      ensures averageWeight == old(averageWeight) + [Fill2D(1.0, weight, 1.0)]
      ensures ktAbs == old(ktAbs) + [Fill1D(kt, 1.0)]
      ensures ktWeighted == old(ktWeighted) + [Fill1D(kt, weight)]
      ensures data == old(data)
      ensures old(Valid()) ==> Valid()
    {
      nevents := nevents + [Fill1D(1.0, 1.0)];
      averageWeight := averageWeight + [Fill2D(1.0, weight, 1.0)];
      ktAbs := ktAbs + [Fill1D(kt, 1.0)];
      ktWeighted := ktWeighted + [Fill1D(kt, weight)];
    }

    /**
     * fill(proctype, histtype, R, pt, value, weight): the three lookups of the handler, the
     * radius bin and the histogram set, each a logged no-op when it fails.
     */
    method Fill(proctype: int, histtype: int, r: int, pt: real, value: real, weight: real)
      modifies this
      ensures var t := HistTypeOfCode(histtype);
              data == Routed(old(data), r, CategoryOfCode(proctype), t,
                             if t.Some? then Recorded(t.value, pt, value, weight) else Fill1D(pt, weight))
      ensures nevents == old(nevents) && averageWeight == old(averageWeight)
      ensures ktAbs == old(ktAbs) && ktWeighted == old(ktWeighted)
      ensures old(Valid()) ==> Valid()
    {
      if Valid() {
        var t := HistTypeOfCode(histtype);
        RoutedComplete(data, WeightedTypes, r, CategoryOfCode(proctype), t,
                       if t.Some? then Recorded(t.value, pt, value, weight) else Fill1D(pt, weight));
      }
      if r in data {
        var rbin := data[r];
        var proc := CategoryOfCode(proctype);
        if proc.Some? && proc.value in rbin {
          var histos := rbin[proc.value];
          var t := HistTypeOfCode(histtype);
          if t.Some? && t.value in histos {
            var e := Recorded(t.value, pt, value, weight);
            data := data[r := rbin[proc.value := histos[t.value := histos[t.value] + [e]]]];
          }
        }
      }
    }
  }

  // ---------------------------------------------------------------------------------------
  // The unweighted store of the K0/pi0 analysis.
  // ---------------------------------------------------------------------------------------

  /** kSpectrum = 0, kZg = 1, kRg = 2, kThetag = 3, kNsd = 4. */
  function ObservableCode(o: Observable): (code: int)
    ensures 0 <= code < 5 && Observables[code] == o
  {
    match o
    case Spectrum => 0
    case Zg => 1
    case Rg => 2
    case Thetag => 3
    case Nsd => 4
  }

  function ObservableOfCode(code: int): (o: Option<Observable>)
    ensures o.Some? <==> 0 <= code < 5
    ensures o.Some? ==> ObservableCode(o.value) == code
  {
    if 0 <= code < 5 then Some(Observables[code]) else None
  }

  const UnweightedTypes: set<Observable> := set o | o in Observables

  /** Histos::fill of the K0/pi0 analysis: always weight 1, the spectrum 1D, the rest (value, pt). */
  function RecordedUnweighted(o: Observable, pt: real, value: real): (e: Entry)
    ensures e.w == 1.0
    ensures e.Fill1D? <==> o == Spectrum
    ensures e.Fill1D? ==> e.x == pt
    ensures e.Fill2D? ==> e.x == value && e.y == pt
  {
    if o == Spectrum then Fill1D(pt, 1.0) else Fill2D(value, pt, 1.0)
  }

  /** HistogramHandler of the K0/pi0 analysis. */
  class K0Histograms {
    var data: Store<Observable>
    /** hNevents, hXsection (a profile) and hTrials over the 21 pt-hard bins. */
    var nevents: seq<Entry>
    var crossSection: seq<Entry>
    var trials: seq<Entry>
    var ptHard: seq<Entry>
    var eventScale: seq<Entry>
    /** The constituent spectra of the selected pi0 and K0. */
    var pi0Spectrum: seq<Entry>
    var k0Spectrum: seq<Entry>

    constructor ()
      ensures data == map[] && nevents == [] && crossSection == [] && trials == []
      ensures ptHard == [] && eventScale == [] && pi0Spectrum == [] && k0Spectrum == []
    {
      data := map[];
      nevents, crossSection, trials, ptHard, eventScale := [], [], [], [], [];
      pi0Spectrum, k0Spectrum := [], [];
    }

    ghost predicate Valid()
      reads this
    {
      Complete(data, UnweightedTypes)
    }

    method Build()
      modifies this
      ensures Valid()
      ensures forall r, c, t :: Entries(data, r, c, t) == []
      ensures nevents == [] && crossSection == [] && trials == []
      ensures ptHard == [] && eventScale == [] && pi0Spectrum == [] && k0Spectrum == []
    {
      nevents, crossSection, trials, ptHard, eventScale := [], [], [], [], [];
      pi0Spectrum, k0Spectrum := [], [];
      data := BuildStore(UnweightedTypes);
    }

    /**
     * countEvent: the event counter, the cross section profile and the trials are filled at
     * the pt-hard bin; the pt-hard and event-scale spectra at their values.
     */
    method CountEvent(ptHardBin: int, scale: real, hardPt: real, xsec: real, ntrials: int)
      modifies this
      ensures nevents == old(nevents) + [Fill1D(ptHardBin as real, 1.0)]
      ensures crossSection == old(crossSection) + [Fill2D(ptHardBin as real, xsec, 1.0)]
      ensures trials == old(trials) + [Fill1D(ptHardBin as real, ntrials as real)]
      ensures ptHard == old(ptHard) + [Fill1D(hardPt, 1.0)]
      ensures eventScale == old(eventScale) + [Fill1D(scale, 1.0)]
      ensures data == old(data) && pi0Spectrum == old(pi0Spectrum) && k0Spectrum == old(k0Spectrum)
      ensures old(Valid()) ==> Valid()
    {
      nevents := nevents + [Fill1D(ptHardBin as real, 1.0)];
      crossSection := crossSection + [Fill2D(ptHardBin as real, xsec, 1.0)];
      trials := trials + [Fill1D(ptHardBin as real, ntrials as real)];
      ptHard := ptHard + [Fill1D(hardPt, 1.0)];
      eventScale := eventScale + [Fill1D(scale, 1.0)];
    }

    method FillPi0(pt: real)
      modifies this
      ensures pi0Spectrum == old(pi0Spectrum) + [Fill1D(pt, 1.0)]
      ensures k0Spectrum == old(k0Spectrum) && data == old(data)
      ensures nevents == old(nevents) && crossSection == old(crossSection) && trials == old(trials)
      ensures ptHard == old(ptHard) && eventScale == old(eventScale)
      ensures old(Valid()) ==> Valid()
    {
      pi0Spectrum := pi0Spectrum + [Fill1D(pt, 1.0)];
    }

    method FillK0(pt: real)
      modifies this
      ensures k0Spectrum == old(k0Spectrum) + [Fill1D(pt, 1.0)]
      ensures pi0Spectrum == old(pi0Spectrum) && data == old(data)
      ensures nevents == old(nevents) && crossSection == old(crossSection) && trials == old(trials)
      ensures ptHard == old(ptHard) && eventScale == old(eventScale)
      ensures old(Valid()) ==> Valid()
    {
      k0Spectrum := k0Spectrum + [Fill1D(pt, 1.0)];
    }

    /** fill(proctype, histtype, R, pt, value): unweighted; unknown keys are logged no-ops. */
    method Fill(proctype: int, histtype: int, r: int, pt: real, value: real)
      modifies this
      ensures var o := ObservableOfCode(histtype);
              data == Routed(old(data), r, CategoryOfCode(proctype), o,
                             if o.Some? then RecordedUnweighted(o.value, pt, value) else Fill1D(pt, 1.0))
      ensures nevents == old(nevents) && crossSection == old(crossSection) && trials == old(trials)
      ensures ptHard == old(ptHard) && eventScale == old(eventScale)
      ensures pi0Spectrum == old(pi0Spectrum) && k0Spectrum == old(k0Spectrum)
      ensures old(Valid()) ==> Valid()
    {
      if Valid() {
        var o := ObservableOfCode(histtype);
        RoutedComplete(data, UnweightedTypes, r, CategoryOfCode(proctype), o,
                       if o.Some? then RecordedUnweighted(o.value, pt, value) else Fill1D(pt, 1.0));
      }
      if r in data {
        var rbin := data[r];
        var proc := CategoryOfCode(proctype);
        if proc.Some? && proc.value in rbin {
          var histos := rbin[proc.value];
          var o := ObservableOfCode(histtype);
          if o.Some? && o.value in histos {
            var e := RecordedUnweighted(o.value, pt, value);
            data := data[r := rbin[proc.value := histos[o.value := histos[o.value] + [e]]]];
          }
        }
      }
    }
  }
}
