/**
 * The extraction of normalised pt slices from the per-radius 2D soft-drop histograms: for each
 * observable present in the input file and each radius R = 2..6, one projection per pair of
 * consecutive pt edges, written to <observable>/R<RR>/h<observable>R<RR>_<ptmin>_<ptmax>.
 * Two macros do this; they differ only in the input histogram they read.
 */
module Extraction {
  import opened Wrappers
  import opened Formatting
  import opened Pdg
  import opened Histograms
  import opened HistNames

  /** hasKey: a scan over the key list that stops at the first key with the wanted name. */
  method HasKey(keys: seq<string>, keyname: string) returns (found: bool)
    ensures found <==> exists k :: 0 <= k < |keys| && keys[k] == keyname
  {
    found := false;
    var i := 0;
    while i < |keys|
      invariant 0 <= i <= |keys|
      invariant !found
      invariant forall k :: 0 <= k < i ==> keys[k] != keyname
    {
      if keys[i] == keyname {
        found := true;
        break;
      }
      i := i + 1;
    }
  }

  /** The 15 pt edges of the slices (GeV/c); all of them are whole numbers. */
  const PtBinning: seq<int> := [15, 20, 30, 40, 50, 60, 80, 100, 120, 140, 160, 180, 200, 240, 500]

  /** The number of slices: one per pair of consecutive edges. */
  const SliceCount: nat := 14

  /** The edges increase strictly, so slice k is the interval [edge k, edge k+1]. */
  lemma PtBinningIncreasing()
    ensures |PtBinning| == SliceCount + 1
    ensures forall i, j :: 0 <= i < j < |PtBinning| ==> PtBinning[i] < PtBinning[j]
    ensures forall i :: 0 <= i < |PtBinning| ==> 0 < PtBinning[i] <= 500
  {
  }

  /** The observables the extraction looks for, in its order. */
  const ExtractedObservables: seq<Observable> := [Zg, Rg, Nsd, Thetag]

  /** The name of an observable's top-level directory and of its histograms. */
  function Label(o: Observable): (s: string)
    ensures '_' !in s && s != []
  {
    match o
    case Spectrum => "JetSpectrum"
    case Zg => "Zg"
    case Rg => "Rg"
    case Thetag => "Thetag"
    case Nsd => "Nsd"
  }

  /** The two extraction macros: from the Pythia analysis output, or from the merged pt-hard bins. */
  datatype Variant = PythiaOutput | MergedOutput

  /**
   * The 2D histogram read for an observable and a radius: "h%sR%02dAll" for Zg and
   * "h%sAbsR%02dAll" otherwise from the Pythia output, "h%sWeightR%02d" from the merged file.
   */
  function InputName(v: Variant, obs: string, r: int): string {
    match v
    case PythiaOutput =>
      if obs == "Zg" then "h" + obs + "R" + FormatPadded(r, 2) + "All"
      else "h" + obs + "AbsR" + FormatPadded(r, 2) + "All"
    case MergedOutput => "h" + obs + "WeightR" + FormatPadded(r, 2)
  }

  /** The suffix the analysis gives each process category. */
  function ProcName(c: Category): (s: string)
    ensures s != []
  {
    match c
    case AllJets => "All"
    case QuarkJet => "Quark"
    case GluonJet => "Gluon"
    case UnknownJet => "Unknown"
  }

  /** The name the pi0/K0 analysis gives the histogram of an observable, a radius and a category. */
  function K0HistogramName(o: Observable, r: int, c: Category): string {
    match o
    case Spectrum => "JetSpectrumR" + FormatPadded(r, 2) + ProcName(c)
    case Zg => "hZgR" + FormatPadded(r, 2) + ProcName(c)
    case Rg => "hRgAbsR" + FormatPadded(r, 2) + ProcName(c)
    case Nsd => "hNsdAbsR" + FormatPadded(r, 2) + ProcName(c)
    case Thetag => "hThetagAbsR" + FormatPadded(r, 2) + ProcName(c)
  }

  /** The prefix of K0HistogramName before the radius. */
  function K0Prefix(o: Observable): (s: string)
    ensures |s| >= 4
  {
    match o
    case Spectrum => "JetSpectrumR"
    case Zg => "hZgR"
    case Rg => "hRgAbsR"
    case Nsd => "hNsdAbsR"
    case Thetag => "hThetagAbsR"
  }

  lemma K0NameParts(o: Observable, r: int, c: Category)
    ensures K0HistogramName(o, r, c) == K0Prefix(o) + FormatPadded(r, 2) + ProcName(c)
  {
  }

  /** Within one radius, the pi0/K0 analysis names every histogram of its store differently. */
  lemma K0NamesDistinct(o1: Observable, c1: Category, o2: Observable, c2: Category, r: int)
    requires K0HistogramName(o1, r, c1) == K0HistogramName(o2, r, c2)
    ensures o1 == o2 && c1 == c2
  {
    var n1, n2 := K0HistogramName(o1, r, c1), K0HistogramName(o2, r, c2);
    K0NameParts(o1, r, c1);
    K0NameParts(o2, r, c2);
    var p1, p2 := K0Prefix(o1), K0Prefix(o2);
    assert n1[..2] == p1[..2] && n2[..2] == p2[..2];
    K0PrefixHeads(o1, o2);
    var pre := p1 + FormatPadded(r, 2);
    assert n1 == pre + ProcName(c1) && n2 == pre + ProcName(c2);
    assert n1[|pre|..] == ProcName(c1) && n2[|pre|..] == ProcName(c2);
    ProcNameInjective(c1, c2);
  }

  /** The first two letters of a prefix tell the observable. */
  lemma K0PrefixHeads(o1: Observable, o2: Observable)
    requires |K0Prefix(o1)| >= 2 && |K0Prefix(o2)| >= 2 && K0Prefix(o1)[..2] == K0Prefix(o2)[..2]
    ensures o1 == o2
  {
    assert K0Prefix(o1)[0] == K0Prefix(o2)[0] && K0Prefix(o1)[1] == K0Prefix(o2)[1];
  }

  /** Different categories carry different suffixes. */
  lemma ProcNameInjective(c1: Category, c2: Category)
    requires ProcName(c1) == ProcName(c2)
    ensures c1 == c2
  {
    assert ProcName(c1)[0] == ProcName(c2)[0];
  }

  /** The Pythia extraction reads exactly the all-jets histograms the pi0/K0 analysis writes. */
  lemma PythiaInputsAreK0Names(o: Observable, r: int)
    requires o in ExtractedObservables
    ensures InputName(PythiaOutput, Label(o), r) == K0HistogramName(o, r, AllJets)
  {
    var p := FormatPadded(r, 2);
    match o
    case Zg =>
      assert "h" + "Zg" + "R" + p + "All" == "hZgR" + p + "All";
    case Rg =>
      assert "h" + "Rg" + "AbsR" + p + "All" == "hRgAbsR" + p + "All";
    case Nsd =>
      assert "h" + "Nsd" + "AbsR" + p + "All" == "hNsdAbsR" + p + "All";
    case Thetag =>
      assert "h" + "Thetag" + "AbsR" + p + "All" == "hThetagAbsR" + p + "All";
  }

  // ---------------------------------------------------------------------------------------
  // Bin lookup on the pt axis.
  // ---------------------------------------------------------------------------------------

  /**
   * TAxis::FindBin on an axis with the given bin edges: the number of edges at or below x.
   * On increasing edges that is 0 below the axis, i for bin [edge i-1, edge i), and the overflow
   * bin |edges| from the last edge upwards (FindBinNumbering).
   */
  function FindBin(edges: seq<real>, x: real): (bin: nat)
    ensures bin <= |edges|
    decreases |edges|
  {
    if edges == [] then 0
    else FindBin(edges[..|edges| - 1], x) + (if edges[|edges| - 1] <= x then 1 else 0)
  }

  /** When the first m edges are at or below x and the others above it, x is in bin m. */
  lemma {:induction false} FindBinSplit(edges: seq<real>, x: real, m: nat)
    requires m <= |edges|
    requires forall i :: 0 <= i < m ==> edges[i] <= x
    requires forall i :: m <= i < |edges| ==> x < edges[i]
    ensures FindBin(edges, x) == m
    decreases |edges|
  {
    if edges != [] {
      var init := edges[..|edges| - 1];
      if m == |edges| {
        FindBinSplit(init, x, m - 1);
      } else {
        FindBinSplit(init, x, m);
      }
    }
  }

  predicate Increasing(edges: seq<real>) {
    forall i, j :: 0 <= i < j < |edges| ==> edges[i] < edges[j]
  }

  /** The numbering of FindBin on an increasing axis: underflow, the bins, overflow. */
  lemma FindBinNumbering(edges: seq<real>, x: real, i: nat)
    requires Increasing(edges) && |edges| >= 2
    ensures x < edges[0] ==> FindBin(edges, x) == 0
    ensures edges[|edges| - 1] <= x ==> FindBin(edges, x) == |edges|
    ensures i + 1 < |edges| && edges[i] <= x < edges[i + 1] ==> FindBin(edges, x) == i + 1
  {
    if x < edges[0] {
      FindBinSplit(edges, x, 0);
    }
    if edges[|edges| - 1] <= x {
      FindBinSplit(edges, x, |edges|);
    }
    if i + 1 < |edges| && edges[i] <= x < edges[i + 1] {
      FindBinSplit(edges, x, i + 1);
    }
  }

  /** The nudge that keeps a lookup off a bin edge. */
  const VerySmall: real := 0.00001

  /** Consecutive edges lie more than the nudge apart. */
  predicate WellSpaced(edges: seq<real>) {
    forall i, j :: 0 <= i < j < |edges| ==> edges[i] + VerySmall < edges[j]
  }

  /** Just above edge a is bin a+1: the bin that starts at that edge. */
  lemma FindBinAboveEdge(edges: seq<real>, a: nat)
    requires WellSpaced(edges) && a < |edges|
    ensures FindBin(edges, edges[a] + VerySmall) == a + 1
  {
    FindBinSplit(edges, edges[a] + VerySmall, a + 1);
  }

  /** Just below edge b is bin b: the bin that ends at that edge. */
  lemma FindBinBelowEdge(edges: seq<real>, b: nat)
    requires WellSpaced(edges) && b < |edges|
    ensures FindBin(edges, edges[b] - VerySmall) == b
  {
    FindBinSplit(edges, edges[b] - VerySmall, b);
  }

  // ---------------------------------------------------------------------------------------
  // The slices of one radius.
  // ---------------------------------------------------------------------------------------

  /** One written projection: where it goes, what slice it is, and the pt bins it sums. */
  datatype Written = Written(observable: string, r: int, ptMin: int, ptMax: int, binMin: nat, binMax: nat)

  /** The subdirectory "R%02d" a projection is written to, inside its observable's directory. */
  function OutputDirectory(w: Written): string {
    RDirectoryName(w.r)
  }

  /** The name of a projection, with the integer-truncated edges (the edges are whole numbers). */
  function OutputName(w: Written): string {
    EncodeHistName(w.observable, w.r, w.ptMin, w.ptMax)
  }

  /** Slice k of a radius: edges k and k+1, and the bins found just inside them. */
  function SliceOutput(obs: string, r: int, axis: seq<real>, k: nat): (w: Written)
    requires k < SliceCount
    ensures w.ptMin == PtBinning[k] && w.ptMax == PtBinning[k + 1]
  {
    Written(obs, r, PtBinning[k], PtBinning[k + 1],
            FindBin(axis, PtBinning[k] as real + VerySmall), FindBin(axis, PtBinning[k + 1] as real - VerySmall))
  }

  /** All slices of one radius, in the order of the edges. */
  function RadiusSlices(obs: string, r: int, axis: seq<real>): (s: seq<Written>)
    ensures |s| == SliceCount
    ensures forall k :: 0 <= k < SliceCount ==> s[k] == SliceOutput(obs, r, axis, k)
  {
    seq(SliceCount, k requires 0 <= k < SliceCount => SliceOutput(obs, r, axis, k))
  }

  /** The slice loop of one radius. */
  method ExtractRadius(obs: string, r: int, axis: seq<real>) returns (slices: seq<Written>)
    ensures slices == RadiusSlices(obs, r, axis)
  {
    slices := [];
    var ib := 0;
    while ib < |PtBinning| - 1
      invariant 0 <= ib <= SliceCount
      invariant |slices| == ib
      invariant forall k :: 0 <= k < ib ==> slices[k] == SliceOutput(obs, r, axis, k)
    {
      var ptmin, ptmax := PtBinning[ib], PtBinning[ib + 1];
      var binmin, binmax := FindBin(axis, ptmin as real + VerySmall), FindBin(axis, ptmax as real - VerySmall);
      slices := slices + [Written(obs, r, ptmin, ptmax, binmin, binmax)];
      ib := ib + 1;
    }
  }

  /** The slices of one radius are ordered and do not overlap. */
  lemma RadiusSlicesOrdered(obs: string, r: int, axis: seq<real>, i: nat, j: nat)
    requires i < j < SliceCount
    ensures RadiusSlices(obs, r, axis)[i].ptMin < RadiusSlices(obs, r, axis)[i].ptMax
    ensures RadiusSlices(obs, r, axis)[i].ptMax <= RadiusSlices(obs, r, axis)[j].ptMin
  {
    PtBinningIncreasing();
    assert PtBinning[i] < PtBinning[i + 1];
    if i + 1 < j {
      assert PtBinning[i + 1] < PtBinning[j];
    }
  }

  /**
   * When the edges of slice k are edges a and b of the pt axis, the projection sums exactly
   * bins a+1..b, the bins between those edges.
   */
  lemma SliceBinsAtEdges(obs: string, r: int, axis: seq<real>, k: nat, a: nat, b: nat)
    requires k < SliceCount && WellSpaced(axis)
    requires a < |axis| && axis[a] == PtBinning[k] as real
    requires b < |axis| && axis[b] == PtBinning[k + 1] as real
    ensures SliceOutput(obs, r, axis, k).binMin == a + 1
    ensures SliceOutput(obs, r, axis, k).binMax == b
  {
    FindBinAboveEdge(axis, a);
    FindBinBelowEdge(axis, b);
  }

  /** Consecutive slices meeting at an axis edge take adjacent bins: no bin is used twice or skipped. */
  lemma ConsecutiveSlicesAdjacent(obs: string, r: int, axis: seq<real>, k: nat, b: nat)
    requires k + 1 < SliceCount && WellSpaced(axis)
    requires b < |axis| && axis[b] == PtBinning[k + 1] as real
    ensures SliceOutput(obs, r, axis, k).binMax + 1 == SliceOutput(obs, r, axis, k + 1).binMin
  {
    FindBinAboveEdge(axis, b);
    FindBinBelowEdge(axis, b);
  }

  /** The pt axis of the analysis histograms: unit bins from 0 to 500 GeV/c. */
  function ProducerPtAxis(): (axis: seq<real>)
    ensures |axis| == 501
    ensures forall i :: 0 <= i < 501 ==> axis[i] == i as real
  {
    seq(501, i => i as real)
  }

  /** On the analysis pt axis, slice [ptmin, ptmax] sums bins ptmin+1 .. ptmax. */
  lemma ProducerSliceBins(obs: string, r: int, k: nat)
    requires k < SliceCount
    ensures SliceOutput(obs, r, ProducerPtAxis(), k).binMin == PtBinning[k] + 1
    ensures SliceOutput(obs, r, ProducerPtAxis(), k).binMax == PtBinning[k + 1]
  {
    var axis := ProducerPtAxis();
    PtBinningIncreasing();
    assert WellSpaced(axis);
    SliceBinsAtEdges(obs, r, axis, k, PtBinning[k], PtBinning[k + 1]);
  }

  // ---------------------------------------------------------------------------------------
  // The whole file.
  // ---------------------------------------------------------------------------------------

  /**
   * The input file: its top-level keys, and per directory the pt-axis edges of each 2D
   * histogram in it.
   */
  datatype InputFile = InputFile(keys: seq<string>, histograms: map<string, map<string, seq<real>>>)

  /** The macro dereferences the histogram it reads; a missing one ends the run. */
  datatype ExtractError = MissingHistogram(directory: string, name: string)

  function LookupAxis(file: InputFile, dir: string, name: string): (axis: Option<seq<real>>)
    ensures axis.Some? <==> dir in file.histograms && name in file.histograms[dir]
  {
    if dir in file.histograms && name in file.histograms[dir] then Some(file.histograms[dir][name]) else None
  }

  /** The projections of one observable for R = 2 .. hi-1, or the first missing histogram. */
  function RadiiOutputs(v: Variant, file: InputFile, obs: string, hi: int): Result<seq<Written>, ExtractError>
    decreases hi
  {
    if hi <= 2 then Success([])
    else match RadiiOutputs(v, file, obs, hi - 1)
      case Failure(e) => Failure(e)
      case Success(prev) =>
        var name := InputName(v, obs, hi - 1);
        match LookupAxis(file, obs, name)
        case None => Failure(MissingHistogram(obs, name))
        case Some(axis) => Success(prev + RadiusSlices(obs, hi - 1, axis))
  }

  /** The projections of the first n observables; an absent observable adds nothing. */
  function ObservablesOutputs(v: Variant, file: InputFile, n: nat): Result<seq<Written>, ExtractError>
    requires n <= |ExtractedObservables|
  {
    if n == 0 then Success([])
    else match ObservablesOutputs(v, file, n - 1)
      case Failure(e) => Failure(e)
      case Success(prev) =>
        var obs := Label(ExtractedObservables[n - 1]);
        if obs !in file.keys then Success(prev)
        else match RadiiOutputs(v, file, obs, 7)
          case Failure(e) => Failure(e)
          case Success(more) => Success(prev + more)
  }

  /** What the extraction writes from a file. */
  function Extraction(v: Variant, file: InputFile): Result<seq<Written>, ExtractError> {
    ObservablesOutputs(v, file, |ExtractedObservables|)
  }

  lemma {:induction false} RadiiFailureFinal(v: Variant, file: InputFile, obs: string, lo: int, hi: int)
    requires lo <= hi && RadiiOutputs(v, file, obs, lo).Failure?
    ensures RadiiOutputs(v, file, obs, hi) == RadiiOutputs(v, file, obs, lo)
    decreases hi - lo
  {
    if lo < hi {
      RadiiFailureFinal(v, file, obs, lo, hi - 1);
    }
  }

  lemma {:induction false} ObservablesFailureFinal(v: Variant, file: InputFile, lo: nat, hi: nat)
    requires lo <= hi <= |ExtractedObservables| && ObservablesOutputs(v, file, lo).Failure?
    ensures ObservablesOutputs(v, file, hi) == ObservablesOutputs(v, file, lo)
    decreases hi - lo
  {
    if lo < hi {
      ObservablesFailureFinal(v, file, lo, hi - 1);
    }
  }

  /** The two nested loops of the extraction macros. */
  method Extract(v: Variant, file: InputFile) returns (result: Result<seq<Written>, ExtractError>)
    ensures result == Extraction(v, file)
  {
    var written: seq<Written> := [];
    var i := 0;
    while i < |ExtractedObservables|
      invariant 0 <= i <= |ExtractedObservables|
      invariant ObservablesOutputs(v, file, i) == Success(written)
    {
      var next := ExtractNext(v, file, i, written);
      if next.Failure? {
        ObservablesFailureFinal(v, file, i + 1, |ExtractedObservables|);
        return next;
      }
      written := next.value;
      i := i + 1;
    }
    result := Success(written);
  }

  /** One pass of the outer loop: an absent observable is skipped, a present one projected. */
  method ExtractNext(v: Variant, file: InputFile, i: nat, written: seq<Written>) returns (next: Result<seq<Written>, ExtractError>)
    requires i < |ExtractedObservables| && ObservablesOutputs(v, file, i) == Success(written)
    ensures next == ObservablesOutputs(v, file, i + 1)
  {
    var obs := Label(ExtractedObservables[i]);
    ObservablesStep(v, file, i);
    var present := HasKey(file.keys, obs);
    if !present {
      return Success(written);
    }
    var radiusWritten := ExtractObservable(v, file, obs);
    if radiusWritten.Failure? {
      return Failure(radiusWritten.error);
    }
    next := Success(written + radiusWritten.value);
  }

  /** One more observable: skipped when absent, else its projections or its failure. */
  lemma ObservablesStep(v: Variant, file: InputFile, i: nat)
    requires i < |ExtractedObservables| && ObservablesOutputs(v, file, i).Success?
    ensures var obs := Label(ExtractedObservables[i]);
            var prev := ObservablesOutputs(v, file, i).value;
            ObservablesOutputs(v, file, i + 1)
            == if obs !in file.keys then Success(prev)
               else if RadiiOutputs(v, file, obs, 7).Failure? then Failure(RadiiOutputs(v, file, obs, 7).error)
               else Success(prev + RadiiOutputs(v, file, obs, 7).value)
  {
  }

  /** The inner loop: the projections of one observable for R = 2 .. 6. */
  method ExtractObservable(v: Variant, file: InputFile, obs: string) returns (result: Result<seq<Written>, ExtractError>)
    ensures result == RadiiOutputs(v, file, obs, 7)
  {
    var radiusWritten: seq<Written> := [];
    var r := 2;
    while r < 7
      invariant 2 <= r <= 7
      invariant RadiiOutputs(v, file, obs, r) == Success(radiusWritten)
    {
      var name := InputName(v, obs, r);
      var axis := LookupAxis(file, obs, name);
      if axis.None? {
        RadiiFailureFinal(v, file, obs, r + 1, 7);
        return Failure(MissingHistogram(obs, name));
      }
      var slices := ExtractRadius(obs, r, axis.value);
      radiusWritten := radiusWritten + slices;
      r := r + 1;
    }
    result := Success(radiusWritten);
  }

  // ---------------------------------------------------------------------------------------
  // What the written file holds.
  // ---------------------------------------------------------------------------------------

  /** A projection as the loops produce it: a known observable, a radius 2..6, a slice of the edges. */
  predicate FromSlice(w: Written) {
    ('_' !in w.observable && w.observable != []) && 2 <= w.r <= 6
    && exists k :: 0 <= k < SliceCount && w.ptMin == PtBinning[k] && w.ptMax == PtBinning[k + 1]
  }

  /** The number of the first n observables present in the file. */
  function PresentCount(file: InputFile, n: nat): (c: nat)
    requires n <= |ExtractedObservables|
    ensures c <= n
  {
    if n == 0 then 0
    else PresentCount(file, n - 1) + (if Label(ExtractedObservables[n - 1]) in file.keys then 1 else 0)
  }

  lemma {:induction false} RadiiOutputsShape(v: Variant, file: InputFile, obs: string, hi: int)
    requires 2 <= hi <= 7 && '_' !in obs && obs != []
    requires RadiiOutputs(v, file, obs, hi).Success?
    ensures |RadiiOutputs(v, file, obs, hi).value| == SliceCount * (hi - 2)
    ensures forall w :: w in RadiiOutputs(v, file, obs, hi).value ==> w.observable == obs && FromSlice(w) && w.r < hi
    decreases hi
  {
    if hi > 2 {
      RadiiOutputsShape(v, file, obs, hi - 1);
      var prev := RadiiOutputs(v, file, obs, hi - 1).value;
      var axis := LookupAxis(file, obs, InputName(v, obs, hi - 1)).value;
      var s := RadiusSlices(obs, hi - 1, axis);
      assert RadiiOutputs(v, file, obs, hi).value == prev + s;
      forall w | w in s
        ensures w.observable == obs && FromSlice(w) && w.r < hi
      {
        var k :| 0 <= k < SliceCount && s[k] == w;
        assert w == SliceOutput(obs, hi - 1, axis, k);
      }
    }
  }

  /**
   * On success the extraction writes 5 radii x 14 slices for every observable present in the
   * file, nothing for an absent one, and every projection is a slice of the edges.
   */
  lemma {:induction false} ExtractionShape(v: Variant, file: InputFile, n: nat)
    requires n <= |ExtractedObservables| && ObservablesOutputs(v, file, n).Success?
    ensures |ObservablesOutputs(v, file, n).value| == 70 * PresentCount(file, n)
    ensures forall w :: w in ObservablesOutputs(v, file, n).value ==> w.observable in file.keys && FromSlice(w)
  {
    if n > 0 {
      assert ObservablesOutputs(v, file, n - 1).Success?;
      ExtractionShape(v, file, n - 1);
      ObservablesStep(v, file, n - 1);
      var obs := Label(ExtractedObservables[n - 1]);
      var prev := ObservablesOutputs(v, file, n - 1).value;
      var cur := ObservablesOutputs(v, file, n).value;
      if obs in file.keys {
        var more := RadiiOutputs(v, file, obs, 7).value;
        RadiiOutputsShape(v, file, obs, 7);
        assert cur == prev + more;
        ShapeAppend(prev, more, file.keys, obs);
        assert PresentCount(file, n) == PresentCount(file, n - 1) + 1;
        assert |cur| == |prev| + 70;
      } else {
        assert cur == prev;
        assert PresentCount(file, n) == PresentCount(file, n - 1);
      }
    }
  }

  /** Appending the projections of a present observable keeps every projection a slice of a present one. */
  lemma ShapeAppend(prev: seq<Written>, more: seq<Written>, keys: seq<string>, obs: string)
    requires forall w :: w in prev ==> w.observable in keys && FromSlice(w)
    requires forall w :: w in more ==> w.observable == obs && FromSlice(w)
    requires obs in keys
    ensures forall w :: w in prev + more ==> w.observable in keys && FromSlice(w)
  {
  }

  /** Every projection's name decodes back to its observable, radius and edges, and its directory to its radius. */
  lemma WrittenNamesDecode(w: Written)
    requires FromSlice(w)
    ensures DecodedFields(OutputName(w)) == Success(DecodedName(w.observable, Some(w.r), Some(w.ptMin), Some(w.ptMax)))
    ensures ParseRDirectory(OutputDirectory(w)) == Success(w.r)
  {
    PtBinningIncreasing();
    DecodeEncoded(w.observable, w.r, w.ptMin, w.ptMax);
    ParseRDirectoryName(w.r);
  }
}
