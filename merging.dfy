/**
 * The merge of the 21 pt-hard bin outputs of the weighted analysis: each file's histograms are
 * normalised to its number of events and then summed bin by bin over the files, per radius and
 * observable; the per-bin event counts and cross sections are tabulated.
 * Histograms are their bin contents, bins 1..N in order.
 */
module Merging {
  import opened Wrappers
  import opened Formatting
  import Extraction

  type Hist = seq<real>

  /** TH1::GetBinContent for a 1-based bin; under- and overflow are not part of the model. */
  function BinContent(h: Hist, bin: int): real {
    if 1 <= bin <= |h| then h[bin - 1] else 0.0
  }

  /** prepareHist: the histogram scaled by 1/nevents. */
  function Scaled(h: Hist, nevents: real): (s: Hist)
    requires nevents != 0.0
    ensures |s| == |h|
    ensures forall j :: 0 <= j < |h| ==> s[j] * nevents == h[j]
  {
    seq(|h|, j requires 0 <= j < |h| => h[j] * (1.0 / nevents))
  }

  // ---------------------------------------------------------------------------------------
  // merge: clone the first histogram, then add the others to the clone in place.
  // ---------------------------------------------------------------------------------------

  /** TH1::Add: bin-wise sum; a histogram with another number of bins is refused and nothing changes. */
  function AddHist(a: Hist, b: Hist): (c: Hist)
    ensures |c| == |a|
  {
    if |a| != |b| then a else seq(|a|, j requires 0 <= j < |a| => a[j] + b[j])
  }

  /** What merge returns for a list of histograms: none for an empty list. */
  function MergedContents(hs: seq<Hist>): (m: Option<Hist>)
    ensures m.Some? <==> |hs| > 0
    ensures m.Some? ==> |m.value| == |hs[0]|
  {
    if |hs| == 0 then None
    else if |hs| == 1 then Some(hs[0])
    else Some(AddHist(MergedContents(hs[..|hs| - 1]).value, hs[|hs| - 1]))
  }

  /** The sum of bin j over the histograms. */
  function ColumnSum(hs: seq<Hist>, j: nat): real
    requires forall i :: 0 <= i < |hs| ==> j < |hs[i]|
  {
    if |hs| == 0 then 0.0 else ColumnSum(hs[..|hs| - 1], j) + hs[|hs| - 1][j]
  }

  predicate SameBinning(hs: seq<Hist>, n: nat) {
    forall i :: 0 <= i < |hs| ==> |hs[i]| == n
  }

  /** Merging histograms with the same binning gives the bin-wise sum over all of them. */
  lemma {:induction false} MergedIsBinwiseSum(hs: seq<Hist>, n: nat)
    requires |hs| > 0 && SameBinning(hs, n)
    ensures |MergedContents(hs).value| == n
    ensures forall j :: 0 <= j < n ==> MergedContents(hs).value[j] == ColumnSum(hs, j)
  {
    if |hs| > 1 {
      var init := hs[..|hs| - 1];
      MergedIsBinwiseSum(init, n);
      forall j | 0 <= j < n
        ensures MergedContents(hs).value[j] == ColumnSum(hs, j)
      {
        assert ColumnSum(hs, j) == ColumnSum(init, j) + hs[|hs| - 1][j];
      }
    } else {
      forall j | 0 <= j < n
        ensures MergedContents(hs).value[j] == ColumnSum(hs, j)
      {
        assert ColumnSum(hs, j) == ColumnSum(hs[..0], j) + hs[0][j];
      }
    }
  }

  /** TH1::Add into the clone, bin by bin. */
  method AddInto(acc: array<real>, h: Hist)
    modifies acc
    ensures acc[..] == AddHist(old(acc[..]), h)
  {
    if acc.Length != |h| {
      return;
    }
    for j := 0 to acc.Length
      invariant forall k :: 0 <= k < j ==> acc[k] == old(acc[k]) + h[k]
      invariant forall k :: j <= k < acc.Length ==> acc[k] == old(acc[k])
    {
      acc[j] := acc[j] + h[j];
    }
  }

  /** merge: the inputs are values, so the sum is built in a fresh clone and they stay as they were. */
  method Merge(histos: seq<Hist>) returns (result: Option<Hist>)
    ensures result == MergedContents(histos)
  {
    var acc: array<real> := new real[0];
    var started := false;
    for i := 0 to |histos|
      invariant started <==> i > 0
      invariant fresh(acc)
      invariant started ==> MergedContents(histos[..i]) == Some(acc[..])
    {
      var h := histos[i];
      if !started {
        acc := new real[|h|](j requires 0 <= j < |h| => h[j]);
        started := true;
        assert acc[..] == h;
        assert histos[..1] == [h];
      } else {
        assert histos[..i + 1][..i] == histos[..i];
        assert MergedContents(histos[..i + 1]) == Some(AddHist(MergedContents(histos[..i]).value, h));
        AddInto(acc, h);
      }
    }
    assert histos[..|histos|] == histos;
    result := if started then Some(acc[..]) else None;
  }

  // ---------------------------------------------------------------------------------------
  // The content of one pt-hard bin file.
  // ---------------------------------------------------------------------------------------

  /** The four per-radius 2D distributions. */
  datatype Dist = DZg | DRg | DNsd | DThetag

  const Dists: seq<Dist> := [DZg, DRg, DNsd, DThetag]

  /** The directory of a distribution. */
  function DirName(d: Dist): string {
    match d
    case DZg => "Zg"
    case DRg => "Rg"
    case DNsd => "Nsd"
    case DThetag => "Thetag"
  }

  /** The observable key getMergeList knows the distribution by. */
  function Key(d: Dist): string {
    match d
    case DZg => "zg"
    case DRg => "rg"
    case DNsd => "nsd"
    case DThetag => "thetag"
  }

  function DistOfKey(observable: string): (d: Option<Dist>)
    ensures d.Some? ==> Key(d.value) == observable
    ensures forall e :: Key(e) == observable ==> d == Some(e)
  {
    if observable == "zg" then Some(DZg)
    else if observable == "rg" then Some(DRg)
    else if observable == "nsd" then Some(DNsd)
    else if observable == "thetag" then Some(DThetag)
    else None
  }

  /** The weighted jet spectrum of a radius, "JetSpectrumWeightedR%02d". */
  function SpectrumName(r: int): string {
    "JetSpectrumWeightedR" + FormatPadded(r, 2)
  }

  /** The weighted distribution of a radius, "h<Observable>WeightR%02d". */
  function DistName(d: Dist, r: int): string {
    "h" + DirName(d) + "WeightR" + FormatPadded(r, 2)
  }

  /** The merged file holds the histograms, under the names, that the normalised extraction reads. */
  lemma MergedNamesAreExtractionInputs(d: Dist, r: int)
    ensures DistName(d, r) == Extraction.InputName(Extraction.MergedOutput, DirName(d), r)
  {
  }

  /** A ROOT file: its top-level histograms, and per directory the histograms in it. */
  datatype RawFile = RawFile(top: map<string, Hist>, dirs: map<string, map<string, Hist>>)

  predicate Present(raw: RawFile, dir: string, name: string) {
    dir in raw.dirs && name in raw.dirs[dir]
  }

  function Get(raw: RawFile, dir: string, name: string): Hist
    requires Present(raw, dir, name)
  {
    raw.dirs[dir][name]
  }

  /** The per-radius histograms of one file, by radius. */
  datatype Radii = Radii(spectra: map<int, Hist>, zg: map<int, Hist>, rg: map<int, Hist>, nsd: map<int, Hist>, thetag: map<int, Hist>)

  /** filedata: event count, cross section, kt histogram and the per-radius histograms. */
  datatype FileData = FileData(nevents: real, crossSection: real, kt: Hist, radii: Radii)

  function DistHists(radii: Radii, d: Dist): map<int, Hist> {
    match d
    case DZg => radii.zg
    case DRg => radii.rg
    case DNsd => radii.nsd
    case DThetag => radii.thetag
  }

  /**
   * A read or a dereference of a histogram that is not there ends the macro; a file without
   * events would be scaled by an infinite factor, which the model does not represent.
   */
  datatype MergeError = MissingFile(file: string) | MissingHistogram(name: string) | NoEvents

  /** A present distribution is scaled and stored under its radius; an absent one is skipped. */
  function StoreDist(m: map<int, Hist>, raw: RawFile, d: Dist, r: int, nevents: real): map<int, Hist>
    requires nevents != 0.0
  {
    if Present(raw, DirName(d), DistName(d, r)) then m[r := Scaled(Get(raw, DirName(d), DistName(d, r)), nevents)]
    else m
  }

  /** One pass of readFile's radius loop. */
  function ReadRadius(raw: RawFile, nevents: real, r: int, acc: Radii): Result<Radii, MergeError>
    requires nevents != 0.0
  {
    if !Present(raw, "Spectra", SpectrumName(r)) then Failure(MissingHistogram(SpectrumName(r)))
    else Success(Radii(acc.spectra[r := Scaled(Get(raw, "Spectra", SpectrumName(r)), nevents)],
                       StoreDist(acc.zg, raw, DZg, r, nevents), StoreDist(acc.rg, raw, DRg, r, nevents),
                       StoreDist(acc.nsd, raw, DNsd, r, nevents), StoreDist(acc.thetag, raw, DThetag, r, nevents)))
  }

  /** The radius loop over R = 2 .. hi-1. */
  function ReadRadii(raw: RawFile, nevents: real, hi: int): Result<Radii, MergeError>
    requires nevents != 0.0
    decreases hi
  {
    if hi <= 2 then Success(Radii(map[], map[], map[], map[], map[]))
    else match ReadRadii(raw, nevents, hi - 1)
      case Failure(e) => Failure(e)
      case Success(acc) => ReadRadius(raw, nevents, hi - 1, acc)
  }

  /** readFile as a function of the file's content. */
  function ReadFileSpec(raw: RawFile): Result<FileData, MergeError> {
    if "hNevents" !in raw.top then Failure(MissingHistogram("hNevents"))
    else if "hXsection" !in raw.top then Failure(MissingHistogram("hXsection"))
    else if "hKtWeighted" !in raw.top then Failure(MissingHistogram("hKtWeighted"))
    else
      var nevents := BinContent(raw.top["hNevents"], 1);
      if nevents == 0.0 then Failure(NoEvents)
      else match ReadRadii(raw, nevents, 7)
        case Failure(e) => Failure(e)
        case Success(radii) =>
          Success(FileData(nevents, BinContent(raw.top["hXsection"], 1), Scaled(raw.top["hKtWeighted"], nevents), radii))
  }

  lemma {:induction false} ReadRadiiFailureFinal(raw: RawFile, nevents: real, lo: int, hi: int)
    requires nevents != 0.0 && lo <= hi && ReadRadii(raw, nevents, lo).Failure?
    ensures ReadRadii(raw, nevents, hi) == ReadRadii(raw, nevents, lo)
    decreases hi - lo
  {
    if lo < hi {
      ReadRadiiFailureFinal(raw, nevents, lo, hi - 1);
    }
  }

  /** readFile. */
  method ReadFile(raw: RawFile) returns (result: Result<FileData, MergeError>)
    ensures result == ReadFileSpec(raw)
  {
    if "hNevents" !in raw.top {
      return Failure(MissingHistogram("hNevents"));
    }
    if "hXsection" !in raw.top {
      return Failure(MissingHistogram("hXsection"));
    }
    var nevents := BinContent(raw.top["hNevents"], 1);
    var crossSection := BinContent(raw.top["hXsection"], 1);
    if "hKtWeighted" !in raw.top {
      return Failure(MissingHistogram("hKtWeighted"));
    }
    if nevents == 0.0 {
      return Failure(NoEvents);
    }
    var kt := Scaled(raw.top["hKtWeighted"], nevents);
    var radii := Radii(map[], map[], map[], map[], map[]);
    var r := 2;
    while r < 7
      invariant 2 <= r <= 7
      invariant ReadRadii(raw, nevents, r) == Success(radii)
    {
      if !Present(raw, "Spectra", SpectrumName(r)) {
        ReadRadiiFailureFinal(raw, nevents, r + 1, 7);
        return Failure(MissingHistogram(SpectrumName(r)));
      }
      var spectrum := Scaled(Get(raw, "Spectra", SpectrumName(r)), nevents);
      radii := Radii(radii.spectra[r := spectrum],
                     StoreDist(radii.zg, raw, DZg, r, nevents), StoreDist(radii.rg, raw, DRg, r, nevents),
                     StoreDist(radii.nsd, raw, DNsd, r, nevents), StoreDist(radii.thetag, raw, DThetag, r, nevents));
      r := r + 1;
    }
    result := Success(FileData(nevents, crossSection, kt, radii));
  }

  /** The spectra of R = 2 .. hi-1 are all there, each scaled. */
  ghost predicate SpectraRead(raw: RawFile, nevents: real, spectra: map<int, Hist>, hi: int)
    requires nevents != 0.0
  {
    (forall r :: r in spectra <==> 2 <= r < hi)
    && (forall r :: r in spectra ==>
          Present(raw, "Spectra", SpectrumName(r)) && spectra[r] == Scaled(Get(raw, "Spectra", SpectrumName(r)), nevents))
  }

  /** A distribution is stored, scaled, exactly for the radii below hi that the file holds it for. */
  ghost predicate DistRead(raw: RawFile, nevents: real, m: map<int, Hist>, d: Dist, hi: int)
    requires nevents != 0.0
  {
    (forall r :: r in m <==> 2 <= r < hi && Present(raw, DirName(d), DistName(d, r)))
    && (forall r :: r in m ==>
          Present(raw, DirName(d), DistName(d, r)) && m[r] == Scaled(Get(raw, DirName(d), DistName(d, r)), nevents))
  }

  /** Every spectrum of R = 2 .. hi-1 is stored; a distribution exactly when the file has it. */
  ghost predicate RadiiRead(raw: RawFile, nevents: real, radii: Radii, hi: int)
    requires nevents != 0.0
  {
    SpectraRead(raw, nevents, radii.spectra, hi)
    && DistRead(raw, nevents, radii.zg, DZg, hi) && DistRead(raw, nevents, radii.rg, DRg, hi)
    && DistRead(raw, nevents, radii.nsd, DNsd, hi) && DistRead(raw, nevents, radii.thetag, DThetag, hi)
  }

  lemma StoreDistRead(m: map<int, Hist>, raw: RawFile, d: Dist, r: int, nevents: real)
    requires nevents != 0.0 && 2 <= r && DistRead(raw, nevents, m, d, r)
    ensures DistRead(raw, nevents, StoreDist(m, raw, d, r, nevents), d, r + 1)
  {
  }

  lemma SpectraStep(spectra: map<int, Hist>, raw: RawFile, r: int, nevents: real)
    requires nevents != 0.0 && 2 <= r && SpectraRead(raw, nevents, spectra, r)
    requires Present(raw, "Spectra", SpectrumName(r))
    ensures SpectraRead(raw, nevents, spectra[r := Scaled(Get(raw, "Spectra", SpectrumName(r)), nevents)], r + 1)
  {
  }

  lemma {:induction false} ReadRadiiContents(raw: RawFile, nevents: real, hi: int)
    requires nevents != 0.0 && 2 <= hi
    requires ReadRadii(raw, nevents, hi).Success?
    ensures RadiiRead(raw, nevents, ReadRadii(raw, nevents, hi).value, hi)
    decreases hi
  {
    if hi > 2 {
      ReadRadiiContents(raw, nevents, hi - 1);
      var acc := ReadRadii(raw, nevents, hi - 1).value;
      var r := hi - 1;
      assert ReadRadii(raw, nevents, hi) == ReadRadius(raw, nevents, r, acc);
      SpectraStep(acc.spectra, raw, r, nevents);
      StoreDistRead(acc.zg, raw, DZg, r, nevents);
      StoreDistRead(acc.rg, raw, DRg, r, nevents);
      StoreDistRead(acc.nsd, raw, DNsd, r, nevents);
      StoreDistRead(acc.thetag, raw, DThetag, r, nevents);
    }
  }

  /**
   * What readFile stores: the event count and cross section from bin 1, the kt histogram and
   * the spectra of R = 2..6 scaled by 1/nevents, and each distribution, scaled the same way,
   * exactly for the radii the file holds it for.
   */
  lemma ReadFileContents(raw: RawFile)
    requires ReadFileSpec(raw).Success?
    ensures var fd := ReadFileSpec(raw).value;
      fd.nevents == BinContent(raw.top["hNevents"], 1) && fd.nevents != 0.0
      && fd.crossSection == BinContent(raw.top["hXsection"], 1)
      && fd.kt == Scaled(raw.top["hKtWeighted"], fd.nevents)
      && RadiiRead(raw, fd.nevents, fd.radii, 7)
  {
    ReadRadiiContents(raw, BinContent(raw.top["hNevents"], 1), 7);
  }

  /** A file without its kt histogram, or without events, is not read. */
  lemma ReadFileFailures(raw: RawFile)
    requires "hNevents" in raw.top && "hXsection" in raw.top
    ensures "hKtWeighted" !in raw.top ==> ReadFileSpec(raw) == Failure(MissingHistogram("hKtWeighted"))
    ensures "hKtWeighted" in raw.top && BinContent(raw.top["hNevents"], 1) == 0.0 ==> ReadFileSpec(raw) == Failure(NoEvents)
  {
  }

  // ---------------------------------------------------------------------------------------
  // getMergeList: the files are indexed by their pt-hard bin and visited in that order.
  // ---------------------------------------------------------------------------------------

  /** What one file adds to the list of an observable and a radius. */
  function Contribution(fd: FileData, observable: string, r: int): seq<Hist> {
    if observable == "kt" then [fd.kt]
    else if observable == "spectrum" then (if r in fd.radii.spectra then [fd.radii.spectra[r]] else [])
    else match DistOfKey(observable)
      case None => []
      case Some(d) => if r in DistHists(fd.radii, d) then [DistHists(fd.radii, d)[r]] else []
  }

  function MergeList(files: seq<FileData>, observable: string, r: int): seq<Hist> {
    if |files| == 0 then [] else MergeList(files[..|files| - 1], observable, r) + Contribution(files[|files| - 1], observable, r)
  }

  method GetMergeList(files: seq<FileData>, observable: string, r: int) returns (result: seq<Hist>)
    ensures result == MergeList(files, observable, r)
  {
    result := [];
    for b := 0 to |files|
      invariant result == MergeList(files[..b], observable, r)
    {
      assert files[..b + 1][..b] == files[..b];
      result := result + Contribution(files[b], observable, r);
    }
    assert files[..|files|] == files;
  }

  /** An observable getMergeList does not know gives an empty list. */
  lemma {:induction false} MergeListUnknown(files: seq<FileData>, observable: string, r: int)
    requires observable != "kt" && observable != "spectrum" && DistOfKey(observable).None?
    ensures MergeList(files, observable, r) == []
  {
    if |files| > 0 {
      MergeListUnknown(files[..|files| - 1], observable, r);
    }
  }

  /** Every file contributes its kt histogram, in bin order. */
  lemma {:induction false} MergeListKt(files: seq<FileData>, r: int)
    ensures |MergeList(files, "kt", r)| == |files|
    ensures forall b :: 0 <= b < |files| ==> MergeList(files, "kt", r)[b] == files[b].kt
  {
    if |files| > 0 {
      MergeListKt(files[..|files| - 1], r);
    }
  }

  /** When every file has the spectrum of a radius, every file contributes it, in bin order. */
  lemma {:induction false} MergeListSpectrum(files: seq<FileData>, r: int)
    requires forall b :: 0 <= b < |files| ==> r in files[b].radii.spectra
    ensures |MergeList(files, "spectrum", r)| == |files|
    ensures forall b :: 0 <= b < |files| ==> MergeList(files, "spectrum", r)[b] == files[b].radii.spectra[r]
  {
    if |files| > 0 {
      MergeListSpectrum(files[..|files| - 1], r);
    }
  }

  /** The number of files holding a distribution for a radius. */
  function Holding(files: seq<FileData>, d: Dist, r: int): nat {
    if |files| == 0 then 0 else Holding(files[..|files| - 1], d, r) + (if r in DistHists(files[|files| - 1].radii, d) then 1 else 0)
  }

  /**
   * For a distribution, exactly the files holding it for the radius contribute, each with
   * that histogram; the list is empty exactly when no file holds it.
   */
  lemma {:induction false} MergeListDist(files: seq<FileData>, d: Dist, r: int)
    ensures |MergeList(files, Key(d), r)| == Holding(files, d, r)
    ensures forall h :: h in MergeList(files, Key(d), r) ==>
      exists b :: 0 <= b < |files| && r in DistHists(files[b].radii, d) && h == DistHists(files[b].radii, d)[r]
    ensures Holding(files, d, r) == 0 <==> forall b :: 0 <= b < |files| ==> r !in DistHists(files[b].radii, d)
  {
    MergeListDistLength(files, d, r);
    MergeListDistMembers(files, d, r);
    HoldingNone(files, d, r);
  }

  /** A distribution's contribution is its histogram when the file holds it, nothing otherwise. */
  lemma DistContribution(fd: FileData, d: Dist, r: int)
    ensures Contribution(fd, Key(d), r) == if r in DistHists(fd.radii, d) then [DistHists(fd.radii, d)[r]] else []
  {
  }

  lemma {:induction false} MergeListDistLength(files: seq<FileData>, d: Dist, r: int)
    ensures |MergeList(files, Key(d), r)| == Holding(files, d, r)
  {
    if |files| > 0 {
      MergeListDistLength(files[..|files| - 1], d, r);
      DistContribution(files[|files| - 1], d, r);
    }
  }

  lemma {:induction false} MergeListDistMembers(files: seq<FileData>, d: Dist, r: int)
    ensures forall h :: h in MergeList(files, Key(d), r) ==>
      exists b :: 0 <= b < |files| && r in DistHists(files[b].radii, d) && h == DistHists(files[b].radii, d)[r]
  {
    if |files| > 0 {
      var init := files[..|files| - 1];
      var last := |files| - 1;
      MergeListDistMembers(init, d, r);
      DistContribution(files[last], d, r);
      assert MergeList(files, Key(d), r) == MergeList(init, Key(d), r) + Contribution(files[last], Key(d), r);
      forall h | h in MergeList(files, Key(d), r)
        ensures exists b :: 0 <= b < |files| && r in DistHists(files[b].radii, d) && h == DistHists(files[b].radii, d)[r]
      {
        if h in MergeList(init, Key(d), r) {
          var b :| 0 <= b < |init| && r in DistHists(init[b].radii, d) && h == DistHists(init[b].radii, d)[r];
          assert files[b] == init[b];
        } else {
          assert r in DistHists(files[last].radii, d) && h == DistHists(files[last].radii, d)[r];
        }
      }
    }
  }

  lemma {:induction false} HoldingNone(files: seq<FileData>, d: Dist, r: int)
    ensures Holding(files, d, r) == 0 <==> forall b :: 0 <= b < |files| ==> r !in DistHists(files[b].radii, d)
  {
    if |files| > 0 {
      var init := files[..|files| - 1];
      var last := |files| - 1;
      HoldingNone(init, d, r);
      if Holding(files, d, r) == 0 {
        forall b | 0 <= b < |files|
          ensures r !in DistHists(files[b].radii, d)
        {
          if b < last {
            assert files[b] == init[b];
          }
        }
      }
      if forall b :: 0 <= b < |files| ==> r !in DistHists(files[b].radii, d) {
        forall b | 0 <= b < |init|
          ensures r !in DistHists(init[b].radii, d)
        {
          assert files[b] == init[b];
        }
      }
    }
  }

  // ---------------------------------------------------------------------------------------
  // mergePtHardBins.
  // ---------------------------------------------------------------------------------------

  const PtHardBinCount: nat := 21

  /** The file of pt-hard bin b, "bin%d/jetspectrum.root". */
  function FileName(b: int): string {
    "bin" + FormatInt(b) + "/jetspectrum.root"
  }

  /** Reading the files of bins 0 .. n-1, in order, up to the first that fails. */
  function ReadAll(fs: map<string, RawFile>, n: nat): (result: Result<seq<FileData>, MergeError>)
    ensures result.Success? ==> |result.value| == n
  {
    if n == 0 then Success([])
    else match ReadAll(fs, n - 1)
      case Failure(e) => Failure(e)
      case Success(prev) =>
        if FileName(n - 1) !in fs then Failure(MissingFile(FileName(n - 1)))
        else match ReadFileSpec(fs[FileName(n - 1)])
          case Failure(e) => Failure(e)
          case Success(fd) => Success(prev + [fd])
  }

  lemma {:induction false} ReadAllFailureFinal(fs: map<string, RawFile>, lo: nat, hi: nat)
    requires lo <= hi && ReadAll(fs, lo).Failure?
    ensures ReadAll(fs, hi) == ReadAll(fs, lo)
    decreases hi - lo
  {
    if lo < hi {
      ReadAllFailureFinal(fs, lo, hi - 1);
    }
  }

  /** A file as readFile leaves it: every spectrum of R = 2..6 present. */
  predicate WellRead(fd: FileData) {
    forall r :: 2 <= r <= 6 ==> r in fd.radii.spectra
  }

  lemma WellReadSpectra(files: seq<FileData>, r: int)
    requires forall b :: 0 <= b < |files| ==> WellRead(files[b])
    requires 2 <= r <= 6
    ensures forall b :: 0 <= b < |files| ==> r in files[b].radii.spectra
  {
    forall b | 0 <= b < |files|
      ensures r in files[b].radii.spectra
    {
      assert WellRead(files[b]);
    }
  }

  lemma {:induction false} ReadAllWellRead(fs: map<string, RawFile>, n: nat)
    requires ReadAll(fs, n).Success?
    ensures |ReadAll(fs, n).value| == n
    ensures forall b :: 0 <= b < n ==> WellRead(ReadAll(fs, n).value[b])
  {
    if n > 0 {
      ReadAllWellRead(fs, n - 1);
      var raw := fs[FileName(n - 1)];
      ReadFileContents(raw);
    }
  }

  /** The merged file: the two tables, the kt histogram and the merged per-radius histograms. */
  datatype MergedFile = MergedFile(nevents: Hist, crossSections: Hist, kt: Hist, spectra: seq<Hist>,
                                   zg: seq<Hist>, rg: seq<Hist>, nsd: seq<Hist>, thetag: seq<Hist>)

  function MergedDist(m: MergedFile, d: Dist): seq<Hist> {
    match d
    case DZg => m.zg
    case DRg => m.rg
    case DNsd => m.nsd
    case DThetag => m.thetag
  }

  /** The merged spectra of R = 2 .. hi-1. */
  function SpectraMerges(files: seq<FileData>, hi: int): (s: seq<Hist>)
    requires |files| > 0 && forall b :: 0 <= b < |files| ==> WellRead(files[b])
    requires hi <= 7
    ensures |s| == if hi <= 2 then 0 else hi - 2
    decreases hi
  {
    if hi <= 2 then []
    else
      WellReadSpectra(files, hi - 1);
      MergeListSpectrum(files, hi - 1);
      SpectraMerges(files, hi - 1) + [MergedContents(MergeList(files, "spectrum", hi - 1)).value]
  }

  /** The merged distributions of R = 2 .. hi-1, for the radii with at least one histogram. */
  function DistMerges(files: seq<FileData>, d: Dist, hi: int): seq<Hist>
    decreases hi
  {
    if hi <= 2 then []
    else
      var list := MergeList(files, Key(d), hi - 1);
      DistMerges(files, d, hi - 1) + (if |list| > 0 then [MergedContents(list).value] else [])
  }

  /** FindBin on the table axis: 21 unit bins centred on 0..20. */
  function TableBin(x: real): int {
    if x < -0.5 then 0
    else if x >= 20.5 then PtHardBinCount + 1
    else (x + 0.5).Floor + 1
  }

  /** Pt-hard bin b lands in table bin b+1, the bin centred on b. */
  lemma TableBinOfPtHardBin(b: int)
    requires 0 <= b < PtHardBinCount
    ensures TableBin(b as real) == b + 1
  {
    assert (b as real + 0.5).Floor == b;
  }

  /** The merged file made from the 21 files as read. */
  function Assemble(files: seq<FileData>): MergedFile
    requires |files| == PtHardBinCount && forall b :: 0 <= b < |files| ==> WellRead(files[b])
  {
    MergedFile(seq(PtHardBinCount, b requires 0 <= b < PtHardBinCount => files[b].nevents),
               seq(PtHardBinCount, b requires 0 <= b < PtHardBinCount => files[b].crossSection),
               MergedKt(files),
               SpectraMerges(files, 7),
               DistMerges(files, DZg, 7), DistMerges(files, DRg, 7), DistMerges(files, DNsd, 7), DistMerges(files, DThetag, 7))
  }

  /** mergePtHardBins as a function of the file system. */
  function MergeSpec(fs: map<string, RawFile>): Result<MergedFile, MergeError> {
    match ReadAll(fs, PtHardBinCount)
    case Failure(e) => Failure(e)
    case Success(files) =>
      ReadAllWellRead(fs, PtHardBinCount);
      Success(Assemble(files))
  }

  /** The directories of the merged file: the spectra always, a distribution's only if it has a histogram. */
  function Directories(m: MergedFile): seq<string> {
    ["Spectra"]
    + (if |m.zg| > 0 then ["Zg"] else []) + (if |m.rg| > 0 then ["Rg"] else [])
    + (if |m.nsd| > 0 then ["Nsd"] else []) + (if |m.thetag| > 0 then ["Thetag"] else [])
  }

  /** Merge one distribution for one radius, if any file has it. */
  method MergeDist(files: seq<FileData>, d: Dist, r: int) returns (merged: seq<Hist>)
    ensures var list := MergeList(files, Key(d), r);
      merged == if |list| > 0 then [MergedContents(list).value] else []
  {
    var mergelist := GetMergeList(files, Key(d), r);
    merged := [];
    if |mergelist| > 0 {
      var m := Merge(mergelist);
      merged := [m.value];
    }
  }

  /** The reading loop of mergePtHardBins: readFile for bins 0..20, in order. */
  method ReadFiles(fs: map<string, RawFile>) returns (result: Result<seq<FileData>, MergeError>)
    ensures result == ReadAll(fs, PtHardBinCount)
  {
    var files: seq<FileData> := [];
    for b := 0 to PtHardBinCount
      invariant ReadAll(fs, b) == Success(files)
    {
      var name := FileName(b);
      if name !in fs {
        ReadAllFailureFinal(fs, b + 1, PtHardBinCount);
        return Failure(MissingFile(name));
      }
      var fd := ReadFile(fs[name]);
      if fd.Failure? {
        ReadAllFailureFinal(fs, b + 1, PtHardBinCount);
        return Failure(fd.error);
      }
      files := files + [fd.value];
    }
    result := Success(files);
  }

  /** The two tables: SetBinContent at the bin FindBin gives for each pt-hard bin. */
  method FillTables(files: seq<FileData>) returns (neventsTable: Hist, crossSectionTable: Hist)
    requires |files| == PtHardBinCount
    ensures neventsTable == seq(PtHardBinCount, b requires 0 <= b < PtHardBinCount => files[b].nevents)
    ensures crossSectionTable == seq(PtHardBinCount, b requires 0 <= b < PtHardBinCount => files[b].crossSection)
  {
    var nevents := new real[PtHardBinCount];
    var crossSections := new real[PtHardBinCount];
    for b := 0 to PtHardBinCount
      invariant forall k :: 0 <= k < b ==> nevents[k] == files[k].nevents && crossSections[k] == files[k].crossSection
    {
      TableBinOfPtHardBin(b);
      nevents[TableBin(b as real) - 1] := files[b].nevents;
      crossSections[TableBin(b as real) - 1] := files[b].crossSection;
    }
    neventsTable, crossSectionTable := nevents[..], crossSections[..];
  }

  /** The radius loop of mergePtHardBins: every spectrum, and each distribution some file has. */
  method MergeRadii(files: seq<FileData>) returns (spectra: seq<Hist>, zg: seq<Hist>, rg: seq<Hist>, nsd: seq<Hist>, thetag: seq<Hist>)
    requires |files| > 0 && forall b :: 0 <= b < |files| ==> WellRead(files[b])
    ensures spectra == SpectraMerges(files, 7)
    ensures zg == DistMerges(files, DZg, 7) && rg == DistMerges(files, DRg, 7)
    ensures nsd == DistMerges(files, DNsd, 7) && thetag == DistMerges(files, DThetag, 7)
  {
    spectra, zg, rg, nsd, thetag := [], [], [], [], [];
    for r := 2 to 7
      invariant spectra == SpectraMerges(files, r)
      invariant zg == DistMerges(files, DZg, r) && rg == DistMerges(files, DRg, r)
      invariant nsd == DistMerges(files, DNsd, r) && thetag == DistMerges(files, DThetag, r)
    {
      var spectrumList := GetMergeList(files, "spectrum", r);
      WellReadSpectra(files, r);
      MergeListSpectrum(files, r);
      var spectrum := Merge(spectrumList);
      spectra := spectra + [spectrum.value];
      var more := MergeDist(files, DZg, r);
      zg := zg + more;
      more := MergeDist(files, DRg, r);
      rg := rg + more;
      more := MergeDist(files, DNsd, r);
      nsd := nsd + more;
      more := MergeDist(files, DThetag, r);
      thetag := thetag + more;
    }
  }

  /** The tables and the merges of mergePtHardBins, once the files are read. */
  method MergeFiles(files: seq<FileData>) returns (merged: MergedFile)
    requires |files| == PtHardBinCount && forall b :: 0 <= b < |files| ==> WellRead(files[b])
    ensures merged == Assemble(files)
  {
    var neventsTable, crossSectionTable := FillTables(files);
    var ktList := GetMergeList(files, "kt", 0);
    MergeListKt(files, 0);
    var kt := Merge(ktList);
    var spectra, zg, rg, nsd, thetag := MergeRadii(files);
    merged := MergedFile(neventsTable, crossSectionTable, kt.value, spectra, zg, rg, nsd, thetag);
  }

  /** mergePtHardBins: read the 21 files, then tabulate and merge. */
  method MergePtHardBins(fs: map<string, RawFile>) returns (result: Result<MergedFile, MergeError>)
    ensures result == MergeSpec(fs)
  {
    var files := ReadFiles(fs);
    if files.Failure? {
      return Failure(files.error);
    }
    ReadAllWellRead(fs, PtHardBinCount);
    var merged := MergeFiles(files.value);
    result := Success(merged);
  }

  // ---------------------------------------------------------------------------------------
  // Properties of the merged file.
  // ---------------------------------------------------------------------------------------

  /** Table bin b+1 holds file b's event count and cross section, as read from its bin 1. */
  lemma TablesHoldFileValues(fs: map<string, RawFile>, b: nat)
    requires MergeSpec(fs).Success? && b < PtHardBinCount
    ensures ReadAll(fs, PtHardBinCount).Success?
    ensures BinContent(MergeSpec(fs).value.nevents, b + 1) == ReadAll(fs, PtHardBinCount).value[b].nevents
    ensures BinContent(MergeSpec(fs).value.crossSections, b + 1) == ReadAll(fs, PtHardBinCount).value[b].crossSection
  {
    var files := ReadAll(fs, PtHardBinCount).value;
    ReadAllWellRead(fs, PtHardBinCount);
    assert MergeSpec(fs) == Success(Assemble(files));
    AssembledTables(files, b);
  }

  /** The tables of the assembled file hold, in bin b+1, file b's values. */
  lemma AssembledTables(files: seq<FileData>, b: nat)
    requires |files| == PtHardBinCount && forall k :: 0 <= k < |files| ==> WellRead(files[k])
    requires b < PtHardBinCount
    ensures BinContent(Assemble(files).nevents, b + 1) == files[b].nevents
    ensures BinContent(Assemble(files).crossSections, b + 1) == files[b].crossSection
  {
    var m := Assemble(files);
    assert m.nevents == seq(PtHardBinCount, k requires 0 <= k < PtHardBinCount => files[k].nevents);
    assert m.crossSections == seq(PtHardBinCount, k requires 0 <= k < PtHardBinCount => files[k].crossSection);
  }

  lemma {:induction false} DistMergesEmpty(files: seq<FileData>, d: Dist, hi: int)
    ensures |DistMerges(files, d, hi)| == 0 <==>
      forall b, r :: 0 <= b < |files| && 2 <= r < hi ==> r !in DistHists(files[b].radii, d)
    decreases hi
  {
    if hi > 2 {
      DistMergesEmpty(files, d, hi - 1);
      MergeListDist(files, d, hi - 1);
    }
  }

  /** Some file holds the distribution for some radius 2..6. */
  ghost predicate AnyFileHolds(files: seq<FileData>, d: Dist) {
    exists b, r :: 0 <= b < |files| && 2 <= r <= 6 && r in DistHists(files[b].radii, d)
  }

  /** The directories written are the spectra's and those of the distributions with a merged histogram. */
  lemma DirectoryOf(m: MergedFile, d: Dist)
    ensures DirName(d) in Directories(m) <==> |MergedDist(m, d)| > 0
    ensures "Spectra" in Directories(m)
  {
    var dirs := Directories(m);
    assert dirs[0] == "Spectra";
    if |MergedDist(m, d)| > 0 {
      assert DirName(d) in dirs;
    } else {
      forall k | 0 <= k < |dirs|
        ensures dirs[k] != DirName(d)
      {
      }
    }
  }

  /** On the files as read: a distribution's directory is written iff some file holds it. */
  lemma AssembledDirectory(files: seq<FileData>, d: Dist)
    requires |files| == PtHardBinCount && forall b :: 0 <= b < |files| ==> WellRead(files[b])
    ensures DirName(d) in Directories(Assemble(files)) <==> AnyFileHolds(files, d)
    ensures "Spectra" in Directories(Assemble(files))
  {
    DistMergesEmpty(files, d, 7);
    assert MergedDist(Assemble(files), d) == DistMerges(files, d, 7);
    DirectoryOf(Assemble(files), d);
  }

  /**
   * A distribution's directory is written exactly when some file holds that distribution for
   * some radius 2..6; the spectra directory is always written.
   */
  lemma DirectoryIffAnyHistogram(fs: map<string, RawFile>, d: Dist)
    requires MergeSpec(fs).Success?
    ensures ReadAll(fs, PtHardBinCount).Success?
    ensures DirName(d) in Directories(MergeSpec(fs).value) <==> AnyFileHolds(ReadAll(fs, PtHardBinCount).value, d)
    ensures "Spectra" in Directories(MergeSpec(fs).value)
  {
    var files := ReadAll(fs, PtHardBinCount).value;
    ReadAllWellRead(fs, PtHardBinCount);
    assert MergeSpec(fs).value == Assemble(files);
    AssembledDirectory(files, d);
  }

  /** All five spectra are written, one per radius. */
  lemma FiveSpectra(fs: map<string, RawFile>)
    requires MergeSpec(fs).Success?
    ensures |MergeSpec(fs).value.spectra| == 5
  {
  }

  /** The kt histograms of the files, in bin order. */
  function KtHistograms(files: seq<FileData>): (k: seq<Hist>)
    ensures |k| == |files| && forall b :: 0 <= b < |files| ==> k[b] == files[b].kt
  {
    seq(|files|, b requires 0 <= b < |files| => files[b].kt)
  }

  /** The merged kt histogram. */
  function MergedKt(files: seq<FileData>): Hist
    requires |files| > 0
  {
    MergeListKt(files, 0);
    MergedContents(MergeList(files, "kt", 0)).value
  }

  /**
   * The merged kt histogram of files with a common binning is, bin by bin, the sum over the
   * files of their kt histograms, each already scaled by 1/nevents of its own file.
   */
  lemma MergedKtIsSum(files: seq<FileData>, n: nat)
    requires |files| > 0
    requires forall b :: 0 <= b < |files| ==> |files[b].kt| == n
    ensures |MergedKt(files)| == n
    ensures forall j :: 0 <= j < n ==> MergedKt(files)[j] == ColumnSum(KtHistograms(files), j)
  {
    MergeListKt(files, 0);
    var list := MergeList(files, "kt", 0);
    assert list == KtHistograms(files);
    MergedIsBinwiseSum(list, n);
  }
}
