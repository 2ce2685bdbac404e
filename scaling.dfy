/**
 * The cross-section scaling of a Pythia pt-hard output: the weight is the cross section over
 * the number of trials in the first filled bin of the trials histogram, and every histogram of
 * the file except the scaling histograms themselves is multiplied by it.
 */
module Scaling {
  import opened Wrappers
  import opened Merging

  // ---------------------------------------------------------------------------------------
  // getweight.
  // ---------------------------------------------------------------------------------------

  /** The first 1-based bin of a histogram with nonzero content, if any. */
  function FirstFilledBin(h: Hist): (bin: Option<nat>)
    ensures bin.Some? ==> 1 <= bin.value <= |h| && h[bin.value - 1] != 0.0
    ensures bin.Some? ==> forall k :: 0 <= k < bin.value - 1 ==> h[k] == 0.0
    ensures bin.None? <==> forall k :: 0 <= k < |h| ==> h[k] == 0.0
  {
    if |h| == 0 then None
    else match FirstFilledBin(h[..|h| - 1])
      case Some(b) => Some(b)
      case None => if h[|h| - 1] != 0.0 then Some(|h|) else None
  }

  /** The scan of getweight: bin stays -1 unless a filled bin is found, and the scan stops there. */
  method FindWeightBin(trials: Hist) returns (bin: int)
    ensures bin == -1 <==> forall k :: 0 <= k < |trials| ==> trials[k] == 0.0
    ensures bin != -1 ==> 1 <= bin <= |trials| && trials[bin - 1] != 0.0
    ensures bin != -1 ==> forall k :: 0 <= k < bin - 1 ==> trials[k] == 0.0
  {
    bin := -1;
    var ib := 0;
    while ib < |trials|
      invariant 0 <= ib <= |trials|
      invariant bin == -1
      invariant forall k :: 0 <= k < ib ==> trials[k] == 0.0
    {
      if trials[ib] != 0.0 {
        bin := ib + 1;
        break;
      }
      ib := ib + 1;
    }
  }

  /**
   * The weight: cross section over trials in that bin. Without a filled bin the source's bin lookup
   * at -1 falls back to the underflow bin and takes the ratio of the underflow contents; the model
   * has no weight then.
   */
  function Weight(xsec: Hist, trials: Hist): (w: Option<real>)
    ensures w.Some? <==> FirstFilledBin(trials).Some?
  {
    match FirstFilledBin(trials)
    case None => None
    case Some(b) => Some(BinContent(xsec, b) / BinContent(trials, b))
  }

  /** getweight. */
  method GetWeight(xsec: Hist, trials: Hist) returns (weight: Option<real>)
    ensures weight == Weight(xsec, trials)
  {
    var bin := FindWeightBin(trials);
    if bin == -1 {
      return None;
    }
    assert FirstFilledBin(trials) == Some(bin);
    weight := Some(BinContent(xsec, bin) / BinContent(trials, bin));
  }

  /** The weight is taken from the first filled bin, whatever the later bins hold. */
  lemma WeightFromFirstFilled(xsec: Hist, trials: Hist, b: nat)
    requires 1 <= b <= |trials| && trials[b - 1] != 0.0
    requires forall k :: 0 <= k < b - 1 ==> trials[k] == 0.0
    ensures Weight(xsec, trials) == Some(BinContent(xsec, b) / trials[b - 1])
  {
    var f := FirstFilledBin(trials);
    assert f.Some? by {
      assert trials[b - 1] != 0.0;
    }
  }

  // ---------------------------------------------------------------------------------------
  // The objects of a file.
  // ---------------------------------------------------------------------------------------

  /**
   * A ROOT object as far as the scaling sees it: a histogram (TH1, TProfile included), a
   * sparse histogram, a collection of objects, a directory of named objects, or anything else.
   */
  datatype Obj =
    | H1(contents: Hist)
    | HnSparse(contents: Hist)
    | Collection(items: seq<Obj>)
    | Directory(keys: seq<(string, Obj)>)
    | Other(tag: nat)

  /** TH1::Scale / THnSparse::Scale. */
  function ScaleBy(h: Hist, w: real): (s: Hist)
    ensures |s| == |h| && forall j :: 0 <= j < |h| ==> s[j] == h[j] * w
  {
    seq(|h|, j requires 0 <= j < |h| => h[j] * w)
  }

  /** A histogram of either kind scaled; any other object as it is. */
  function ScaleLeaf(o: Obj, w: real): Obj {
    match o
    case H1(c) => H1(ScaleBy(c, w))
    case HnSparse(c) => HnSparse(ScaleBy(c, w))
    case _ => o
  }

  /** scaleRecursive applied to one object: collections are descended into, directories are not. */
  function ScaledObj(o: Obj, w: real): Obj
    decreases o
  {
    match o
    case Collection(items) => Collection(ScaledItems(items, w))
    case _ => ScaleLeaf(o, w)
  }

  function ScaledItems(items: seq<Obj>, w: real): (s: seq<Obj>)
    ensures |s| == |items|
    decreases items
  {
    if |items| == 0 then [] else ScaledItems(items[..|items| - 1], w) + [ScaledObj(items[|items| - 1], w)]
  }

  /** scaleRecursive: the items scaled one by one, collections by a recursive call. */
  method ScaleRecursive(items: seq<Obj>, weight: real) returns (scaled: seq<Obj>)
    ensures scaled == ScaledItems(items, weight)
    decreases items
  {
    scaled := [];
    for i := 0 to |items|
      invariant scaled == ScaledItems(items[..i], weight)
    {
      assert items[..i + 1][..i] == items[..i];
      var obj := items[i];
      if obj.Collection? {
        var inner := ScaleRecursive(obj.items, weight);
        scaled := scaled + [Collection(inner)];
      } else {
        scaled := scaled + [ScaleLeaf(obj, weight)];
      }
    }
    assert items[..|items|] == items;
  }

  /** The histogram contents of an object at any depth below collections, in order. */
  function Leaves(o: Obj): seq<Hist>
    decreases o
  {
    match o
    case H1(c) => [c]
    case HnSparse(c) => [c]
    case Collection(items) => ItemLeaves(items)
    case _ => []
  }

  function ItemLeaves(items: seq<Obj>): seq<Hist>
    decreases items
  {
    if |items| == 0 then [] else ItemLeaves(items[..|items| - 1]) + Leaves(items[|items| - 1])
  }

  /** The object with every histogram emptied: what the scaling must leave as it was. */
  function Skeleton(o: Obj): Obj
    decreases o
  {
    match o
    case H1(c) => H1([])
    case HnSparse(c) => HnSparse([])
    case Collection(items) => Collection(ItemSkeletons(items))
    case _ => o
  }

  function ItemSkeletons(items: seq<Obj>): seq<Obj>
    decreases items
  {
    if |items| == 0 then [] else ItemSkeletons(items[..|items| - 1]) + [Skeleton(items[|items| - 1])]
  }

  /** Each histogram scaled by the same weight. */
  function ScaledAll(hs: seq<Hist>, w: real): (s: seq<Hist>)
    ensures |s| == |hs| && forall i :: 0 <= i < |hs| ==> s[i] == ScaleBy(hs[i], w)
  {
    seq(|hs|, i requires 0 <= i < |hs| => ScaleBy(hs[i], w))
  }

  lemma ScaledAllConcat(a: seq<Hist>, b: seq<Hist>, w: real)
    ensures ScaledAll(a + b, w) == ScaledAll(a, w) + ScaledAll(b, w)
  {
  }

  /**
   * scaleRecursive scales every histogram leaf, at any depth, by the weight, and changes
   * nothing else: the objects keep their structure and every other object stays as it was.
   */
  lemma {:induction false} ScaledObjLeaves(o: Obj, w: real)
    ensures Leaves(ScaledObj(o, w)) == ScaledAll(Leaves(o), w)
    ensures Skeleton(ScaledObj(o, w)) == Skeleton(o)
    decreases o, 1
  {
    match o
    case Collection(items) =>
      ScaledItemsLeaves(items, w);
    case _ =>
  }

  lemma {:induction false} ScaledItemsLeaves(items: seq<Obj>, w: real)
    ensures ItemLeaves(ScaledItems(items, w)) == ScaledAll(ItemLeaves(items), w)
    ensures ItemSkeletons(ScaledItems(items, w)) == ItemSkeletons(items)
    decreases items, 0
  {
    if |items| > 0 {
      var init, last := items[..|items| - 1], items[|items| - 1];
      ScaledItemsLeaves(init, w);
      ScaledObjLeaves(last, w);
      var s := ScaledItems(items, w);
      assert s[..|s| - 1] == ScaledItems(init, w);
      assert s[|s| - 1] == ScaledObj(last, w);
      ScaledAllConcat(ItemLeaves(init), Leaves(last), w);
    }
  }

  /** Scaling by one changes nothing. */
  lemma {:induction false} ScaleByOne(o: Obj)
    ensures ScaledObj(o, 1.0) == o
    decreases o, 1
  {
    match o
    case H1(c) => assert ScaleBy(c, 1.0) == c;
    case HnSparse(c) => assert ScaleBy(c, 1.0) == c;
    case Collection(items) => ScaleItemsByOne(items);
    case _ =>
  }

  lemma {:induction false} ScaleItemsByOne(items: seq<Obj>)
    ensures ScaledItems(items, 1.0) == items
    decreases items, 0
  {
    if |items| > 0 {
      ScaleItemsByOne(items[..|items| - 1]);
      ScaleByOne(items[|items| - 1]);
      assert items[..|items| - 1] + [items[|items| - 1]] == items;
    }
  }

  lemma ScaleByTwice(h: Hist, a: real, b: real)
    ensures ScaleBy(ScaleBy(h, a), b) == ScaleBy(h, a * b)
  {
    forall j | 0 <= j < |h|
      ensures ScaleBy(ScaleBy(h, a), b)[j] == ScaleBy(h, a * b)[j]
    {
      assert h[j] * a * b == h[j] * (a * b);
    }
  }

  /** Two scalings are one scaling by the product of the weights. */
  lemma {:induction false} ScaleTwice(o: Obj, a: real, b: real)
    ensures ScaledObj(ScaledObj(o, a), b) == ScaledObj(o, a * b)
    decreases o, 1
  {
    match o
    case H1(c) => ScaleByTwice(c, a, b);
    case HnSparse(c) => ScaleByTwice(c, a, b);
    case Collection(items) => ScaleItemsTwice(items, a, b);
    case _ =>
  }

  lemma {:induction false} ScaleItemsTwice(items: seq<Obj>, a: real, b: real)
    ensures ScaledItems(ScaledItems(items, a), b) == ScaledItems(items, a * b)
    decreases items, 0
  {
    if |items| > 0 {
      var init, last := items[..|items| - 1], items[|items| - 1];
      ScaleItemsTwice(init, a, b);
      ScaleTwice(last, a, b);
      var s := ScaledItems(items, a);
      assert s[..|s| - 1] == ScaledItems(init, a);
    }
  }

  // ---------------------------------------------------------------------------------------
  // makeScaled.
  // ---------------------------------------------------------------------------------------

  /** The scaling histograms, written as they are. */
  const ExcludeList: seq<string> := ["hNevents", "hXsection", "hTrials"]

  /** The object of the first key with the given name. */
  function Lookup(keys: seq<(string, Obj)>, name: string): (o: Option<Obj>)
    ensures o.Some? ==> exists i :: 0 <= i < |keys| && keys[i] == (name, o.value)
    ensures o.None? <==> forall i :: 0 <= i < |keys| ==> keys[i].0 != name
  {
    if |keys| == 0 then None
    else if keys[0].0 == name then Some(keys[0].1)
    else
      var rest := Lookup(keys[1..], name);
      assert forall i :: 1 <= i < |keys| ==> keys[i] == keys[1..][i - 1];
      rest
  }

  /** Reading the weight dereferences both histograms; a missing one ends the macro. */
  datatype ScaleError = MissingScalingHistogram(name: string) | NoFilledBin

  /** One key of a directory, one level down: a histogram is scaled, anything else written as read. */
  function ScaledInDirectory(key: (string, Obj), w: real): (string, Obj) {
    (key.0, ScaleLeaf(key.1, w))
  }

  /** One top-level key of the file as makeScaled writes it. */
  function ScaledTopLevel(key: (string, Obj), w: real): (string, Obj) {
    if key.0 in ExcludeList then key
    else match key.1
      case Directory(inner) => (key.0, Directory(seq(|inner|, i requires 0 <= i < |inner| => ScaledInDirectory(inner[i], w))))
      case _ => (key.0, ScaleLeaf(key.1, w))
  }

  /** Both scaling histograms read as TH1. */
  function HistOf(o: Option<Obj>): Option<Hist> {
    match o
    case Some(H1(c)) => Some(c)
    case _ => None
  }

  /** makeScaled as a function of the file's keys. */
  function MakeScaledSpec(keys: seq<(string, Obj)>): Result<seq<(string, Obj)>, ScaleError> {
    match HistOf(Lookup(keys, "hXsection"))
    case None => Failure(MissingScalingHistogram("hXsection"))
    case Some(xsec) =>
      match HistOf(Lookup(keys, "hNevents"))
      case None => Failure(MissingScalingHistogram("hNevents"))
      case Some(events) =>
        match Weight(xsec, events)
        case None => Failure(NoFilledBin)
        case Some(w) => Success(ScaledKeys(keys, w))
  }

  /** The file's keys, each scaled in its place. */
  function ScaledKeys(keys: seq<(string, Obj)>, w: real): (scaled: seq<(string, Obj)>)
    ensures |scaled| == |keys|
    ensures forall k :: 0 <= k < |keys| ==> scaled[k] == ScaledTopLevel(keys[k], w)
  {
    seq(|keys|, i requires 0 <= i < |keys| => ScaledTopLevel(keys[i], w))
  }

  /** The key loop inside a directory. */
  method ScaleDirectory(inner: seq<(string, Obj)>, weight: real) returns (written: seq<(string, Obj)>)
    ensures written == seq(|inner|, i requires 0 <= i < |inner| => ScaledInDirectory(inner[i], weight))
  {
    written := [];
    for k := 0 to |inner|
      invariant |written| == k
      invariant forall i :: 0 <= i < k ==> written[i] == ScaledInDirectory(inner[i], weight)
    {
      var obj1 := inner[k].1;
      if obj1.H1? {
        obj1 := H1(ScaleBy(obj1.contents, weight));
      } else if obj1.HnSparse? {
        obj1 := HnSparse(ScaleBy(obj1.contents, weight));
      }
      written := written + [(inner[k].0, obj1)];
    }
  }

  /** makeScaled: the weight from hXsection and hNevents, then the keys of the file in order. */
  method MakeScaled(keys: seq<(string, Obj)>) returns (result: Result<seq<(string, Obj)>, ScaleError>)
    ensures result == MakeScaledSpec(keys)
  {
    var xsechist := HistOf(Lookup(keys, "hXsection"));
    if xsechist.None? {
      return Failure(MissingScalingHistogram("hXsection"));
    }
    var eventhist := HistOf(Lookup(keys, "hNevents"));
    if eventhist.None? {
      return Failure(MissingScalingHistogram("hNevents"));
    }
    var weight := GetWeight(xsechist.value, eventhist.value);
    if weight.None? {
      return Failure(NoFilledBin);
    }
    var w := weight.value;
    var written: seq<(string, Obj)> := [];
    for k := 0 to |keys|
      invariant |written| == k
      invariant forall i :: 0 <= i < k ==> written[i] == ScaledTopLevel(keys[i], w)
    {
      var (keyname, obj) := keys[k];
      if keyname !in ExcludeList {
        if obj.Directory? {
          var inner := ScaleDirectory(obj.keys, w);
          written := written + [(keyname, Directory(inner))];
        } else {
          written := written + [(keyname, ScaleLeaf(obj, w))];
        }
      } else {
        written := written + [(keyname, obj)];
      }
    }
    assert written == ScaledKeys(keys, w);
    result := Success(written);
  }

  /**
   * What makeScaled writes: every key under its name and in its place; the scaling histograms
   * as read; a top-level histogram scaled; a directory with each of its histograms scaled and
   * everything else in it, a collection included, as read.
   */
  lemma MakeScaledKeys(keys: seq<(string, Obj)>, i: nat)
    requires MakeScaledSpec(keys).Success? && i < |keys|
    ensures |MakeScaledSpec(keys).value| == |keys|
    ensures MakeScaledSpec(keys).value[i].0 == keys[i].0
    ensures keys[i].0 in ExcludeList ==> MakeScaledSpec(keys).value[i] == keys[i]
    ensures keys[i].0 !in ExcludeList && keys[i].1.H1? ==>
      MakeScaledSpec(keys).value[i].1 == H1(ScaleBy(keys[i].1.contents, Weight(HistOf(Lookup(keys, "hXsection")).value, HistOf(Lookup(keys, "hNevents")).value).value))
    ensures keys[i].0 !in ExcludeList && keys[i].1.Directory? ==>
      MakeScaledSpec(keys).value[i].1.Directory? && |MakeScaledSpec(keys).value[i].1.keys| == |keys[i].1.keys|
      && forall k :: 0 <= k < |keys[i].1.keys| && keys[i].1.keys[k].1.Collection? ==> MakeScaledSpec(keys).value[i].1.keys[k] == keys[i].1.keys[k]
  {
  }

  lemma MakeScaledWith(keys: seq<(string, Obj)>, xsec: Hist, events: Hist, w: real)
    requires Lookup(keys, "hXsection") == Some(H1(xsec)) && Lookup(keys, "hNevents") == Some(H1(events))
    requires Weight(xsec, events) == Some(w)
    ensures MakeScaledSpec(keys) == Success(ScaledKeys(keys, w))
  {
    assert HistOf(Lookup(keys, "hXsection")) == Some(xsec);
    assert HistOf(Lookup(keys, "hNevents")) == Some(events);
  }

  /** The hNevents histogram gives the trials, so the weight is cross section per event of the first filled bin. */
  lemma WeightUsesEventCount(keys: seq<(string, Obj)>, xsec: Hist, events: Hist, b: nat, i: nat)
    requires Lookup(keys, "hXsection") == Some(H1(xsec)) && Lookup(keys, "hNevents") == Some(H1(events))
    requires 1 <= b <= |events| && events[b - 1] != 0.0 && forall k :: 0 <= k < b - 1 ==> events[k] == 0.0
    requires i < |keys| && keys[i].0 !in ExcludeList && keys[i].1.H1?
    ensures MakeScaledSpec(keys).Success?
    ensures MakeScaledSpec(keys).value[i].1 == H1(ScaleBy(keys[i].1.contents, BinContent(xsec, b) / events[b - 1]))
  {
    WeightFromFirstFilled(xsec, events, b);
    ScaledWithAt(keys, xsec, events, BinContent(xsec, b) / events[b - 1], i);
  }

  lemma ScaledWithAt(keys: seq<(string, Obj)>, xsec: Hist, events: Hist, w: real, i: nat)
    requires Lookup(keys, "hXsection") == Some(H1(xsec)) && Lookup(keys, "hNevents") == Some(H1(events))
    requires Weight(xsec, events) == Some(w)
    requires i < |keys| && keys[i].0 !in ExcludeList && keys[i].1.H1?
    ensures MakeScaledSpec(keys).Success?
    ensures MakeScaledSpec(keys).value[i].1 == H1(ScaleBy(keys[i].1.contents, w))
  {
    MakeScaledWith(keys, xsec, events, w);
    ScaledHistogramAt(keys, w, i);
  }

  /** A top-level histogram outside the exclusion list is scaled by the weight. */
  lemma ScaledHistogramAt(keys: seq<(string, Obj)>, w: real, i: nat)
    requires i < |keys| && keys[i].0 !in ExcludeList && keys[i].1.H1?
    ensures ScaledKeys(keys, w)[i].1 == H1(ScaleBy(keys[i].1.contents, w))
  {
    assert ScaleLeaf(keys[i].1, w) == H1(ScaleBy(keys[i].1.contents, w));
    assert ScaledTopLevel(keys[i], w) == (keys[i].0, ScaleLeaf(keys[i].1, w));
  }
}
