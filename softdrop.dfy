/**
 * Soft Drop grooming of a jet's Cambridge/Aachen clustering tree. The tree is an input (the
 * clustering itself belongs to FastJet): every node carries its transverse momentum, and every
 * splitting the angular distance between its two parents.
 */
module SoftDrop {

  /** A node of the clustering tree: a constituent, or the merger of two parents. */
  datatype PseudoJet =
    | Leaf(pt: real)
    | Node(pt: real, first: PseudoJet, second: PseudoJet, deltaR: real)

  /** One groomed splitting: momentum balance zg, opening angle rg, and the step it was found at. */
  datatype SoftDropData = SoftDropData(zg: real, rg: real, dropCount: int)

  /** The grooming parameters of both analyses: z_cut = 0.1 and beta = 0. */
  const ZCut: real := 0.1
  const Beta: real := 0.0

  /**
   * The angular factor of the cut, (deltaR/R)^beta for beta > 0 and 1 otherwise; with beta = 0
   * it is always 1, and the power is not modelled.
   */
  function GeoTerm(deltaR: real, jetRadius: real): (g: real)
    ensures Beta <= 0.0 ==> g == 1.0
  {
    1.0
  }

  /**
   * The acceptance test `sym > zcut`. When both parents have zero transverse momentum the
   * momentum balance is 0/0, a NaN in floating point, and the comparison is false.
   */
  predicate Accepted(harder: real, softer: real, deltaR: real, jetRadius: real) {
    harder + softer != 0.0 && Balance(harder, softer) > ZCut * GeoTerm(deltaR, jetRadius)
  }

  /** The momentum balance of a splitting, the softer parent's share of the pair's momentum. */
  function Balance(harder: real, softer: real): real
    requires harder + softer != 0.0
  {
    softer / (harder + softer)
  }

  /** The parent with the larger transverse momentum; the first one on a tie. */
  function Harder(a: PseudoJet, b: PseudoJet): (h: PseudoJet)
    ensures h == a || h == b
    ensures h.pt >= a.pt && h.pt >= b.pt
  {
    if a.pt < b.pt then b else a
  }

  function Softer(a: PseudoJet, b: PseudoJet): (s: PseudoJet)
    ensures s == a || s == b
    ensures s.pt <= a.pt && s.pt <= b.pt
  {
    if a.pt < b.pt then a else b
  }

  /** One step of the primary declustering: the two parents' momenta and their distance. */
  datatype Splitting = Splitting(harder: real, softer: real, deltaR: real)

  /** The splittings met when always following the harder parent, from the top down. */
  function PrimaryChain(jet: PseudoJet): (chain: seq<Splitting>)
    ensures jet.Leaf? <==> chain == []
    ensures forall k :: 0 <= k < |chain| ==> chain[k].harder >= chain[k].softer
  {
    match jet
    case Leaf(_) => []
    case Node(_, a, b, deltaR) =>
      [Splitting(Harder(a, b).pt, Softer(a, b).pt, deltaR)] + PrimaryChain(Harder(a, b))
  }

  /**
   * The groomed splittings found below `splitting` when `dropCount` steps have already been
   * taken: every step counts, an accepted step records its balance, angle and count, and the
   * walk continues in the harder parent either way.
   */
  function Declustering(splitting: PseudoJet, dropCount: int, jetRadius: real): seq<SoftDropData>
    decreases splitting
  {
    match splitting
    case Leaf(_) => []
    case Node(_, a, b, deltaR) =>
      var harder := Harder(a, b);
      var softer := Softer(a, b);
      var count := dropCount + 1;
      (if Accepted(harder.pt, softer.pt, deltaR, jetRadius)
       then [SoftDropData(Balance(harder.pt, softer.pt), deltaR, count)]
       else [])
      + Declustering(harder, count, jetRadius)
  }

  /**
   * makeIterativeSoftDrop on the reclustered jet: the loop over the primary declustering,
   * which yields the groomed splittings of the whole tree.
   */
  method IterativeSoftDrop(jet: PseudoJet, jetRadius: real) returns (result: seq<SoftDropData>)
    ensures result == Declustering(jet, 0, jetRadius)
  {
    result := [];
    var splitting := jet;
    var dropCount := 0;
    while splitting.Node?
      invariant result + Declustering(splitting, dropCount, jetRadius) == Declustering(jet, 0, jetRadius)
      decreases splitting
    {
      var harder, softer := splitting.first, splitting.second;
      if harder.pt < softer.pt {
        harder, softer := softer, harder;
      }
      dropCount := dropCount + 1;
      if Accepted(harder.pt, softer.pt, splitting.deltaR, jetRadius) {
        result := result + [SoftDropData(Balance(harder.pt, softer.pt), splitting.deltaR, dropCount)];
      }
      assert harder == Harder(splitting.first, splitting.second);
      splitting := harder;
    }
  }

  /** The groomed entry a splitting produces when it is accepted at step `count`. */
  function Entry(s: Splitting, count: int): SoftDropData
    requires s.harder + s.softer != 0.0
  {
    SoftDropData(Balance(s.harder, s.softer), s.deltaR, count)
  }

  predicate AcceptedSplitting(s: Splitting, jetRadius: real) {
    Accepted(s.harder, s.softer, s.deltaR, jetRadius)
  }

  /** Step i of the chain is accepted and recorded as e, with the count it is reached at. */
  predicate RecordedAt(chain: seq<Splitting>, i: int, dropCount: int, jetRadius: real, e: SoftDropData) {
    0 <= i < |chain| && AcceptedSplitting(chain[i], jetRadius) && e == Entry(chain[i], dropCount + i + 1)
  }

  /**
   * The result, described through the primary chain: an entry is recorded exactly for the
   * accepted steps, and the entry of step i (counting from 0) carries drop count dropCount+i+1,
   * so rejected steps still advance the count.
   */
  lemma {:induction false} DeclusteringEntries(jet: PseudoJet, dropCount: int, jetRadius: real, e: SoftDropData)
    ensures e in Declustering(jet, dropCount, jetRadius)
            <==> exists i :: RecordedAt(PrimaryChain(jet), i, dropCount, jetRadius, e)
    decreases jet
  {
    match jet
    case Leaf(_) =>
    case Node(_, a, b, deltaR) =>
      var h := Harder(a, b);
      var first := Splitting(h.pt, Softer(a, b).pt, deltaR);
      var chain := PrimaryChain(jet);
      var tail := PrimaryChain(h);
      assert chain == [first] + tail;
      var head := if AcceptedSplitting(first, jetRadius) then [Entry(first, dropCount + 1)] else [];
      var next := dropCount + 1;
      var rest := Declustering(h, next, jetRadius);
      assert Declustering(jet, dropCount, jetRadius) == head + rest;
      DeclusteringEntries(h, next, jetRadius, e);
      if e in head {
        assert chain[0] == first;
        assert RecordedAt(chain, 0, dropCount, jetRadius, e);
        assert e in Declustering(jet, dropCount, jetRadius);
        assert exists i :: RecordedAt(PrimaryChain(jet), i, dropCount, jetRadius, e);
      } else if e in rest {
        var i :| RecordedAt(tail, i, next, jetRadius, e);
        assert chain[i + 1] == tail[i];
        assert RecordedAt(chain, i + 1, dropCount, jetRadius, e);
      } else {
        forall i | RecordedAt(chain, i, dropCount, jetRadius, e)
          ensures false
        {
          if i > 0 {
            assert chain[i] == tail[i - 1];
            assert RecordedAt(tail, i - 1, next, jetRadius, e);
          }
        }
      }
  }

  /** Every drop count lies in (low, high]. */
  predicate CountsWithin(r: seq<SoftDropData>, low: int, high: int) {
    forall k :: 0 <= k < |r| ==> low < r[k].dropCount <= high
  }

  predicate CountsIncreasing(r: seq<SoftDropData>) {
    forall i, j :: 0 <= i < j < |r| ==> r[i].dropCount < r[j].dropCount
  }

  /** Drop counts are strictly increasing, larger than the start and at most the chain length on. */
  lemma {:induction false} DropCountsIncreasing(jet: PseudoJet, dropCount: int, jetRadius: real)
    ensures CountsWithin(Declustering(jet, dropCount, jetRadius), dropCount, dropCount + |PrimaryChain(jet)|)
    ensures CountsIncreasing(Declustering(jet, dropCount, jetRadius))
    decreases jet
  {
    match jet
    case Leaf(_) =>
    case Node(_, a, b, deltaR) =>
      var h := Harder(a, b);
      var s := Softer(a, b);
      var head := if Accepted(h.pt, s.pt, deltaR, jetRadius) then [SoftDropData(Balance(h.pt, s.pt), deltaR, dropCount + 1)] else [];
      var rest := Declustering(h, dropCount + 1, jetRadius);
      var r := Declustering(jet, dropCount, jetRadius);
      assert r == head + rest;
      assert |PrimaryChain(jet)| == 1 + |PrimaryChain(h)|;
      DropCountsIncreasing(h, dropCount + 1, jetRadius);
      forall k | 0 <= k < |r|
        ensures dropCount < r[k].dropCount <= dropCount + |PrimaryChain(jet)|
      {
        if k >= |head| {
          assert r[k] == rest[k - |head|];
        }
      }
      forall i, j | 0 <= i < j < |r|
        ensures r[i].dropCount < r[j].dropCount
      {
        assert r[j] == rest[j - |head|];
        if i >= |head| {
          assert r[i] == rest[i - |head|];
        }
      }
  }

  /** At most one entry per declustering step. */
  lemma {:induction false} EntriesAtMostSteps(jet: PseudoJet, dropCount: int, jetRadius: real)
    ensures |Declustering(jet, dropCount, jetRadius)| <= |PrimaryChain(jet)|
    decreases jet
  {
    match jet
    case Leaf(_) =>
    case Node(_, a, b, deltaR) =>
      EntriesAtMostSteps(Harder(a, b), dropCount + 1, jetRadius);
  }

  /** Transverse momenta are magnitudes: no node of the tree has a negative one. */
  predicate NonNegativePt(jet: PseudoJet) {
    jet.pt >= 0.0 && (jet.Node? ==> NonNegativePt(jet.first) && NonNegativePt(jet.second))
  }

  /** Every balance passes the cut strictly and is at most 1/2. */
  predicate BalancesWithin(r: seq<SoftDropData>) {
    forall k :: 0 <= k < |r| ==> ZCut < r[k].zg <= 0.5
  }

  /**
   * Every accepted entry passes the cut strictly, and because the softer parent carries at
   * most half of the pair's momentum, its balance is at most 1/2.
   */
  lemma {:induction false} EntriesBalance(jet: PseudoJet, dropCount: int, jetRadius: real)
    requires NonNegativePt(jet)
    ensures BalancesWithin(Declustering(jet, dropCount, jetRadius))
    decreases jet
  {
    match jet
    case Leaf(_) =>
    case Node(_, a, b, deltaR) =>
      var h := Harder(a, b);
      var s := Softer(a, b);
      EntriesBalance(h, dropCount + 1, jetRadius);
      var head := if Accepted(h.pt, s.pt, deltaR, jetRadius) then [SoftDropData(Balance(h.pt, s.pt), deltaR, dropCount + 1)] else [];
      var rest := Declustering(h, dropCount + 1, jetRadius);
      var r := Declustering(jet, dropCount, jetRadius);
      assert r == head + rest;
      forall k | 0 <= k < |r|
        ensures ZCut < r[k].zg <= 0.5
      {
        if k >= |head| {
          assert r[k] == rest[k - |head|];
        } else {
          HalfBound(s.pt, h.pt + s.pt);
        }
      }
  }

  lemma HalfBound(part: real, total: real)
    requires total > 0.0 && 2.0 * part <= total
    ensures part / total <= 0.5
  {
    var z := part / total;
    assert z * total == part;
    assert (z - 0.5) * total <= 0.0;
  }

  /** A jet without parents, such as a single constituent, has no groomed splitting. */
  lemma NoParentsNoSplittings(pt: real, dropCount: int, jetRadius: real)
    ensures Declustering(Leaf(pt), dropCount, jetRadius) == []
  {
  }

  /**
   * The walk never enters the softer parent: replacing the softer parent by any other
   * subtree of the same momentum leaves the result unchanged.
   */
  lemma SofterSubtreeIgnored(pt: real, a: PseudoJet, b: PseudoJet, b': PseudoJet, deltaR: real,
                             dropCount: int, jetRadius: real)
    requires a.pt >= b.pt && b'.pt == b.pt
    ensures Declustering(Node(pt, a, b, deltaR), dropCount, jetRadius)
            == Declustering(Node(pt, a, b', deltaR), dropCount, jetRadius)
  {
  }

  /**
   * A rejected first splitting still counts: a 95/5 split is dropped, the 60/35 split below
   * the harder parent is kept and reported as step 2.
   */
  lemma RejectedStepStillCounts()
    ensures Declustering(Node(100.0, Node(95.0, Leaf(60.0), Leaf(35.0), 0.1), Leaf(5.0), 0.3), 0, 0.4)
            == [SoftDropData(35.0 / 95.0, 0.1, 2)]
  {
    var inner := Node(95.0, Leaf(60.0), Leaf(35.0), 0.1);
    assert !Accepted(95.0, 5.0, 0.3, 0.4);
    assert Accepted(60.0, 35.0, 0.1, 0.4);
    assert Declustering(inner, 1, 0.4) == [SoftDropData(35.0 / 95.0, 0.1, 2)] + Declustering(Leaf(60.0), 2, 0.4);
  }

  /**
   * makeSoftDrop's report of FastJet's Soft Drop result: a negative symmetry (FastJet's
   * marker for a jet groomed down to one prong) is reported as 0; the angle and the number
   * of dropped splittings are passed on.
   */
  function SoftDropResult(symmetry: real, deltaR: real, droppedCount: int): (d: SoftDropData)
    ensures d.zg >= 0.0
    ensures symmetry >= 0.0 ==> d.zg == symmetry
    ensures symmetry < 0.0 ==> d.zg == 0.0
    ensures d.rg == deltaR && d.dropCount == droppedCount
  {
    SoftDropData(if symmetry < 0.0 then 0.0 else symmetry, deltaR, droppedCount)
  }

  /** The clamp is the identity on its own outputs. */
  lemma SoftDropResultIdempotent(symmetry: real, deltaR: real, droppedCount: int)
    ensures var d := SoftDropResult(symmetry, deltaR, droppedCount);
            SoftDropResult(d.zg, d.rg, d.dropCount) == d
  {
  }
}
