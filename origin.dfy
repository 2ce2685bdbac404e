/**
 * getPartonOrigin: every jet constituent is traced back along its first mothers to the first
 * gluon, quark or diquark; the ancestors found vote, and the most energetic of them is the
 * parton the jet is attributed to.
 */
module PartonOrigin {
  import opened Wrappers
  import opened Pdg
  import opened Events

  /** The first-mother ancestors of particle i, nearest first, up to a particle without mothers. */
  function FirstMotherChain(event: Event, i: nat): (chain: seq<nat>)
    requires ValidEvent(event) && i < |event|
    ensures forall k :: 0 <= k < |chain| ==> chain[k] < i
    decreases i
  {
    var mothers := MotherList(event[i]);
    if mothers == [] then [] else [mothers[0]] + FirstMotherChain(event, mothers[0])
  }

  /** The ancestry walk of one constituent, stated recursively. */
  function ChainOrigin(event: Event, tests: PartonTests, i: nat): (origin: Option<nat>)
    requires ValidEvent(event) && i < |event|
    ensures origin.Some? ==> origin.value < i && IsParton(tests, event[origin.value].id)
    decreases i
  {
    var mothers := MotherList(event[i]);
    if mothers == [] then None
    else if IsParton(tests, event[mothers[0]].id) then Some(mothers[0])
    else ChainOrigin(event, tests, mothers[0])
  }

  predicate NoPartonBefore(event: Event, tests: PartonTests, chain: seq<nat>, n: nat)
    requires n <= |chain| && forall k :: 0 <= k < |chain| ==> chain[k] < |event|
  {
    forall k :: 0 <= k < n ==> !IsParton(tests, event[chain[k]].id)
  }

  /**
   * The walk ends at the first parton on the first-mother chain, which is never the
   * constituent itself, and contributes nothing when the chain holds no parton.
   */
  lemma {:induction false} ChainOriginIsFirstParton(event: Event, tests: PartonTests, i: nat)
    requires ValidEvent(event) && i < |event|
    ensures var chain := FirstMotherChain(event, i);
            ChainOrigin(event, tests, i).None? <==> NoPartonBefore(event, tests, chain, |chain|)
    ensures var chain := FirstMotherChain(event, i);
            ChainOrigin(event, tests, i).Some? ==>
              exists n :: 0 <= n < |chain| && chain[n] == ChainOrigin(event, tests, i).value
                          && NoPartonBefore(event, tests, chain, n)
    decreases i
  {
    var mothers := MotherList(event[i]);
    var chain := FirstMotherChain(event, i);
    if mothers != [] {
      var m := mothers[0];
      var rest := FirstMotherChain(event, m);
      assert chain == [m] + rest;
      if IsParton(tests, event[m].id) {
        assert chain[0] == m && NoPartonBefore(event, tests, chain, 0);
      } else {
        ChainOriginIsFirstParton(event, tests, m);
        if ChainOrigin(event, tests, m).None? {
          assert NoPartonBefore(event, tests, chain, |chain|) by {
            forall k | 0 <= k < |chain| ensures !IsParton(tests, event[chain[k]].id) {
              if k > 0 { assert chain[k] == rest[k - 1]; }
            }
          }
        } else {
          var n :| 0 <= n < |rest| && rest[n] == ChainOrigin(event, tests, m).value
                   && NoPartonBefore(event, tests, rest, n);
          assert chain[n + 1] == rest[n];
          assert NoPartonBefore(event, tests, chain, n + 1) by {
            forall k | 0 <= k < n + 1 ensures !IsParton(tests, event[chain[k]].id) {
              if k > 0 { assert chain[k] == rest[k - 1]; }
            }
          }
        }
        if NoPartonBefore(event, tests, chain, |chain|) {
          assert NoPartonBefore(event, tests, rest, |rest|) by {
            forall k | 0 <= k < |rest| ensures !IsParton(tests, event[rest[k]].id) {
              assert rest[k] == chain[k + 1];
            }
          }
        }
      }
    }
  }

  /**
   * The while loop of getPartonOrigin for one constituent: take the first mother until it
   * is a parton; a particle without mothers ends the walk with no result.
   */
  method TraceChain(event: Event, tests: PartonTests, start: nat) returns (origin: Option<nat>)
    requires ValidEvent(event) && start < |event|
    ensures origin == ChainOrigin(event, tests, start)
  {
    var current: Option<nat> := Some(start);
    var motherparticles := GetMotherParticles(event[start]);
    var found := false;
    while !found
      invariant current.Some? && current.value < |event|
      invariant !found ==> motherparticles == MotherList(event[current.value])
                           && ChainOrigin(event, tests, current.value) == ChainOrigin(event, tests, start)
      invariant found ==> current == ChainOrigin(event, tests, start)
      decreases if found then 0 else current.value + 1
    {
      if |motherparticles| == 0 {
        current := None;
        break;
      }
      var mother := motherparticles[0];
      current := Some(mother);
      if IsParton(tests, event[mother].id) {
        found := true;
      } else {
        motherparticles := GetMotherParticles(event[mother]);
      }
    }
    origin := current;
  }

  /** The walk's results of the constituents whose walk reached a parton, in order. */
  function Resolved(event: Event, tests: PartonTests, constituents: seq<nat>): (origins: seq<nat>)
    requires ValidEvent(event) && forall k :: 0 <= k < |constituents| ==> constituents[k] < |event|
    ensures |origins| <= |constituents|
    ensures forall k :: 0 <= k < |origins| ==> origins[k] < |event|
  {
    if constituents == [] then []
    else
      var init := constituents[..|constituents| - 1];
      var last := ChainOrigin(event, tests, constituents[|constituents| - 1]);
      Resolved(event, tests, init) + (if last.Some? then [last.value] else [])
  }

  /**
   * How two ancestors are recognised as the same candidate: by position in the event table
   * (Pythia: the same pointer) or by HepMC::GenParticle value equality.
   */
  datatype Identity = ByIndex | ByValue

  predicate Same(event: Event, identity: Identity, i: nat, j: nat)
    requires i < |event| && j < |event|
  {
    match identity
    case ByIndex => i == j
    case ByValue => SameValue(event[i], event[j])
  }

  /** A candidate ancestor and the number of constituents that reached it. */
  datatype PartonMother = PartonMother(mother: nat, count: nat)

  predicate InEvent(event: Event, votes: seq<PartonMother>) {
    forall k :: 0 <= k < |votes| ==> votes[k].mother < |event|
  }

  /** std::find_if over the candidates: the first one the same as `origin`, or |votes|. */
  function FindSame(event: Event, identity: Identity, votes: seq<PartonMother>, origin: nat): (k: nat)
    requires InEvent(event, votes) && origin < |event|
    ensures k <= |votes|
    ensures k < |votes| ==> Same(event, identity, votes[k].mother, origin)
    ensures forall j :: 0 <= j < k ==> !Same(event, identity, votes[j].mother, origin)
  {
    if votes == [] then 0
    else if Same(event, identity, votes[0].mother, origin) then 0
    else 1 + FindSame(event, identity, votes[1..], origin)
  }

  /** One vote: count it for an existing candidate or append a new one with count 1. */
  function Vote(event: Event, identity: Identity, votes: seq<PartonMother>, origin: nat): seq<PartonMother>
    requires InEvent(event, votes) && origin < |event|
  {
    var k := FindSame(event, identity, votes, origin);
    if k < |votes| then votes[k := votes[k].(count := votes[k].count + 1)]
    else votes + [PartonMother(origin, 1)]
  }

  /** The candidate list after all votes, in order of first appearance. */
  function Tally(event: Event, identity: Identity, origins: seq<nat>): (votes: seq<PartonMother>)
    requires forall k :: 0 <= k < |origins| ==> origins[k] < |event|
    ensures InEvent(event, votes) && |votes| <= |origins|
  {
    if origins == [] then []
    else Vote(event, identity, Tally(event, identity, origins[..|origins| - 1]), origins[|origins| - 1])
  }

  function SumCounts(votes: seq<PartonMother>): nat {
    if votes == [] then 0 else SumCounts(votes[..|votes| - 1]) + votes[|votes| - 1].count
  }

  /** The number of votes the same as ancestor m. */
  function CountSame(event: Event, identity: Identity, origins: seq<nat>, m: nat): nat
    requires m < |event| && forall k :: 0 <= k < |origins| ==> origins[k] < |event|
  {
    if origins == [] then 0
    else CountSame(event, identity, origins[..|origins| - 1], m)
         + (if Same(event, identity, origins[|origins| - 1], m) then 1 else 0)
  }

  /** Both notions of identity are equivalence relations. */
  lemma SameIsEquivalence(event: Event, identity: Identity, a: nat, b: nat, c: nat)
    requires a < |event| && b < |event| && c < |event|
    ensures Same(event, identity, a, a)
    ensures Same(event, identity, a, b) ==> Same(event, identity, b, a)
    ensures Same(event, identity, a, b) && Same(event, identity, b, c) ==> Same(event, identity, a, c)
  {
  }

  lemma SumCountsUpdate(votes: seq<PartonMother>, k: nat, v: PartonMother)
    requires k < |votes| && v.count == votes[k].count + 1
    ensures SumCounts(votes[k := v]) == SumCounts(votes) + 1
    decreases |votes|
  {
    var u := votes[k := v];
    if k < |votes| - 1 {
      assert u[..|u| - 1] == votes[..|votes| - 1][k := v];
      SumCountsUpdate(votes[..|votes| - 1], k, v);
    } else {
      assert u[..|u| - 1] == votes[..|votes| - 1];
    }
  }

  /** Every vote is counted once: the counts add up to the number of resolved constituents. */
  lemma {:induction false} TallyCountsSum(event: Event, identity: Identity, origins: seq<nat>)
    requires forall k :: 0 <= k < |origins| ==> origins[k] < |event|
    ensures SumCounts(Tally(event, identity, origins)) == |origins|
    decreases |origins|
  {
    if origins != [] {
      var init := origins[..|origins| - 1];
      TallyCountsSum(event, identity, init);
      SumCountsVote(event, identity, Tally(event, identity, init), origins[|origins| - 1]);
    }
  }

  /** A vote adds one to the total count. */
  lemma SumCountsVote(event: Event, identity: Identity, votes: seq<PartonMother>, x: nat)
    requires InEvent(event, votes) && x < |event|
    ensures SumCounts(Vote(event, identity, votes, x)) == SumCounts(votes) + 1
  {
    var k := FindSame(event, identity, votes, x);
    if k < |votes| {
      SumCountsUpdate(votes, k, votes[k].(count := votes[k].count + 1));
    } else {
      var u := votes + [PartonMother(x, 1)];
      assert u[..|u| - 1] == votes;
    }
  }

  /** No two candidates are the same ancestor. */
  predicate Distinct(event: Event, identity: Identity, votes: seq<PartonMother>)
    requires InEvent(event, votes)
  {
    forall i, j :: 0 <= i < j < |votes| ==> !Same(event, identity, votes[i].mother, votes[j].mother)
  }

  /** Ancestor m is the same as one of the candidates. */
  predicate Covered(event: Event, identity: Identity, votes: seq<PartonMother>, m: nat)
    requires InEvent(event, votes) && m < |event|
  {
    exists k :: 0 <= k < |votes| && Same(event, identity, votes[k].mother, m)
  }

  /** Every resolved ancestor is the same as one of the candidates. */
  predicate Covers(event: Event, identity: Identity, votes: seq<PartonMother>, origins: seq<nat>)
    requires InEvent(event, votes) && forall k :: 0 <= k < |origins| ==> origins[k] < |event|
  {
    forall j :: 0 <= j < |origins| ==> Covered(event, identity, votes, origins[j])
  }

  /** Each candidate's count is the number of votes the same as it. */
  predicate CountsMatch(event: Event, identity: Identity, votes: seq<PartonMother>, origins: seq<nat>)
    requires InEvent(event, votes) && forall k :: 0 <= k < |origins| ==> origins[k] < |event|
  {
    forall k :: 0 <= k < |votes| ==> votes[k].count == CountSame(event, identity, origins, votes[k].mother)
  }

  lemma TallySnoc(event: Event, identity: Identity, origins: seq<nat>, x: nat)
    requires x < |event| && forall k :: 0 <= k < |origins| ==> origins[k] < |event|
    ensures forall k :: 0 <= k < |origins + [x]| ==> (origins + [x])[k] < |event|
    ensures Tally(event, identity, origins + [x]) == Vote(event, identity, Tally(event, identity, origins), x)
  {
    var o := origins + [x];
    assert o[..|o| - 1] == origins;
  }

  lemma CountSameSnoc(event: Event, identity: Identity, origins: seq<nat>, x: nat)
    requires x < |event| && forall k :: 0 <= k < |origins| ==> origins[k] < |event|
    ensures forall k :: 0 <= k < |origins + [x]| ==> (origins + [x])[k] < |event|
    ensures forall m: nat :: m < |event| ==>
              CountSame(event, identity, origins + [x], m)
              == CountSame(event, identity, origins, m) + (if Same(event, identity, x, m) then 1 else 0)
  {
    var o := origins + [x];
    assert o[..|o| - 1] == origins;
  }

  /** One vote keeps the candidates distinct. */
  lemma VoteDistinct(event: Event, identity: Identity, votes: seq<PartonMother>, x: nat)
    requires InEvent(event, votes) && x < |event| && Distinct(event, identity, votes)
    ensures InEvent(event, Vote(event, identity, votes, x))
    ensures Distinct(event, identity, Vote(event, identity, votes, x))
  {
    var next := Vote(event, identity, votes, x);
    var k := FindSame(event, identity, votes, x);
    forall i, j | 0 <= i < j < |next|
      ensures !Same(event, identity, next[i].mother, next[j].mother)
    {
      if j == |votes| {
        assert k == |votes| && next[j].mother == x && next[i].mother == votes[i].mother;
      } else {
        assert next[i].mother == votes[i].mother && next[j].mother == votes[j].mother;
      }
    }
  }

  /** One vote keeps every vote covered and every candidate among the votes. */
  lemma VoteCovers(event: Event, identity: Identity, votes: seq<PartonMother>, origins: seq<nat>, x: nat)
    requires InEvent(event, votes) && x < |event| && forall k :: 0 <= k < |origins| ==> origins[k] < |event|
    requires Covers(event, identity, votes, origins)
    requires forall k :: 0 <= k < |votes| ==> votes[k].mother in origins
    ensures InEvent(event, Vote(event, identity, votes, x))
    ensures Covers(event, identity, Vote(event, identity, votes, x), origins + [x])
    ensures forall k :: 0 <= k < |Vote(event, identity, votes, x)| ==>
              Vote(event, identity, votes, x)[k].mother in origins + [x]
  {
    VoteMothers(event, identity, votes, x);
    VoteCoversAll(event, identity, votes, origins, x);
    var next := Vote(event, identity, votes, x);
    var o := origins + [x];
    forall i | 0 <= i < |next| ensures next[i].mother in o {
      if i < |votes| {
        assert next[i].mother == votes[i].mother;
      }
    }
  }

  /** A vote keeps every candidate's ancestor in place and appends at most x. */
  lemma VoteMothers(event: Event, identity: Identity, votes: seq<PartonMother>, x: nat)
    requires InEvent(event, votes) && x < |event|
    ensures |votes| <= |Vote(event, identity, votes, x)| <= |votes| + 1
    ensures forall i :: 0 <= i < |votes| ==> Vote(event, identity, votes, x)[i].mother == votes[i].mother
    ensures |Vote(event, identity, votes, x)| == |votes| + 1 ==> Vote(event, identity, votes, x)[|votes|].mother == x
    ensures |Vote(event, identity, votes, x)| == |votes| ==>
              Same(event, identity, votes[FindSame(event, identity, votes, x)].mother, x)
  {
  }

  lemma VoteCoversAll(event: Event, identity: Identity, votes: seq<PartonMother>, origins: seq<nat>, x: nat)
    requires InEvent(event, votes) && x < |event| && forall k :: 0 <= k < |origins| ==> origins[k] < |event|
    requires Covers(event, identity, votes, origins)
    ensures InEvent(event, Vote(event, identity, votes, x))
    ensures Covers(event, identity, Vote(event, identity, votes, x), origins + [x])
  {
    VoteMothers(event, identity, votes, x);
    var next := Vote(event, identity, votes, x);
    var o := origins + [x];
    forall j | 0 <= j < |o|
      ensures Covered(event, identity, next, o[j])
    {
      if j < |origins| {
        assert o[j] == origins[j];
        assert Covered(event, identity, votes, origins[j]);
        var i :| 0 <= i < |votes| && Same(event, identity, votes[i].mother, origins[j]);
        assert next[i].mother == votes[i].mother;
      } else if |next| == |votes| {
        var k := FindSame(event, identity, votes, x);
        assert next[k].mother == votes[k].mother;
      } else {
        assert next[|votes|].mother == x;
        SameIsEquivalence(event, identity, x, x, x);
      }
    }
  }

  /** One vote keeps every count equal to the number of votes the same as its candidate. */
  lemma VoteCounts(event: Event, identity: Identity, votes: seq<PartonMother>, origins: seq<nat>, x: nat)
    requires InEvent(event, votes) && x < |event| && forall k :: 0 <= k < |origins| ==> origins[k] < |event|
    requires Distinct(event, identity, votes) && Covers(event, identity, votes, origins)
    requires CountsMatch(event, identity, votes, origins)
    ensures InEvent(event, Vote(event, identity, votes, x))
    ensures CountsMatch(event, identity, Vote(event, identity, votes, x), origins + [x])
  {
    var next := Vote(event, identity, votes, x);
    var k := FindSame(event, identity, votes, x);
    CountSameSnoc(event, identity, origins, x);
    forall i | 0 <= i < |next|
      ensures next[i].count == CountSame(event, identity, origins + [x], next[i].mother)
    {
      if i < |votes| {
        assert next[i].mother == votes[i].mother;
        SameIsEquivalence(event, identity, votes[i].mother, x, x);
        SameIsEquivalence(event, identity, x, votes[i].mother, x);
        if Same(event, identity, x, votes[i].mother) {
          assert k <= i;
          SameIsEquivalence(event, identity, votes[k].mother, x, votes[i].mother);
          assert i == k;
        }
      } else {
        assert k == |votes| && next[i] == PartonMother(x, 1);
        CountSameAbsent(event, identity, origins, x, votes);
        SameIsEquivalence(event, identity, x, x, x);
      }
    }
  }

  /**
   * The candidate list holds each distinct ancestor once, every resolved ancestor is the
   * same as one of them, each candidate is one of the resolved ancestors, and a candidate's
   * count is the number of votes the same as it.
   */
  lemma {:induction false} TallyCharacterisation(event: Event, identity: Identity, origins: seq<nat>)
    requires forall k :: 0 <= k < |origins| ==> origins[k] < |event|
    ensures var votes := Tally(event, identity, origins);
            Distinct(event, identity, votes)
            && Covers(event, identity, votes, origins)
            && (forall k :: 0 <= k < |votes| ==> votes[k].mother in origins)
            && CountsMatch(event, identity, votes, origins)
    decreases |origins|
  {
    if origins != [] {
      var init := origins[..|origins| - 1];
      var x := origins[|origins| - 1];
      assert init + [x] == origins;
      TallyCharacterisation(event, identity, init);
      var before := Tally(event, identity, init);
      TallySnoc(event, identity, init, x);
      VoteDistinct(event, identity, before, x);
      VoteCovers(event, identity, before, init, x);
      VoteCounts(event, identity, before, init, x);
    }
  }

  /** An ancestor unlike every candidate has received no vote yet. */
  lemma {:induction false} CountSameAbsent(event: Event, identity: Identity, origins: seq<nat>, x: nat,
                                           votes: seq<PartonMother>)
    requires x < |event| && forall k :: 0 <= k < |origins| ==> origins[k] < |event|
    requires InEvent(event, votes) && Covers(event, identity, votes, origins)
    requires forall k :: 0 <= k < |votes| ==> !Same(event, identity, votes[k].mother, x)
    ensures CountSame(event, identity, origins, x) == 0
    decreases |origins|
  {
    if origins != [] {
      var init := origins[..|origins| - 1];
      var y := origins[|origins| - 1];
      assert forall j :: 0 <= j < |init| ==> init[j] == origins[j];
      CountSameAbsent(event, identity, init, x, votes);
      var k :| 0 <= k < |votes| && Same(event, identity, votes[k].mother, origins[|origins| - 1]);
      if Same(event, identity, y, x) {
        SameIsEquivalence(event, identity, votes[k].mother, y, x);
        assert false;
      }
    }
  }

  function Energy(event: Event, k: nat): real
    requires k < |event|
  {
    event[k].momentum.e
  }

  /**
   * The candidate std::sort puts first when it orders by descending energy. Ties are
   * unspecified in the source (std::sort is not stable); the model takes the earliest.
   */
  function HighestEnergy(event: Event, candidates: seq<nat>): (best: nat)
    requires |candidates| > 0 && forall k :: 0 <= k < |candidates| ==> candidates[k] < |event|
    ensures best in candidates
    ensures forall k :: 0 <= k < |candidates| ==> Energy(event, candidates[k]) <= Energy(event, best)
  {
    if |candidates| == 1 then candidates[0]
    else
      var init := candidates[..|candidates| - 1];
      var last := candidates[|candidates| - 1];
      var best := HighestEnergy(event, init);
      assert forall k :: 0 <= k < |init| ==> candidates[k] == init[k];
      if Energy(event, last) > Energy(event, best) then last else best
  }

  function Mothers(votes: seq<PartonMother>): (ms: seq<nat>)
    ensures |ms| == |votes| && forall k :: 0 <= k < |votes| ==> ms[k] == votes[k].mother
  {
    if votes == [] then [] else [votes[0].mother] + Mothers(votes[1..])
  }

  /** getPartonOrigin as a function of the event: the winner among the candidates, if any. */
  function PartonOriginOf(event: Event, tests: PartonTests, identity: Identity, constituents: seq<nat>): Option<nat>
    requires ValidEvent(event) && forall k :: 0 <= k < |constituents| ==> constituents[k] < |event|
  {
    var votes := Tally(event, identity, Resolved(event, tests, constituents));
    if votes == [] then None else Some(HighestEnergy(event, Mothers(votes)))
  }

  /**
   * The result is missing exactly when no constituent's walk reached a parton; otherwise it
   * is one of the ancestors reached, a parton, and at least as energetic as every ancestor
   * reached. The vote counts play no role.
   */
  lemma PartonOriginProperties(event: Event, tests: PartonTests, identity: Identity, constituents: seq<nat>)
    requires ValidEvent(event) && forall k :: 0 <= k < |constituents| ==> constituents[k] < |event|
    ensures var origins := Resolved(event, tests, constituents);
            var r := PartonOriginOf(event, tests, identity, constituents);
            (r.None? <==> origins == [])
            && (r.Some? ==> (r.value in origins && IsParton(tests, event[r.value].id)
                             && forall j :: 0 <= j < |origins| ==> Energy(event, origins[j]) <= Energy(event, r.value)))
  {
    var origins := Resolved(event, tests, constituents);
    if origins != [] {
      TallyNonEmpty(event, identity, origins);
      OriginIsResolvedParton(event, tests, identity, constituents);
      OriginMostEnergetic(event, identity, origins);
    }
  }

  /** Every resolved ancestor leaves at least one candidate. */
  lemma TallyNonEmpty(event: Event, identity: Identity, origins: seq<nat>)
    requires forall k :: 0 <= k < |origins| ==> origins[k] < |event|
    requires origins != []
    ensures Tally(event, identity, origins) != []
  {
    var before := Tally(event, identity, origins[..|origins| - 1]);
    var k := FindSame(event, identity, before, origins[|origins| - 1]);
    if k < |before| {
      assert |Vote(event, identity, before, origins[|origins| - 1])| == |before|;
    }
  }

  /** The winner is one of the resolved ancestors, hence a parton. */
  lemma OriginIsResolvedParton(event: Event, tests: PartonTests, identity: Identity, constituents: seq<nat>)
    requires ValidEvent(event) && forall k :: 0 <= k < |constituents| ==> constituents[k] < |event|
    requires Tally(event, identity, Resolved(event, tests, constituents)) != []
    ensures HighestEnergy(event, Mothers(Tally(event, identity, Resolved(event, tests, constituents))))
            in Resolved(event, tests, constituents)
    ensures IsParton(tests, event[HighestEnergy(event, Mothers(Tally(event, identity, Resolved(event, tests, constituents))))].id)
  {
    var origins := Resolved(event, tests, constituents);
    var votes := Tally(event, identity, origins);
    TallyCharacterisation(event, identity, origins);
    var best := HighestEnergy(event, Mothers(votes));
    var k :| 0 <= k < |votes| && Mothers(votes)[k] == best;
    assert votes[k].mother in origins;
    ResolvedArePartons(event, tests, constituents, best);
  }

  /** The winner is at least as energetic as every resolved ancestor. */
  lemma OriginMostEnergetic(event: Event, identity: Identity, origins: seq<nat>)
    requires forall k :: 0 <= k < |origins| ==> origins[k] < |event|
    requires Tally(event, identity, origins) != []
    ensures forall j :: 0 <= j < |origins| ==>
      Energy(event, origins[j]) <= Energy(event, HighestEnergy(event, Mothers(Tally(event, identity, origins))))
  {
    var votes := Tally(event, identity, origins);
    TallyCharacterisation(event, identity, origins);
    var best := HighestEnergy(event, Mothers(votes));
    forall j | 0 <= j < |origins| ensures Energy(event, origins[j]) <= Energy(event, best) {
      assert Covered(event, identity, votes, origins[j]);
      var k :| 0 <= k < |votes| && Same(event, identity, votes[k].mother, origins[j]);
      assert Mothers(votes)[k] == votes[k].mother;
    }
  }

  lemma {:induction false} ResolvedArePartons(event: Event, tests: PartonTests, constituents: seq<nat>, m: nat)
    requires ValidEvent(event) && forall k :: 0 <= k < |constituents| ==> constituents[k] < |event|
    requires m in Resolved(event, tests, constituents)
    ensures m < |event| && IsParton(tests, event[m].id)
    decreases |constituents|
  {
    var init := constituents[..|constituents| - 1];
    var last := ChainOrigin(event, tests, constituents[|constituents| - 1]);
    if m !in Resolved(event, tests, init) {
      assert last.Some? && m == last.value;
    } else {
      ResolvedArePartons(event, tests, init, m);
    }
  }

  lemma ResolvedSnoc(event: Event, tests: PartonTests, constituents: seq<nat>, i: nat)
    requires ValidEvent(event) && forall k :: 0 <= k < |constituents| ==> constituents[k] < |event|
    requires i < |constituents|
    ensures var last := ChainOrigin(event, tests, constituents[i]);
            Resolved(event, tests, constituents[..i + 1])
            == Resolved(event, tests, constituents[..i]) + (if last.Some? then [last.value] else [])
  {
    assert constituents[..i + 1][..i] == constituents[..i];
  }

  /** The find_if of getPartonOrigin: the first candidate the same as `origin`. */
  method FindCandidate(event: Event, identity: Identity, partons: seq<PartonMother>, origin: nat)
    returns (k: nat)
    requires InEvent(event, partons) && origin < |event|
    ensures k == FindSame(event, identity, partons, origin)
  {
    k := 0;
    while k < |partons| && !Same(event, identity, partons[k].mother, origin)
      invariant k <= |partons|
      invariant FindSame(event, identity, partons, origin) == k + FindSame(event, identity, partons[k..], origin)
    {
      assert partons[k..][1..] == partons[k + 1..];
      k := k + 1;
    }
    if k < |partons| {
      assert partons[k..][0] == partons[k];
    }
  }

  /** The voting loop of getPartonOrigin over the jet's constituents. */
  method CollectVotes(event: Event, tests: PartonTests, identity: Identity, constituents: seq<nat>)
    returns (partons: seq<PartonMother>)
    requires ValidEvent(event) && forall k :: 0 <= k < |constituents| ==> constituents[k] < |event|
    ensures partons == Tally(event, identity, Resolved(event, tests, constituents))
  {
    partons := [];
    var i := 0;
    while i < |constituents|
      invariant i <= |constituents|
      invariant partons == Tally(event, identity, Resolved(event, tests, constituents[..i]))
    {
      partons := CollectVote(event, tests, identity, constituents, i, partons);
      i := i + 1;
    }
    assert constituents[..i] == constituents;
  }

  /** One pass of the constituent loop: trace the constituent and let its ancestor vote. */
  method CollectVote(event: Event, tests: PartonTests, identity: Identity, constituents: seq<nat>, i: nat,
                     partons: seq<PartonMother>)
    returns (votes: seq<PartonMother>)
    requires ValidEvent(event) && forall k :: 0 <= k < |constituents| ==> constituents[k] < |event|
    requires i < |constituents|
    requires partons == Tally(event, identity, Resolved(event, tests, constituents[..i]))
    ensures votes == Tally(event, identity, Resolved(event, tests, constituents[..i + 1]))
  {
    var current := TraceChain(event, tests, constituents[i]);
    TallyStep(event, tests, identity, constituents, i);
    votes := partons;
    if current.Some? {
      votes := CastVote(event, identity, partons, current.value);
    }
  }

  /** The tally after one more constituent: its resolved ancestor, if any, casts one vote. */
  lemma TallyStep(event: Event, tests: PartonTests, identity: Identity, constituents: seq<nat>, i: nat)
    requires ValidEvent(event) && forall k :: 0 <= k < |constituents| ==> constituents[k] < |event|
    requires i < |constituents|
    ensures ChainOrigin(event, tests, constituents[i]).None? ==>
      Tally(event, identity, Resolved(event, tests, constituents[..i + 1]))
      == Tally(event, identity, Resolved(event, tests, constituents[..i]))
    ensures ChainOrigin(event, tests, constituents[i]).Some? ==>
      ChainOrigin(event, tests, constituents[i]).value < |event|
      && Tally(event, identity, Resolved(event, tests, constituents[..i + 1]))
      == Vote(event, identity, Tally(event, identity, Resolved(event, tests, constituents[..i])),
              ChainOrigin(event, tests, constituents[i]).value)
  {
    var origins := Resolved(event, tests, constituents[..i]);
    var current := ChainOrigin(event, tests, constituents[i]);
    ResolvedSnoc(event, tests, constituents, i);
    if current.Some? {
      assert Resolved(event, tests, constituents[..i + 1]) == origins + [current.value];
      TallySnoc(event, identity, origins, current.value);
    } else {
      assert Resolved(event, tests, constituents[..i + 1]) == origins;
    }
  }

  /** One vote: the matching candidate's count goes up, or the ancestor joins with one vote. */
  method CastVote(event: Event, identity: Identity, partons: seq<PartonMother>, origin: nat)
    returns (votes: seq<PartonMother>)
    requires InEvent(event, partons) && origin < |event|
    ensures votes == Vote(event, identity, partons, origin)
  {
    var found := FindCandidate(event, identity, partons, origin);
    if found < |partons| {
      votes := partons[found := partons[found].(count := partons[found].count + 1)];
    } else {
      votes := partons + [PartonMother(origin, 1)];
    }
  }

  /**
   * getPartonOrigin: no result when no constituent resolved; otherwise the most energetic
   * candidate, which every resolved ancestor's energy is bounded by.
   */
  method GetPartonOrigin(event: Event, tests: PartonTests, identity: Identity, constituents: seq<nat>)
    returns (parton: Option<nat>)
    requires ValidEvent(event) && forall k :: 0 <= k < |constituents| ==> constituents[k] < |event|
    ensures parton == PartonOriginOf(event, tests, identity, constituents)
    ensures parton.None? <==> Resolved(event, tests, constituents) == []
    ensures parton.Some? ==> parton.value in Resolved(event, tests, constituents)
    ensures parton.Some? ==> forall j :: 0 <= j < |Resolved(event, tests, constituents)| ==>
              Energy(event, Resolved(event, tests, constituents)[j]) <= Energy(event, parton.value)
  {
    var partons := CollectVotes(event, tests, identity, constituents);
    PartonOriginProperties(event, tests, identity, constituents);
    if |partons| == 0 {
      return None;
    }
    parton := Some(HighestEnergy(event, Mothers(partons)));
  }

  /** The jet category of the traced parton (getHardProcessType applied to the result). */
  function JetCategory(event: Event, tests: PartonTests, parton: Option<nat>): Category
    requires parton.Some? ==> parton.value < |event|
  {
    HardProcessType(tests, if parton.Some? then Some(event[parton.value].id) else None)
  }

  /** A jet is of unknown category exactly when none of its constituents traced to a parton. */
  lemma UnknownIffUnresolved(event: Event, tests: PartonTests, identity: Identity, constituents: seq<nat>)
    requires ValidEvent(event) && forall k :: 0 <= k < |constituents| ==> constituents[k] < |event|
    ensures var parton := PartonOriginOf(event, tests, identity, constituents);
            (parton.Some? ==> parton.value < |event|)
            && (JetCategory(event, tests, parton) == UnknownJet <==> Resolved(event, tests, constituents) == [])
  {
    PartonOriginProperties(event, tests, identity, constituents);
  }

  /**
   * Two constituents reach a gluon of energy 50 through an intermediate string, a third
   * reaches a quark of energy 80, and a fourth has no mothers: the gluon collects two votes,
   * yet the more energetic quark wins and the jet is a quark jet.
   */
  lemma EnergyBeatsVotes()
    ensures ValidEvent(ExampleEvent())
    ensures Tally(ExampleEvent(), ByIndex, Resolved(ExampleEvent(), HepMCTests(), [3, 4, 5, 6]))
            == [PartonMother(0, 2), PartonMother(1, 1)]
    ensures PartonOriginOf(ExampleEvent(), HepMCTests(), ByIndex, [3, 4, 5, 6]) == Some(1)
    ensures JetCategory(ExampleEvent(), HepMCTests(), Some(1)) == QuarkJet
  {
    ExampleResolved();
    ExampleTally();
    ExampleWinner();
    ExampleCategory();
  }

  lemma ExampleWinner()
    ensures HighestEnergy(ExampleEvent(), Mothers([PartonMother(0, 2), PartonMother(1, 1)])) == 1
  {
    var event := ExampleEvent();
    assert Mothers([PartonMother(0, 2), PartonMother(1, 1)]) == [0, 1];
    assert [0, 1][..1] == [0];
    assert Energy(event, 1) > Energy(event, 0);
  }

  lemma ExampleCategory()
    ensures JetCategory(ExampleEvent(), HepMCTests(), Some(1)) == QuarkJet
  {
    assert ExampleEvent()[1].id == 2;
    HepMCCategories(2);
  }

  lemma ExampleTally()
    ensures Tally(ExampleEvent(), ByIndex, [0, 0, 1]) == [PartonMother(0, 2), PartonMother(1, 1)]
  {
    var event := ExampleEvent();
    assert [0, 0, 1][..2] == [0, 0] && [0, 0][..1] == [0] && [0][..0] == [];
    var t1 := Tally(event, ByIndex, [0]);
    assert t1 == [PartonMother(0, 1)] by {
      assert FindSame(event, ByIndex, [], 0) == 0;
    }
    var t2 := Tally(event, ByIndex, [0, 0]);
    assert t2 == [PartonMother(0, 2)] by {
      assert FindSame(event, ByIndex, t1, 0) == 0;
    }
    assert FindSame(event, ByIndex, t2, 1) == 1 by {
      assert t2[1..] == [];
    }
  }

  lemma ExampleValid()
    ensures ValidEvent(ExampleEvent())
  {
    var event := ExampleEvent();
    forall i, j | 0 <= i < |event| && 0 <= j < |MotherList(event[i])| ensures MotherList(event[i])[j] < i {
      assert i in {2, 3, 4, 5};
    }
  }

  lemma ExampleChains()
    ensures ValidEvent(ExampleEvent())
    ensures ChainOrigin(ExampleEvent(), HepMCTests(), 3) == Some(0)
    ensures ChainOrigin(ExampleEvent(), HepMCTests(), 4) == Some(0)
    ensures ChainOrigin(ExampleEvent(), HepMCTests(), 5) == Some(1)
    ensures ChainOrigin(ExampleEvent(), HepMCTests(), 6) == None
  {
    ExampleValid();
    var event := ExampleEvent();
    assert !IsParton(HepMCTests(), 92) by { assert !IsDiquark(92); }
    assert IsParton(HepMCTests(), 21) && IsParton(HepMCTests(), 2);
    assert ChainOrigin(event, HepMCTests(), 2) == Some(0);
  }

  lemma ExampleResolved()
    ensures ValidEvent(ExampleEvent())
    ensures Resolved(ExampleEvent(), HepMCTests(), [3, 4, 5, 6]) == [0, 0, 1]
  {
    ExampleChains();
    ResolvedFour(ExampleEvent(), HepMCTests(), 3, 4, 5, 6);
  }

  /** Resolved of four constituents from their four chain walks. */
  lemma ResolvedFour(event: Event, tests: PartonTests, a: nat, b: nat, c: nat, d: nat)
    requires ValidEvent(event) && a < |event| && b < |event| && c < |event| && d < |event|
    requires ChainOrigin(event, tests, a) == Some(0) && ChainOrigin(event, tests, b) == Some(0)
    requires ChainOrigin(event, tests, c) == Some(1) && ChainOrigin(event, tests, d) == None
    ensures Resolved(event, tests, [a, b, c, d]) == [0, 0, 1]
  {
    ResolvedAppend(event, tests, [], a);
    assert [] + [a] == [a];
    ResolvedAppend(event, tests, [a], b);
    assert [a] + [b] == [a, b];
    ResolvedAppend(event, tests, [a, b], c);
    assert [a, b] + [c] == [a, b, c];
    ResolvedAppend(event, tests, [a, b, c], d);
    assert [a, b, c] + [d] == [a, b, c, d];
  }

  lemma ResolvedAppend(event: Event, tests: PartonTests, constituents: seq<nat>, x: nat)
    requires ValidEvent(event) && x < |event| && forall k :: 0 <= k < |constituents| ==> constituents[k] < |event|
    ensures forall k :: 0 <= k < |constituents + [x]| ==> (constituents + [x])[k] < |event|
    ensures ChainOrigin(event, tests, x).None? ==>
      Resolved(event, tests, constituents + [x]) == Resolved(event, tests, constituents)
    ensures ChainOrigin(event, tests, x).Some? ==>
      Resolved(event, tests, constituents + [x]) == Resolved(event, tests, constituents) + [ChainOrigin(event, tests, x).value]
  {
    assert (constituents + [x])[..|constituents|] == constituents;
  }

  function ExampleParticle(id: int, production: Option<seq<nat>>, e: real): Particle {
    Particle(id, 1, false, production, Momentum(0.0, 0.0, 0.0, e), 0.0, 0.0, 0.0)
  }

  function ExampleEvent(): Event {
    [ExampleParticle(21, None, 50.0), ExampleParticle(2, None, 80.0), ExampleParticle(92, Some([0]), 50.0),
     ExampleParticle(211, Some([2]), 10.0), ExampleParticle(211, Some([2]), 10.0),
     ExampleParticle(-211, Some([1]), 10.0), ExampleParticle(22, Some([]), 5.0)]
  }
}
