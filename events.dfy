/**
 * Generator events as the analyses see them: a table of particle records whose production
 * history is a list of mother indices into the same table, the final-state rules of the two
 * generators, and the selection of the particles handed to the jet finder.
 */
module Events {
  import opened Wrappers

  /** Four-momentum components as the generator stores them. */
  datatype Momentum = Momentum(px: real, py: real, pz: real, e: real)

  /**
   * One particle record. `production` is the production vertex with the indices of its
   * incoming particles (HepMC), or the mother list (Pythia, where a missing vertex and an
   * empty list coincide). Pseudorapidity, azimuth mapped into [0, 2 pi) and transverse
   * momentum are derived from the momentum by the generators and are given here.
   */
  datatype Particle = Particle(
    id: int,
    status: int,
    hasEndVertex: bool,
    production: Option<seq<nat>>,
    momentum: Momentum,
    eta: real,
    phi: real,
    pt: real)

  type Event = seq<Particle>

  /** The indices of a particle's mothers, first mother first. */
  function MotherList(p: Particle): seq<nat> {
    p.production.GetOr([])
  }

  /**
   * Generators list a parent before its children, so every mother index is smaller than
   * the index of the particle it produced. This is what makes ancestry walks terminate.
   */
  predicate ValidEvent(event: Event) {
    forall i, j :: 0 <= i < |event| && 0 <= j < |MotherList(event[i])| ==> MotherList(event[i])[j] < i
  }

  /**
 * A reduced HepMC::GenParticle equality: same code, status and momentum, wherever the record sits.
 * HepMC also compares generated mass, colour flow and polarization, which this model does not carry.
 */
  predicate SameValue(a: Particle, b: Particle) {
    a.id == b.id && a.status == b.status && a.momentum == b.momentum
  }

  /** The two event formats the analyses read. */
  datatype Generator = HepMC | Pythia

  /**
   * isFinalState: a HepMC particle is final when it has no end vertex and status 1; a
   * Pythia particle when its status is positive (Pythia8::Particle::isFinal).
   */
  predicate IsFinalState(generator: Generator, p: Particle) {
    match generator
    case HepMC => !p.hasEndVertex && p.status == 1
    case Pythia => p.status > 0
  }

  /** Acceptance of the constituents: |eta| at most 0.7. */
  const MaxConstituentEta: real := 0.7

  /** The azimuthal window of the K0/pi0 analysis, within the EMCal acceptance. */
  const EmcalPhiMin: real := 1.3962634
  const EmcalPhiMax: real := 3.2836121

  /**
   * The cuts of select_particles. The window [phimin, phimax] applies only when both
   * bounds are non-negative, and then both bounds are inclusive; the HepMC and Pythia
   * analyses have no window, which is the K0/pi0 analysis' default of -1 for both bounds.
   */
  predicate Selected(generator: Generator, p: Particle, phimin: real, phimax: real) {
    IsFinalState(generator, p)
    && !(p.eta > MaxConstituentEta || p.eta < -MaxConstituentEta)
    && (phimin >= 0.0 && phimax >= 0.0 ==> phimin <= p.phi <= phimax)
  }

  predicate StrictlyIncreasing(s: seq<nat>) {
    forall i, j :: 0 <= i < j < |s| ==> s[i] < s[j]
  }

  /**
   * select_particles: the indices of the selected particles, each once, in the order in
   * which the event lists them.
   */
  method SelectParticles(event: Event, generator: Generator, phimin: real, phimax: real)
    returns (selected: seq<nat>)
    ensures forall k :: 0 <= k < |selected| ==> selected[k] < |event|
    ensures forall i :: 0 <= i < |event| ==> (i in selected <==> Selected(generator, event[i], phimin, phimax))
    ensures StrictlyIncreasing(selected)
  {
    selected := [];
    var i := 0;
    while i < |event|
      invariant i <= |event|
      invariant forall k :: 0 <= k < |selected| ==> selected[k] < i
      invariant forall j :: 0 <= j < i ==> (j in selected <==> Selected(generator, event[j], phimin, phimax))
      invariant StrictlyIncreasing(selected)
    {
      if Selected(generator, event[i], phimin, phimax) {
        selected := selected + [i];
      }
      i := i + 1;
    }
  }

  /**
   * getMotherParticles: nothing when the particle has no production vertex, otherwise the
   * vertex's incoming particles in order.
   */
  method GetMotherParticles(p: Particle) returns (mothers: seq<nat>)
    ensures p.production.None? ==> mothers == []
    ensures p.production.Some? ==> mothers == p.production.value
  {
    mothers := [];
    if p.production.None? {
      return;
    }
    var incoming := p.production.value;
    var k := 0;
    while k < |incoming|
      invariant k <= |incoming| && mothers == incoming[..k]
    {
      mothers := mothers + [incoming[k]];
      k := k + 1;
    }
  }
}
