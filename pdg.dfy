/**
 * Particle codes of the Monte Carlo particle numbering scheme (Review of Particle Physics,
 * "Monte Carlo Particle Numbering Scheme") as far as the jet analysis uses them: the gluon,
 * the six quarks and the 25 diquarks, and the jet categories derived from the parton a jet
 * was traced back to.
 */
module Pdg {
  import opened Wrappers

  /** The codes TPDGCode gives kGluon, kDown and kTop. */
  const Gluon: int := 21
  const Down: int := 1
  const Top: int := 6

  /** The diquark codes the HepMC analysis accepts, in the order of its table. */
  const DiquarkCodes: seq<int> := [1103, 2101, 2103, 2203, 3101, 3103, 3201, 3203, 3303, 4101,
                                   4103, 4201, 4203, 4301, 4303, 4403, 5101, 5103, 5201, 5203,
                                   5301, 5303, 5401, 5403, 5503]

  function Abs(x: int): (r: nat)
    ensures r == x || r == -x
  {
    if x < 0 then -x else x
  }

  /** isDiquark: a linear search of the table; callers pass the absolute code. */
  predicate IsDiquark(absPdg: int) {
    absPdg in DiquarkCodes
  }

  /**
   * The code the numbering scheme gives the diquark made of quarks q1 >= q2 with total spin
   * (2S+1) = multiplicity.
   */
  function DiquarkCode(q1: int, q2: int, multiplicity: int): int {
    1000 * q1 + 100 * q2 + multiplicity
  }

  /**
   * The diquarks the scheme defines from the five lightest quarks: q1 >= q2, spin 1 always,
   * spin 0 only for two different flavours (a spin-0 diquark of two equal quarks is excluded
   * by the Pauli principle).
   */
  predicate SchemeDiquark(q1: int, q2: int, multiplicity: int) {
    1 <= q2 <= q1 <= 5 && (multiplicity == 3 || (multiplicity == 1 && q1 != q2))
  }

  /** The table holds exactly the scheme's diquarks of the quarks d, u, s, c and b. */
  lemma DiquarkTableIsScheme(c: int)
    ensures IsDiquark(c) <==> exists q1, q2, m :: SchemeDiquark(q1, q2, m) && DiquarkCode(q1, q2, m) == c
  {
    if IsDiquark(c) {
      var k :| 0 <= k < |DiquarkCodes| && DiquarkCodes[k] == c;
      ListedDiquarkIsScheme(k);
      var (q1, q2, m) := DiquarkContents[k];
      assert SchemeDiquark(q1, q2, m) && DiquarkCode(q1, q2, m) == c;
    }
    if exists q1, q2, m :: SchemeDiquark(q1, q2, m) && DiquarkCode(q1, q2, m) == c {
      var q1, q2, m :| SchemeDiquark(q1, q2, m) && DiquarkCode(q1, q2, m) == c;
      SchemeDiquarkListed(q1, q2, m);
    }
  }

  /** The quark content and multiplicity of each table entry, as the scheme reads it. */
  const DiquarkContents: seq<(int, int, int)> := [(1, 1, 3), (2, 1, 1), (2, 1, 3), (2, 2, 3), (3, 1, 1), (3, 1, 3), (3, 2, 1), (3, 2, 3), (3, 3, 3), (4, 1, 1), (4, 1, 3), (4, 2, 1), (4, 2, 3), (4, 3, 1), (4, 3, 3), (4, 4, 3), (5, 1, 1), (5, 1, 3), (5, 2, 1), (5, 2, 3), (5, 3, 1), (5, 3, 3), (5, 4, 1), (5, 4, 3), (5, 5, 3)]

  lemma ListedDiquarkIsScheme(k: nat)
    requires k < |DiquarkCodes|
    ensures |DiquarkContents| == |DiquarkCodes|
    ensures SchemeDiquark(DiquarkContents[k].0, DiquarkContents[k].1, DiquarkContents[k].2)
    ensures DiquarkCode(DiquarkContents[k].0, DiquarkContents[k].1, DiquarkContents[k].2) == DiquarkCodes[k]
  {
  }

  lemma SchemeDiquarkListed(q1: int, q2: int, m: int)
    requires SchemeDiquark(q1, q2, m)
    ensures IsDiquark(DiquarkCode(q1, q2, m))
  {
    assert q1 in {1, 2, 3, 4, 5} && q2 in {1, 2, 3, 4, 5} && m in {1, 3};
  }

  /** The jet categories of HardProcessType_t. */
  datatype Category = AllJets | QuarkJet | GluonJet | UnknownJet

  const Categories: seq<Category> := [AllJets, QuarkJet, GluonJet, UnknownJet]

  /**
   * The three tests the analyses apply to a particle code. The HepMC analysis writes them
   * out on the absolute code (HepMCTests); the Pythia analyses call Pythia8::Particle's
   * isGluon, isQuark and isDiquark, which are taken as given.
   */
  datatype PartonTests = PartonTests(isGluon: int -> bool, isQuark: int -> bool, isDiquark: int -> bool)

  function HepMCTests(): PartonTests {
    PartonTests(id => Abs(id) == Gluon, id => Down <= Abs(id) <= Top, id => IsDiquark(Abs(id)))
  }

  /** The condition that ends the ancestry walk: a gluon, a quark or a diquark. */
  predicate IsParton(tests: PartonTests, id: int) {
    tests.isGluon(id) || tests.isQuark(id) || tests.isDiquark(id)
  }

  /**
   * getHardProcessType: no parton gives an unknown jet; a gluon is tested first, then a
   * diquark (counted as a gluon jet), then a quark.
   */
  function HardProcessType(tests: PartonTests, parton: Option<int>): (c: Category)
    ensures c != AllJets
    ensures c == GluonJet <==> parton.Some? && (tests.isGluon(parton.value) || tests.isDiquark(parton.value))
    ensures c == QuarkJet <==> parton.Some? && tests.isQuark(parton.value)
                                && !tests.isGluon(parton.value) && !tests.isDiquark(parton.value)
    ensures c == UnknownJet <==> parton.None? || !IsParton(tests, parton.value)
  {
    match parton
    case None => UnknownJet
    case Some(id) =>
      if tests.isGluon(id) then GluonJet
      else if tests.isDiquark(id) then GluonJet
      else if tests.isQuark(id) then QuarkJet
      else UnknownJet
  }

  /**
   * With the HepMC analysis' integer rules: a quark jet exactly for codes of absolute value
   * 1 to 6, a gluon jet exactly for 21 and the diquarks, whatever the sign of the code.
   */
  lemma HepMCCategories(id: int)
    ensures HardProcessType(HepMCTests(), Some(id)) == QuarkJet <==> 1 <= Abs(id) <= 6
    ensures HardProcessType(HepMCTests(), Some(id)) == GluonJet <==> Abs(id) == 21 || IsDiquark(Abs(id))
    ensures HardProcessType(HepMCTests(), Some(id)) == HardProcessType(HepMCTests(), Some(-id))
  {
    assert Abs(-id) == Abs(id);
    if 1 <= Abs(id) <= 6 {
      assert !IsDiquark(Abs(id));
    }
  }

  /** A particle that stopped the ancestry walk never gives an unknown jet. */
  lemma PartonNeverUnknown(tests: PartonTests, id: int)
    requires IsParton(tests, id)
    ensures HardProcessType(tests, Some(id)) in {QuarkJet, GluonJet}
  {
  }
}
