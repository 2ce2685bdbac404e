// The generator-independent parameter bag of the simulation engine and the
// pt-hard bin table it hands to the generators (engine/SimulationEngine.py).

module Engine {
  import JetAnalysis

  /** The parameters of one simulation run; every setter updates the private fields in place. */
  class SimulationParam {
    var cmsEnergy: real
    var beamEnergy: real
    var events: int
    var process: string
    var pdfset: string
    var pthardbin: int
    var ktmin: real
    var tune: string
    var hepmcfile: string

    /** Collider energy and beam energy describe the same symmetric collision. */
    predicate EnergiesConsistent()
      reads this
    {
      cmsEnergy == 2.0 * beamEnergy
    }

    /** The state of a parameter bag nobody has configured yet. */
    predicate Unconfigured()
      reads this
    {
      cmsEnergy == 0.0 && beamEnergy == 0.0 && events == 0 && process == "" && pdfset == ""
      && pthardbin == -1 && ktmin == 0.0 && tune == "" && hepmcfile == ""
    }

    constructor()
      ensures Unconfigured()
      ensures EnergiesConsistent()
    {
      cmsEnergy := 0.0;
      beamEnergy := 0.0;
      events := 0;
      process := "";
      pdfset := "";
      pthardbin := -1;
      ktmin := 0.0;
      tune := "";
      hepmcfile := "";
    }

    function EnergyCms(): real
      reads this
    {
      cmsEnergy
    }

    function EnergyBeam(): real
      reads this
    {
      beamEnergy
    }

    function Events(): int
      reads this
    {
      events
    }

    function Process(): string
      reads this
    {
      process
    }

    function Pdfset(): string
      reads this
    {
      pdfset
    }

    function PtHardBin(): int
      reads this
    {
      pthardbin
    }

    function KtMin(): real
      reads this
    {
      ktmin
    }

    function Tune(): string
      reads this
    {
      tune
    }

    function HepMCFile(): string
      reads this
    {
      hepmcfile
    }

    /** The energy-independent fields, as one value, to say that a setter leaves them alone. */
    function Others(): (int, string, string, int, real, string, string)
      reads this
    {
      (events, process, pdfset, pthardbin, ktmin, tune, hepmcfile)
    }

    /** Setting the centre-of-mass energy sets the beam energy to half of it. */
    method SetEnergyCms(energy: real)
      modifies this
      ensures EnergyCms() == energy && EnergyBeam() == energy / 2.0
      ensures EnergiesConsistent()
      ensures Others() == old(Others())
    {
      cmsEnergy := energy;
      beamEnergy := energy / 2.0;
    }

    /** Setting the beam energy sets the centre-of-mass energy to twice it. */
    method SetEnergyBeam(energy: real)
      modifies this
      ensures EnergyCms() == energy * 2.0 && EnergyBeam() == energy
      ensures EnergiesConsistent()
      ensures Others() == old(Others())
    {
      cmsEnergy := energy * 2.0;
      beamEnergy := energy;
    }

    method SetEvents(n: int)
      modifies this
      ensures Events() == n
      ensures cmsEnergy == old(cmsEnergy) && beamEnergy == old(beamEnergy)
      ensures process == old(process) && pdfset == old(pdfset) && pthardbin == old(pthardbin)
      ensures ktmin == old(ktmin) && tune == old(tune) && hepmcfile == old(hepmcfile)
    {
      events := n;
    }

    method SetProcess(p: string)
      modifies this
      ensures Process() == p
      ensures cmsEnergy == old(cmsEnergy) && beamEnergy == old(beamEnergy)
      ensures events == old(events) && pdfset == old(pdfset) && pthardbin == old(pthardbin)
      ensures ktmin == old(ktmin) && tune == old(tune) && hepmcfile == old(hepmcfile)
    {
      process := p;
    }

    method SetPdfset(p: string)
      modifies this
      ensures Pdfset() == p
      ensures cmsEnergy == old(cmsEnergy) && beamEnergy == old(beamEnergy)
      ensures events == old(events) && process == old(process) && pthardbin == old(pthardbin)
      ensures ktmin == old(ktmin) && tune == old(tune) && hepmcfile == old(hepmcfile)
    {
      pdfset := p;
    }

    method SetPtHardBin(b: int)
      modifies this
      ensures PtHardBin() == b
      ensures cmsEnergy == old(cmsEnergy) && beamEnergy == old(beamEnergy)
      ensures events == old(events) && process == old(process) && pdfset == old(pdfset)
      ensures ktmin == old(ktmin) && tune == old(tune) && hepmcfile == old(hepmcfile)
    {
      pthardbin := b;
    }

    method SetKtMin(k: real)
      modifies this
      ensures KtMin() == k
      ensures cmsEnergy == old(cmsEnergy) && beamEnergy == old(beamEnergy)
      ensures events == old(events) && process == old(process) && pdfset == old(pdfset)
      ensures pthardbin == old(pthardbin) && tune == old(tune) && hepmcfile == old(hepmcfile)
    {
      ktmin := k;
    }

    method SetTune(t: string)
      modifies this
      ensures Tune() == t
      ensures cmsEnergy == old(cmsEnergy) && beamEnergy == old(beamEnergy)
      ensures events == old(events) && process == old(process) && pdfset == old(pdfset)
      ensures pthardbin == old(pthardbin) && ktmin == old(ktmin) && hepmcfile == old(hepmcfile)
    {
      tune := t;
    }

    method SetHepMCFile(f: string)
      modifies this
      ensures HepMCFile() == f
      ensures cmsEnergy == old(cmsEnergy) && beamEnergy == old(beamEnergy)
      ensures events == old(events) && process == old(process) && pdfset == old(pdfset)
      ensures pthardbin == old(pthardbin) && ktmin == old(ktmin) && tune == old(tune)
    {
      hepmcfile := f;
    }
  }

  /** The pt-hard intervals handed to the generators, keyed by bin number. */
  class PtHardHandler {
    const pthardbins: map<int, seq<real>> :=
      map[0 := [0.0, 5.0], 1 := [5.0, 7.0], 2 := [7.0, 9.0], 3 := [9.0, 12.0], 4 := [12.0, 16.0],
          5 := [16.0, 21.0], 6 := [21.0, 28.0], 7 := [28.0, 36.0], 8 := [36.0, 45.0],
          9 := [45.0, 57.0], 10 := [57.0, 70.0], 11 := [70.0, 85.0], 12 := [85.0, 99.0],
          13 := [99.0, 115.0], 14 := [115.0, 132.0], 15 := [132.0, 150.0], 16 := [150.0, 169.0],
          17 := [169.0, 190.0], 18 := [190.0, 212.0], 19 := [212.0, 235.0], 20 := [235.0, 1000.0]]

    constructor()
    {
    }

    /** The limits of a bin: empty for a bin the table does not know. */
    function GetLimits(b: int): (limits: seq<real>)
    {
      if b !in pthardbins.Keys then [] else pthardbins[b]
    }

    /** The table knows exactly the bins 0 to 20. */
    lemma KnownBins(b: int)
      ensures b in pthardbins.Keys <==> 0 <= b <= 20
    {
    }

    /**
     * Outside 0..20 the limits are empty; inside they are the interval the
     * Pythia macros configure for that bin.
     */
    lemma {:induction false} LimitsMatchMacros(b: int)
      ensures !(0 <= b <= 20) ==> GetLimits(b) == []
      ensures 0 <= b <= 20 ==>
        GetLimits(b) == [JetAnalysis.PtHardBins[b].0, JetAnalysis.PtHardBins[b].1]
    {
      KnownBins(b);
      if 0 <= b < 7 {
        LowBins(b);
      } else if 7 <= b < 14 {
        MiddleBins(b);
      } else if 14 <= b <= 20 {
        HighBins(b);
      }
    }

    lemma LowBins(b: int)
      requires 0 <= b < 7
      ensures GetLimits(b) == [JetAnalysis.PtHardBins[b].0, JetAnalysis.PtHardBins[b].1]
    {
    }

    lemma MiddleBins(b: int)
      requires 7 <= b < 14
      ensures GetLimits(b) == [JetAnalysis.PtHardBins[b].0, JetAnalysis.PtHardBins[b].1]
    {
    }

    lemma HighBins(b: int)
      requires 14 <= b <= 20
      ensures GetLimits(b) == [JetAnalysis.PtHardBins[b].0, JetAnalysis.PtHardBins[b].1]
    {
    }

    /** 21 non-empty intervals, each starting where the previous one ends, covering 0 to 1000. */
    lemma {:induction false} LimitsContiguous()
      ensures GetLimits(0)[0] == 0.0 && GetLimits(20)[1] == 1000.0
      ensures forall b :: 0 <= b <= 20 ==> |GetLimits(b)| == 2 && GetLimits(b)[0] < GetLimits(b)[1]
      ensures forall b :: 0 <= b < 20 ==> GetLimits(b)[1] == GetLimits(b + 1)[0]
    {
      JetAnalysis.PtHardBinsContiguous();
      forall b | 0 <= b <= 20
        ensures GetLimits(b) == [JetAnalysis.PtHardBins[b].0, JetAnalysis.PtHardBins[b].1]
      {
        LimitsMatchMacros(b);
      }
    }
  }
}
