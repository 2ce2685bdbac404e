# Jet substructure analysis chain, modelled in Dafny

This project models the analysis side of a small Monte Carlo production framework for
jet substructure studies in proton-proton collisions:

- **The three analysis macros.** These are the HepMC analysis, the Pythia analysis and the
  pi0/K0 variant of the Pythia analysis. Each one:
  - selects final-state particles with |eta| <= 0.7, plus an EMCal azimuth window in the
    pi0/K0 variant;
  - traces every jet constituent up its first-mother chain to a gluon, quark or diquark;
  - takes the jet's parton origin to be the most energetic of the partons found, and from
    it the jet category (quark, gluon or unknown);
  - runs the iterative soft-drop declustering (z_cut = 0.1, beta = 0) along the harder
    branch;
  - clamps the groomed symmetry at zero;
  - fills per-radius (R = 0.2 .. 0.6), per-category histograms through a two-level lookup
    by radius and category.
- **Post-processing:**
  - decoding of slice names and their ordering by pt interval;
  - the extraction of normalised pt slices from the 2D histograms;
  - the merge of the 21 pt-hard bins;
  - cross-section scaling.
- **Driver pieces:**
  - the parameter bag and pt-hard table of the simulation engine;
  - the chunking of HepMC files into batch jobs.

Histograms are sequences of fill records (or of bin contents, for post-processing).
Generator events are particle tables whose mother lists point to earlier entries.
A jet arrives as its constituents, its groomed soft-drop result and its reclustered
binary tree; clustering itself is not modelled.

The core is modelled as code of its own form:

- The histogram handlers are classes whose methods update their fields.
- The ancestry walk, the vote, the declustering, the event loops and the chunk builder are
  loops with invariants. Each is proved equal to a specifying function.
- Name encoding, the merge and the scaling are functions, with lemmas about them:
  - round trips (decode of an encoded name, stoi of a formatted number);
  - ordering (pt bins, sorted file lists);
  - partition (chunks flatten back to the sorted file list);
  - "nothing else changes" (every setter and fill method).

The HepMC and Pythia analyses (makeJetSpectrumAndSoftDrop.C and simAnalysisPythia.C) fill
the Nsd values into the Rg histograms, so their Nsd histograms are never filled. The pi0/K0
analysis (simPythiaK0StablePi0Decayed.C) fills its Nsd histograms with the splitting count.
The model keeps both as written: the contracts of the per-jet fills say so.

## Model

| member | source | states |
|---|---|---|
| Pdg.DiquarkTableIsScheme | macros/makeJetSpectrumAndSoftDrop.C:329-332 | a code is in the 25-entry diquark table exactly when it is 1000*q1 + 100*q2 + (2S+1) for quarks d..b with q1 >= q2, spin 1, or spin 0 for two different flavours |
| Pdg.ListedDiquarkIsScheme | macros/makeJetSpectrumAndSoftDrop.C:330 | each table entry decodes to a quark pair and multiplicity allowed by the numbering scheme |
| Pdg.SchemeDiquarkListed | macros/makeJetSpectrumAndSoftDrop.C:329-332 | every diquark the scheme allows from d, u, s, c, b is found by isDiquark |
| Pdg.HardProcessType | macros/simAnalysisPythia.C:503-515 | never AllJets; gluon jet iff the parton is a gluon or diquark; quark jet iff a quark that is neither; unknown iff no parton or none of the three |
| Pdg.HepMCCategories | macros/makeJetSpectrumAndSoftDrop.C:431-439 | with the integer rules: quark jet iff abs code 1..6, gluon jet iff 21 or a diquark, and the sign of the code is irrelevant |
| Pdg.PartonNeverUnknown | macros/makeJetSpectrumAndSoftDrop.C:351-362 | a particle that stops the ancestry walk is always classified quark or gluon |
| Events.SelectParticles | macros/simPythiaK0StablePi0Decayed.C:343-362 | the result holds exactly the indices of final-state particles with abs(eta) <= 0.7, inside the inclusive phi window when both bounds are non-negative; strictly increasing, so each appears once and in event order |
| Events.GetMotherParticles | macros/makeJetSpectrumAndSoftDrop.C:317-327 | no production vertex gives no mothers; otherwise the vertex's incoming particles in order |
| PartonOrigin.FirstMotherChain | macros/makeJetSpectrumAndSoftDrop.C:342-362 | the first-mother chain of a particle only visits earlier entries of the event |
| PartonOrigin.ChainOrigin | macros/makeJetSpectrumAndSoftDrop.C:342-362 | a found origin is an earlier entry whose code passes the parton test |
| PartonOrigin.ChainOriginIsFirstParton | macros/makeJetSpectrumAndSoftDrop.C:342-362 | no origin iff no chain member is a parton; otherwise the origin is the first parton on the chain |
| PartonOrigin.TraceChain | macros/simAnalysisPythia.C:394-421 | the while loop over first mothers returns the first parton on the chain, or none when the chain ends without one (ChainOrigin, by ChainOriginIsFirstParton) |
| PartonOrigin.Resolved | macros/simAnalysisPythia.C:392-425 | at most one origin per constituent, every one an index into the event |
| PartonOrigin.FindSame | macros/makeJetSpectrumAndSoftDrop.C:366 | find_if: the first vote whose mother equals the origin, and no earlier vote matches |
| PartonOrigin.Tally | macros/makeJetSpectrumAndSoftDrop.C:363-373 | the vote list has at most one entry per resolved origin, all inside the event |
| PartonOrigin.SameIsEquivalence | macros/makeJetSpectrumAndSoftDrop.C:366 | the particle equality used by the vote is reflexive, symmetric and transitive |
| PartonOrigin.TallyCountsSum | macros/makeJetSpectrumAndSoftDrop.C:363-373 | the counts of all votes add up to the number of resolved constituents |
| PartonOrigin.SumCountsVote | macros/makeJetSpectrumAndSoftDrop.C:366-372 | one vote raises the total count by exactly one |
| PartonOrigin.TallySnoc | macros/makeJetSpectrumAndSoftDrop.C:363-373 | tallying one more origin is one more vote on the previous tally |
| PartonOrigin.CountSameSnoc | macros/makeJetSpectrumAndSoftDrop.C:366-372 | one more origin adds one to the count of exactly the particles equal to it |
| PartonOrigin.VoteDistinct | macros/makeJetSpectrumAndSoftDrop.C:366-372 | voting keeps the mothers of the list pairwise different |
| PartonOrigin.VoteCovers | macros/makeJetSpectrumAndSoftDrop.C:366-372 | after a vote every origin so far has an equal mother in the list, and every mother is one of the origins |
| PartonOrigin.VoteMothers | macros/makeJetSpectrumAndSoftDrop.C:366-372 | a vote either increments an existing entry (equal to the origin) or appends the origin; earlier mothers keep their places |
| PartonOrigin.VoteCoversAll | macros/makeJetSpectrumAndSoftDrop.C:366-372 | a vote extends the coverage of the origins by the new one |
| PartonOrigin.VoteCounts | macros/makeJetSpectrumAndSoftDrop.C:366-372 | after a vote each entry's count is the number of origins equal to its mother |
| PartonOrigin.TallyCharacterisation | macros/makeJetSpectrumAndSoftDrop.C:363-373 | the tally has distinct mothers, covers every origin, holds only origins, and each count is the number of origins equal to the mother |
| PartonOrigin.CountSameAbsent | macros/makeJetSpectrumAndSoftDrop.C:366-372 | a particle matching no entry of a covering vote list occurs nowhere among the origins |
| PartonOrigin.HighestEnergy | macros/makeJetSpectrumAndSoftDrop.C:376-378 | the chosen candidate is one of the candidates and no candidate has higher energy |
| PartonOrigin.PartonOriginProperties | macros/makeJetSpectrumAndSoftDrop.C:334-379 | no origin iff no constituent resolves; otherwise a resolved parton of maximal energy among all resolved origins |
| PartonOrigin.TallyNonEmpty | macros/makeJetSpectrumAndSoftDrop.C:375 | the vote list is empty only when nothing resolved |
| PartonOrigin.OriginIsResolvedParton | macros/makeJetSpectrumAndSoftDrop.C:375-378 | the highest-energy vote is a resolved origin and a parton |
| PartonOrigin.OriginMostEnergetic | macros/makeJetSpectrumAndSoftDrop.C:376-378 | no resolved origin has more energy than the chosen one |
| PartonOrigin.ResolvedArePartons | macros/makeJetSpectrumAndSoftDrop.C:351-357 | every resolved origin lies in the event and passes the parton test |
| PartonOrigin.ResolvedSnoc | macros/makeJetSpectrumAndSoftDrop.C:336-374 | one more constituent adds its chain origin, if it has one, and nothing else |
| PartonOrigin.ResolvedAppend | macros/simAnalysisPythia.C:392-440 | appending a constituent appends exactly its origin, or nothing when the chain ends without a parton |
| PartonOrigin.FindCandidate | macros/simAnalysisPythia.C:428-429 | the search loop returns the index FindSame specifies |
| PartonOrigin.CastVote | macros/simAnalysisPythia.C:428-438 | increments the matching entry or appends a new one with count 1, as Vote specifies |
| PartonOrigin.CollectVote | macros/simAnalysisPythia.C:394-439 | one pass of the constituent loop turns the tally of the first i constituents into that of the first i+1 |
| PartonOrigin.TallyStep | macros/simAnalysisPythia.C:422-439 | an unresolved constituent leaves the tally unchanged; a resolved one casts a vote for its origin |
| PartonOrigin.CollectVotes | macros/simAnalysisPythia.C:392-440 | the constituent loop yields the tally of all resolved origins |
| PartonOrigin.GetPartonOrigin | macros/simAnalysisPythia.C:388-447 | null iff nothing resolved; otherwise a resolved origin with the highest energy of all resolved origins (votes do not matter) |
| PartonOrigin.UnknownIffUnresolved | macros/simAnalysisPythia.C:503-507 | a jet is unknown exactly when none of its constituents traces back to a parton |
| PartonOrigin.EnergyBeatsVotes | macros/simAnalysisPythia.C:443-446 | in a concrete event a parton with one vote beats a parton with two votes because it is more energetic, so the jet is a quark jet |
| PartonOrigin.ExampleWinner | macros/simAnalysisPythia.C:444-446 | the sort by energy picks the more energetic of two voted partons |
| PartonOrigin.ExampleCategory | macros/simAnalysisPythia.C:503-515 | a down quark gives a quark jet |
| PartonOrigin.ExampleTally | macros/simAnalysisPythia.C:428-438 | origins 0, 0, 1 tally to votes (0, 2) and (1, 1) |
| PartonOrigin.ExampleValid | macros/simAnalysisPythia.C:396 | the example event lists mothers before children |
| PartonOrigin.ExampleChains | macros/simAnalysisPythia.C:399-421 | in the example, two chains reach the gluon, one the quark, and one ends without a parton |
| PartonOrigin.ExampleResolved | macros/simAnalysisPythia.C:392-440 | the example jet resolves to origins 0, 0, 1 |
| SoftDrop.GeoTerm | macros/makeJetSpectrumAndSoftDrop.C:414 | with beta = 0 the geometric factor of the cut is 1 |
| SoftDrop.Harder | macros/makeJetSpectrumAndSoftDrop.C:411 | after the swap the harder branch is one of the two and has the larger pt |
| SoftDrop.Softer | macros/makeJetSpectrumAndSoftDrop.C:411 | after the swap the softer branch is the other one and has the smaller pt |
| SoftDrop.PrimaryChain | macros/makeJetSpectrumAndSoftDrop.C:407-427 | the chain of splittings along the harder branch is empty exactly for a jet without parents, and each step has harder pt >= softer pt |
| SoftDrop.IterativeSoftDrop | macros/makeJetSpectrumAndSoftDrop.C:401-429 | the while loop returns the entries Declustering describes with the drop count starting at 0: one per accepted step of the primary chain (DeclusteringEntries) |
| SoftDrop.DeclusteringEntries | macros/makeJetSpectrumAndSoftDrop.C:410-427 | an entry is in the result iff some step of the primary chain passes z > z_cut and records (z, delta R, step number) |
| SoftDrop.DropCountsIncreasing | macros/makeJetSpectrumAndSoftDrop.C:409-412 | the recorded drop counts increase strictly and lie between the start and start + chain length |
| SoftDrop.EntriesAtMostSteps | macros/makeJetSpectrumAndSoftDrop.C:410-427 | at most one entry per declustering step |
| SoftDrop.EntriesBalance | macros/makeJetSpectrumAndSoftDrop.C:413-424 | with non-negative pt every recorded symmetry lies in (z_cut, 1/2] |
| SoftDrop.NoParentsNoSplittings | macros/makeJetSpectrumAndSoftDrop.C:410 | a jet without parents gives no entries |
| SoftDrop.SofterSubtreeIgnored | macros/makeJetSpectrumAndSoftDrop.C:426 | only the pt of the softer branch matters: its substructure never changes the result |
| SoftDrop.RejectedStepStillCounts | macros/makeJetSpectrumAndSoftDrop.C:412-416 | a rejected first step still advances the drop count, so the accepted second step records count 2 |
| SoftDrop.SoftDropResult | macros/makeJetSpectrumAndSoftDrop.C:396-398 | z_g is the symmetry clamped at 0, never negative; delta R and the dropped count pass through |
| SoftDrop.SoftDropResultIdempotent | macros/makeJetSpectrumAndSoftDrop.C:398 | clamping an already clamped result changes nothing |
| Histograms.RoutedEntries | macros/simAnalysisPythia.C:105-116 | a fill appends its entry to exactly the addressed histogram, when radius, category and type all exist, and leaves every other histogram alone |
| Histograms.RoutedMissing | macros/simAnalysisPythia.C:105-116 | an unknown radius, category or histogram type leaves the whole store unchanged |
| Histograms.RoutedShape | macros/simAnalysisPythia.C:297-308 | a fill never adds or removes histograms |
| Histograms.BuildRbin | macros/simAnalysisPythia.C:286-295 | one empty set of histograms for each of the four categories |
| Histograms.BuildStore | macros/simAnalysisPythia.C:118-134 | every radius 2..6, category and type has an empty histogram |
| Histograms.CompleteFill | macros/simAnalysisPythia.C:105-116 | in a complete store a fill for R in 2..6 appends to its histogram, any other R leaves the store unchanged, and completeness is kept |
| Histograms.ApplyFillsEntries | macros/simAnalysisPythia.C:580-601 | a sequence of fills leaves in each existing histogram its old entries followed by the entries addressed to it, in call order |
| Histograms.ApplyFillsShape | macros/simAnalysisPythia.C:580-601 | a sequence of fills keeps the store's shape |
| Histograms.ApplyFillsConcat | macros/simAnalysisPythia.C:580-601 | applying two call sequences in turn equals applying their concatenation |
| Histograms.EntriesForConcat | macros/simAnalysisPythia.C:580-601 | the entries addressed to a histogram by concatenated calls are the concatenation |
| Histograms.HistTypeCode | macros/simAnalysisPythia.C:81-93 | the ten histogram types have codes 0..9 |
| Histograms.HistTypeCodeRoundTrip | macros/simAnalysisPythia.C:81-93 | decoding a code gives back the type; exactly the codes 0..9 decode, and they re-encode to themselves |
| Histograms.CategoryCode | macros/simAnalysisPythia.C:70-76 | the enumerator of a category indexes it in the category list |
| Histograms.CategoryOfCode | macros/simAnalysisPythia.C:70-76 | exactly codes 0..3 name a category, and they round-trip |
| Histograms.Recorded | macros/simAnalysisPythia.C:225-262 | spectra record (pt); 2D types record (value, pt); the weight is the event weight for weighted types and 1 otherwise |
| Histograms.AbsIgnoresWeight | macros/simAnalysisPythia.C:229-256 | an absolute histogram records the same entry whatever weight is passed |
| Histograms.SoftDropHistograms.constructor | macros/simAnalysisPythia.C:94 | a new handler has no histograms and no event counts |
| Histograms.SoftDropHistograms.Build | macros/simAnalysisPythia.C:118-134 | builds the complete store of empty histograms and empty event histograms |
| Histograms.SoftDropHistograms.CountEvent | macros/simAnalysisPythia.C:97-103 | appends (1), (1, weight), (kt) and weighted (kt) to the four event histograms; the jet histograms are unchanged |
| Histograms.SoftDropHistograms.Fill | macros/simAnalysisPythia.C:105-116 | the store after the fill is the routed store, with an unknown type or category changing nothing; the event histograms are unchanged |
| Histograms.ObservableCode | macros/simPythiaK0StablePi0Decayed.C:81-88 | the five unweighted types have codes 0..4 |
| Histograms.ObservableOfCode | macros/simPythiaK0StablePi0Decayed.C:81-88 | exactly codes 0..4 decode, and they round-trip |
| Histograms.RecordedUnweighted | macros/simPythiaK0StablePi0Decayed.C:214-236 | every entry has weight 1; spectra record pt, the others (value, pt) |
| Histograms.K0Histograms.constructor | macros/simPythiaK0StablePi0Decayed.C:89 | a new handler holds nothing |
| Histograms.K0Histograms.Build | macros/simPythiaK0StablePi0Decayed.C:118-140 | the complete store of empty histograms; all event and constituent histograms empty |
| Histograms.K0Histograms.CountEvent | macros/simPythiaK0StablePi0Decayed.C:92-99 | appends bin, (bin, cross section), (bin, trials), pt-hard and event scale; nothing else changes |
| Histograms.K0Histograms.FillPi0 | macros/simPythiaK0StablePi0Decayed.C:114 | appends pt to the pi0 constituent spectrum only |
| Histograms.K0Histograms.FillK0 | macros/simPythiaK0StablePi0Decayed.C:116 | appends pt to the K0 constituent spectrum only |
| Histograms.K0Histograms.Fill | macros/simPythiaK0StablePi0Decayed.C:101-112 | the store after the fill is the routed store; event and constituent histograms unchanged |
| JetAnalysis.AcceptanceShrinksWithRadius | macros/simAnalysisPythia.C:574-577 | a jet accepted at a radius is accepted at every smaller radius |
| JetAnalysis.Observe | macros/simAnalysisPythia.C:586-601 | z_g passes unchanged; below z_g 0.1 Rg and theta_g are -0.01 and Nsd is -1; otherwise Rg, the iterative count and Rg/R |
| JetAnalysis.SentinelsMarkUngroomed | macros/simAnalysisPythia.C:590-601 | each of Rg, Nsd, theta_g is negative exactly when z_g < 0.1 |
| JetAnalysis.WeightedJetFills | macros/simAnalysisPythia.C:580-601 | each accepted jet makes 20 fill calls |
| JetAnalysis.WeightedGroupEntries | macros/simAnalysisPythia.C:580-583 | a group of four calls puts one entry into both the weighted and the absolute histogram of the jet's radius and observable, for All and for the jet's category, and nowhere else |
| JetAnalysis.WeightedJetEntriesByGroup | macros/simAnalysisPythia.C:580-601 | for each histogram the 20 calls contribute the entries of the five groups, Nsd values landing in the Rg histograms |
| JetAnalysis.WeightedJetEntries | macros/simAnalysisPythia.C:580-601 | the calls of one jet add, to each histogram of its radius in All or its category, exactly the expected entries (two for Rg, none for Nsd), and nothing elsewhere |
| JetAnalysis.JetCategoryOf | macros/simAnalysisPythia.C:578-579 | a jet's category is never AllJets |
| JetAnalysis.JetWeightedHistograms | macros/simAnalysisPythia.C:572-601 | after one jet, each histogram holds its old entries plus the expected ones when the jet passes the cuts and the histogram is its radius and All or its category |
| JetAnalysis.ApplyWeightedCalls | macros/simAnalysisPythia.C:580-601 | issuing the calls through the handler applies them in order; the event histograms are unchanged |
| JetAnalysis.AnalyseJetWeighted | macros/simAnalysisPythia.C:574-601 | the body of the jet loop applies that jet's calls (JetWeightedHistograms says what they add); the event histograms are unchanged |
| JetAnalysis.WeightedJetsStep | macros/simAnalysisPythia.C:572-602 | the calls of the first i+1 jets are those of the first i followed by jet i's |
| JetAnalysis.AnalyseJetsWeighted | macros/simAnalysisPythia.C:572-602 | the jet loop applies the calls of all jets in order; the event histograms are unchanged |
| JetAnalysis.AnalyseEventWeighted | macros/makeJetSpectrumAndSoftDrop.C:448-483 | one event: counts the event with its scale and weight, then applies the calls of every radius 2..6 |
| JetAnalysis.UnweightedJetFills | macros/simPythiaK0StablePi0Decayed.C:572-583 | each accepted jet makes 10 fill calls |
| JetAnalysis.UnweightedPairEntries | macros/simPythiaK0StablePi0Decayed.C:572-573 | a pair of calls puts one entry into the observable's histogram for All and for the jet's category |
| JetAnalysis.UnweightedJetEntriesParts | macros/simPythiaK0StablePi0Decayed.C:572-583 | the ten calls contribute, per histogram, the entries of the five pairs |
| JetAnalysis.UnweightedJetEntries | macros/simPythiaK0StablePi0Decayed.C:572-583 | the calls of one jet add exactly one entry, the observable's value, to each histogram of its radius in All or its category |
| JetAnalysis.JetUnweightedHistograms | macros/simPythiaK0StablePi0Decayed.C:564-584 | after one jet each histogram gains exactly that entry when the jet passes the cuts and the histogram is its radius and All or its category |
| JetAnalysis.ApplyUnweightedCalls | macros/simPythiaK0StablePi0Decayed.C:572-583 | issuing the calls applies them in order; everything else is unchanged |
| JetAnalysis.AnalyseJetUnweighted | macros/simPythiaK0StablePi0Decayed.C:566-583 | the body of the jet loop applies that jet's calls (JetUnweightedHistograms says what they add); everything else is unchanged |
| JetAnalysis.UnweightedJetsStep | macros/simPythiaK0StablePi0Decayed.C:564-584 | the calls of the first i+1 jets are those of the first i followed by jet i's |
| JetAnalysis.AnalyseJetsUnweighted | macros/simPythiaK0StablePi0Decayed.C:564-584 | the jet loop applies the calls of all jets in order; everything else is unchanged |
| JetAnalysis.SpeciesSpectrumCount | macros/simPythiaK0StablePi0Decayed.C:554-558 | one entry per selected particle of the species, each an unweighted pt of such a particle |
| JetAnalysis.SpeciesSpectrumLength | macros/simPythiaK0StablePi0Decayed.C:554-558 | the number of entries counts the selected particles of the species |
| JetAnalysis.SpeciesSpectrumEntries | macros/simPythiaK0StablePi0Decayed.C:554-558 | each entry is the pt of a selected particle of the species, weight 1 |
| JetAnalysis.FillConstituentSpectra | macros/simPythiaK0StablePi0Decayed.C:554-558 | the loop appends the pi0 and K0 spectra of the selection and changes nothing else |
| JetAnalysis.PhiWindow | macros/simPythiaK0StablePi0Decayed.C:535-552 | with the cut on, the EMCal window; off, two negative bounds |
| JetAnalysis.NoWindowNoPhiCut | macros/simPythiaK0StablePi0Decayed.C:343-356 | without the cut the selection is the plain one; with it, the plain one restricted to the EMCal azimuth |
| JetAnalysis.AnalyseEventK0 | macros/simPythiaK0StablePi0Decayed.C:541-586 | one event: exactly the particles in the EMCal window are selected, the constituent spectra and event histograms are filled, and the calls of every radius are applied |
| JetAnalysis.HepMCEventLoop | macros/makeJetSpectrumAndSoftDrop.C:444-491 | the read loop processes every available event when maxevents <= -1; otherwise min(available, maxevents), but one event even for maxevents 0 or 1 (HepMCEventsProcessed) |
| JetAnalysis.HepMCEventBound | macros/makeJetSpectrumAndSoftDrop.C:486-490 | never more than available; all of them for maxevents <= -1; with a limit and events available, at least one (the limit is compared only after an event is processed) and at most maxevents when that is positive |
| JetAnalysis.PythiaEventLoop | macros/simAnalysisPythia.C:558 | maxevents events when positive, none otherwise |
| JetAnalysis.PtHardBinsContiguous | macros/simAnalysisPythia.C:519 | 21 non-empty intervals from 0 to 1000, each starting where the previous ends |
| HistNames.ParseHead | postprocessing/makeComparisonStableVsDecayed.C:45-50 | the first token must be non-empty for stoi to succeed |
| HistNames.ExtraTokensIgnored | postprocessing/makeComparisonStableVsDecayed.C:43-56 | tokens after the third do not change the decoded name |
| HistNames.FailureIsFinal | postprocessing/makeComparisonStableVsDecayed.C:43-56 | once a stoi throws, later tokens do not matter |
| HistNames.DecodeHistName | postprocessing/makeComparisonStableVsDecayed.C:38-58 | the getline loop yields the observable, R, ptmin and ptmax DecodedFields describes, or the first stoi failure; DecodeEncoded makes this a round trip |
| HistNames.ParseHeadEncoded | postprocessing/makeComparisonStableVsDecayed.C:45-50 | the head "h<obs>R<RR>" decodes to the observable and the radius |
| HistNames.DecodeEncoded | postprocessing/makeComparisonStableVsDecayed.C:38-58 | decoding "h<obs>R<RR>_<ptmin>_<ptmax>" gives back observable, R, ptmin and ptmax for every 32-bit value and observable without '_' |
| HistNames.DecodeEncodedWithExtra | postprocessing/makeComparisonStableVsDecayed.C:43-56 | extra '_' tokens after an encoded name are ignored |
| HistNames.EncodeIsJoin | postprocessing/extractNormalizedSoftdrop.C:32 | the encoded name is the head and the two edges joined by '_' |
| HistNames.DecodeRgName | postprocessing/makeComparisonStableVsDecayed.C:38-58 | hRgR02_10_20 decodes to (Rg, 2, 10, 20) |
| HistNames.HeadWithoutR | postprocessing/makeComparisonStableVsDecayed.C:46-49 | without an 'R', rfind's npos makes the whole token the radius text and the observable drops the first character |
| HistNames.PtOrderFacts | postprocessing/makeComparisonStableVsDecayed.C:25-26 | adjacent bins are ordered; two bins are equivalent for the set iff their intervals overlap; equal edges are equivalent; the order is irreflexive |
| HistNames.InsertPtBinSorted | postprocessing/makeComparisonStableVsDecayed.C:77 | set insertion keeps the bins sorted |
| HistNames.InsertPtBinPresent | postprocessing/makeComparisonStableVsDecayed.C:77 | inserting a bin equivalent to a stored one leaves the set unchanged |
| HistNames.InsertPtBinAbsent | postprocessing/makeComparisonStableVsDecayed.C:77 | inserting a bin equivalent to none adds exactly it |
| HistNames.SecondInsertNotStored | postprocessing/makeComparisonStableVsDecayed.C:25-26 | a second bin with the same edges is not stored: the first spectrum stays |
| HistNames.ParseRDirectory | postprocessing/makeComparisonStableVsDecayed.C:71 | an empty directory name fails (substr out of range) |
| HistNames.ParseRDirectoryName | postprocessing/makeComparisonStableVsDecayed.C:71 | "R%02d" parses back to R |
| HistNames.RDirectorySorted | postprocessing/makeComparisonStableVsDecayed.C:73-78 | the bins read from well-formed names succeed and are sorted |
| HistNames.ReadRDirectory | postprocessing/makeComparisonStableVsDecayed.C:73-78 | the key loop collects each key's pt bin into the ordered set, or ends with the first failing key |
| HistNames.RDirectoryFailureFinal | postprocessing/makeComparisonStableVsDecayed.C:73-78 | a throwing key ends the read whatever follows |
| HistNames.AddRDirectoryAt | postprocessing/makeComparisonStableVsDecayed.C:79 | adding a directory keeps existing radii and adds its radius only if new |
| HistNames.ObservableBinsHasRadius | postprocessing/makeComparisonStableVsDecayed.C:68-80 | every directory's radius ends up in the map |
| HistNames.ObservableBinsFirst | postprocessing/makeComparisonStableVsDecayed.C:32-33 | the bins stored for a radius are those of the first directory naming it |
| HistNames.ReadObservable | postprocessing/makeComparisonStableVsDecayed.C:64-82 | the directory loop maps each R directory to its pt bins, the first directory of a radius winning, or ends with the first failure |
| HistNames.ObservableFailureFinal | postprocessing/makeComparisonStableVsDecayed.C:68-80 | a failure in a directory ends the read |
| HistNames.PlanPages | postprocessing/makeComparisonStableVsDecayed.C:144-181 | slice k goes to canvas k/7, pad k%7+1, a new canvas at each multiple of 7, and ceil(n/7) canvases |
| HistNames.CanvasCapacity | postprocessing/makeComparisonStableVsDecayed.C:153-159 | pads run 1..7 and two slices on one canvas are fewer than 7 apart |
| Extraction.HasKey | postprocessing/extractNormalizedSoftdrop.C:1-10 | true iff some key has the name |
| Extraction.PtBinningIncreasing | postprocessing/extractNormalizedSoftdrop.C:14 | 15 strictly increasing edges in (0, 500], hence 14 slices |
| Extraction.ProcName | macros/simPythiaK0StablePi0Decayed.C:176-195 | every category has a name suffix, and none is empty |
| Extraction.ProcNameInjective | macros/simPythiaK0StablePi0Decayed.C:176-195 | two categories with the same suffix are the same category |
| Extraction.K0NamesDistinct | macros/simPythiaK0StablePi0Decayed.C:197-211 | the pi0/K0 analysis gives different observables or categories different names at one radius |
| Extraction.PythiaInputsAreK0Names | postprocessing/extractSoftdropPythia.C:34-35 | the names the Pythia extraction reads are those the pi0/K0 analysis writes for All jets |
| Extraction.FindBin | postprocessing/extractNormalizedSoftdrop.C:31 | the bin number is at most the number of edges |
| Extraction.FindBinSplit | postprocessing/extractNormalizedSoftdrop.C:31 | the bin is the number of edges at or below x |
| Extraction.FindBinNumbering | postprocessing/extractNormalizedSoftdrop.C:31 | underflow 0, overflow n, and bin i+1 for x in [edge i, edge i+1) |
| Extraction.FindBinAboveEdge | postprocessing/extractNormalizedSoftdrop.C:31 | just above edge a lies bin a+1 |
| Extraction.FindBinBelowEdge | postprocessing/extractNormalizedSoftdrop.C:31 | just below edge b lies bin b |
| Extraction.SliceOutput | postprocessing/extractNormalizedSoftdrop.C:29-32 | slice k spans edges k and k+1 |
| Extraction.RadiusSlices | postprocessing/extractNormalizedSoftdrop.C:29-36 | 14 slices per radius, slice k at position k |
| Extraction.ExtractRadius | postprocessing/extractNormalizedSoftdrop.C:29-36 | the slice loop returns the 14 slices of one radius, slice k between edges k and k+1 |
| Extraction.RadiusSlicesOrdered | postprocessing/extractNormalizedSoftdrop.C:29-30 | slices are non-empty and ordered without overlap |
| Extraction.SliceBinsAtEdges | postprocessing/extractNormalizedSoftdrop.C:31 | on an axis with both edges, the projection sums bins a+1 .. b |
| Extraction.ConsecutiveSlicesAdjacent | postprocessing/extractNormalizedSoftdrop.C:31 | consecutive slices use adjacent bin ranges: no bin is counted twice or skipped |
| Extraction.ProducerPtAxis | macros/simAnalysisPythia.C:170 | the analyses' pt axis has edges 0, 1, ..., 500 |
| Extraction.ProducerSliceBins | postprocessing/extractNormalizedSoftdrop.C:31 | on that axis slice k sums bins ptmin+1 .. ptmax |
| Extraction.LookupAxis | postprocessing/extractNormalizedSoftdrop.C:24-25 | found iff the directory holds the histogram |
| Extraction.RadiiFailureFinal | postprocessing/extractNormalizedSoftdrop.C:22-25 | a missing histogram ends the run: later radii change nothing |
| Extraction.ObservablesFailureFinal | postprocessing/extractNormalizedSoftdrop.C:19-25 | a failure in one observable ends the run |
| Extraction.Extract | postprocessing/extractNormalizedSoftdrop.C:12-39 | observables absent from the file are skipped; the first missing per-radius histogram ends the run with MissingHistogram; otherwise 14 slices per radius 2..6 and present observable, in loop order (Extraction) |
| Extraction.ExtractNext | postprocessing/extractNormalizedSoftdrop.C:19-38 | one pass of the observable loop turns the outputs of the first i observables into those of the first i+1 |
| Extraction.ObservablesStep | postprocessing/extractNormalizedSoftdrop.C:19-38 | an absent observable is skipped; a present one adds its radii's slices or fails |
| Extraction.ExtractObservable | postprocessing/extractNormalizedSoftdrop.C:22-37 | the radius loop over R = 2..6 returns the slices of every radius, or the first missing histogram |
| Extraction.RadiiOutputsShape | postprocessing/extractNormalizedSoftdrop.C:22-37 | 14 slices per radius, all of the observable and from a slice |
| Extraction.ExtractionShape | postprocessing/extractNormalizedSoftdrop.C:19-38 | 70 projections per present observable, each of a present observable and a real slice |
| Extraction.WrittenNamesDecode | postprocessing/extractNormalizedSoftdrop.C:27-32 | every written name decodes back to its observable, R and edges, and every directory to its R |
| Merging.Scaled | postprocessing/pthard/mergePtHardBins.C:9-12 | same binning, every bin divided by the event count |
| Merging.AddHist | postprocessing/pthard/mergePtHardBins.C:21 | the sum keeps the binning of the histogram added to; one of another binning is refused |
| Merging.MergedContents | postprocessing/pthard/mergePtHardBins.C:14-25 | null iff the list is empty; otherwise a histogram with the binning of the first one |
| Merging.MergedIsBinwiseSum | postprocessing/pthard/mergePtHardBins.C:14-25 | the merge is the bin-by-bin sum of all listed histograms |
| Merging.AddInto | postprocessing/pthard/mergePtHardBins.C:21 | TH1::Add in place: the array becomes the binwise sum |
| Merging.Merge | postprocessing/pthard/mergePtHardBins.C:14-25 | the clone-and-add loop gives null for an empty list and otherwise the merge MergedContents describes (the binwise sum, by MergedIsBinwiseSum) |
| Merging.DistOfKey | postprocessing/pthard/mergePtHardBins.C:32-47 | the keys zg, rg, nsd, thetag name exactly one distribution each |
| Merging.MergedNamesAreExtractionInputs | postprocessing/pthard/mergePtHardBins.C:65-83 | the names the merge reads are those the normalised extraction reads |
| Merging.ReadRadiiFailureFinal | postprocessing/pthard/mergePtHardBins.C:60-88 | a missing spectrum ends the read |
| Merging.ReadFile | postprocessing/pthard/mergePtHardBins.C:52-90 | reads one file as ReadFileSpec describes: the first missing histogram among hNevents, hXsection, hKtWeighted and the radius spectra, or NoEvents, is an error; otherwise the file scaled by its event count |
| Merging.ReadRadiiContents | postprocessing/pthard/mergePtHardBins.C:60-88 | each radius holds its scaled spectrum, and each distribution exactly when present, scaled |
| Merging.ReadFileContents | postprocessing/pthard/mergePtHardBins.C:52-90 | event count and cross section are bin 1, kt and all histograms are divided by the event count |
| Merging.ReadFileFailures | postprocessing/pthard/mergePtHardBins.C:55-58 | a missing kt histogram, or zero events, is an error |
| Merging.GetMergeList | postprocessing/pthard/mergePtHardBins.C:27-50 | the file loop returns the merge list MergeList describes (kt, spectrum or a distribution; empty for an unknown name) |
| Merging.MergeListUnknown | postprocessing/pthard/mergePtHardBins.C:29-48 | an unknown observable name gives an empty list |
| Merging.MergeListKt | postprocessing/pthard/mergePtHardBins.C:30 | kt: every file's histogram, in bin order |
| Merging.MergeListSpectrum | postprocessing/pthard/mergePtHardBins.C:31 | spectrum: every file's spectrum of R |
| Merging.MergeListDist | postprocessing/pthard/mergePtHardBins.C:32-47 | a distribution: one histogram per file that has it, from such a file; empty iff no file has it |
| Merging.DistContribution | postprocessing/pthard/mergePtHardBins.C:33-34 | a file contributes its histogram iff it has R |
| Merging.ReadAll | postprocessing/pthard/mergePtHardBins.C:94-96 | on success one entry per bin |
| Merging.ReadAllFailureFinal | postprocessing/pthard/mergePtHardBins.C:94-96 | a failing file ends the read |
| Merging.ReadAllWellRead | postprocessing/pthard/mergePtHardBins.C:94-96 | every file read holds spectra for all radii |
| Merging.SpectraMerges | postprocessing/pthard/mergePtHardBins.C:107-108 | one merged spectrum per radius |
| Merging.TableBinOfPtHardBin | postprocessing/pthard/mergePtHardBins.C:99-102 | FindBin on the (-0.5, 20.5) axis puts pt-hard bin b in bin b+1 |
| Merging.MergeDist | postprocessing/pthard/mergePtHardBins.C:109-116 | a merged histogram only when the list is non-empty |
| Merging.ReadFiles | postprocessing/pthard/mergePtHardBins.C:93-96 | reads the files of pt-hard bins 0..20 in order, stopping at the first missing or unreadable file |
| Merging.FillTables | postprocessing/pthard/mergePtHardBins.C:98-104 | the tables hold each file's event count and cross section |
| Merging.MergeRadii | postprocessing/pthard/mergePtHardBins.C:106-117 | one merged spectrum per radius 2..6, and one merged distribution per radius that some file holds |
| Merging.MergeFiles | postprocessing/pthard/mergePtHardBins.C:98-145 | the merged file: the two tables, the summed kt, and the merged spectra and distributions |
| Merging.MergePtHardBins | postprocessing/pthard/mergePtHardBins.C:92-146 | fails with the first read error; otherwise the merged file of all 21 bins |
| Merging.TablesHoldFileValues | postprocessing/pthard/mergePtHardBins.C:99-104 | after a successful merge, table bin b+1 holds bin b's event count and cross section |
| Merging.AssembledTables | postprocessing/pthard/mergePtHardBins.C:101-103 | table bin b+1 holds file b's event count and cross section |
| Merging.DistMergesEmpty | postprocessing/pthard/mergePtHardBins.C:109-117 | no merged histograms iff no file has the distribution at any radius |
| Merging.DirectoryOf | postprocessing/pthard/mergePtHardBins.C:123-145 | a distribution's directory is written iff it has merged histograms; Spectra always |
| Merging.AssembledDirectory | postprocessing/pthard/mergePtHardBins.C:123-145 | the directory exists iff some file has the distribution |
| Merging.DirectoryIffAnyHistogram | postprocessing/pthard/mergePtHardBins.C:126-145 | after a successful merge a distribution's directory is written iff some file read holds it; Spectra is always written |
| Merging.FiveSpectra | postprocessing/pthard/mergePtHardBins.C:107-108 | five merged spectra, one per radius |
| Merging.MergedKtIsSum | postprocessing/pthard/mergePtHardBins.C:105 | the merged kt is the binwise sum over bins |
| Scaling.FirstFilledBin | postprocessing/pythia_pthard/makeScaled.C:16-22 | the first non-zero bin, or none when all are zero |
| Scaling.FindWeightBin | postprocessing/pythia_pthard/makeScaled.C:15-22 | -1 iff all bins are empty, else the first filled bin |
| Scaling.Weight | postprocessing/pythia_pthard/makeScaled.C:15-25 | defined iff some trial bin is filled |
| Scaling.GetWeight | postprocessing/pythia_pthard/makeScaled.C:15-25 | the search loop and the division give exactly Weight: none iff no trial bin is filled |
| Scaling.WeightFromFirstFilled | postprocessing/pythia_pthard/makeScaled.C:17-24 | the weight is cross section over entries in the first filled bin |
| Scaling.ScaleBy | postprocessing/pythia_pthard/makeScaled.C:35 | every bin times the weight |
| Scaling.ScaledItems | postprocessing/pythia_pthard/makeScaled.C:27-44 | scaling keeps the number of items |
| Scaling.ScaleRecursive | postprocessing/pythia_pthard/makeScaled.C:27-44 | the recursive loop computes ScaledItems: every item scaled, collections descended into |
| Scaling.ScaledObjLeaves | postprocessing/pythia_pthard/makeScaled.C:27-44 | every histogram of a collection tree is scaled and the tree shape is kept |
| Scaling.ScaledItemsLeaves | postprocessing/pythia_pthard/makeScaled.C:28-43 | the same for a list of items |
| Scaling.ScaleByOne | postprocessing/pythia_pthard/makeScaled.C:27-44 | weight 1 changes nothing |
| Scaling.ScaleTwice | postprocessing/pythia_pthard/makeScaled.C:27-44 | scaling by a then b is scaling by a*b |
| Scaling.Lookup | postprocessing/pythia_pthard/makeScaled.C:49-50 | found only when a key has the name; none iff no key has it |
| Scaling.ScaledKeys | postprocessing/pythia_pthard/makeScaled.C:54-97 | one output per key, in order |
| Scaling.ScaleDirectory | postprocessing/pythia_pthard/makeScaled.C:60-80 | the keys of a directory one level down, in order: histograms scaled, everything else (nested collections too) written as read |
| Scaling.MakeScaled | postprocessing/pythia_pthard/makeScaled.C:46-98 | computes MakeScaledSpec |
| Scaling.MakeScaledKeys | postprocessing/pythia_pthard/makeScaled.C:53-97 | same names; excluded keys copied; top histograms scaled; nested collections copied unscaled |
| Scaling.MakeScaledWith | postprocessing/pythia_pthard/makeScaled.C:49-97 | with the weight defined, the output is the scaled keys |
| Scaling.WeightUsesEventCount | postprocessing/pythia_pthard/makeScaled.C:49-51 | the weight divides by the hNevents entries, passed as the trials histogram |
| Scaling.ScaledWithAt | postprocessing/pythia_pthard/makeScaled.C:82-91 | a non-excluded top histogram is scaled by the weight |
| Scaling.ScaledHistogramAt | postprocessing/pythia_pthard/makeScaled.C:82-91 | a non-excluded top-level histogram is scaled by whatever weight ScaledKeys is given |
| Submission.PathJoinInjective | submit_analysis_cades_serial.py:40 | joining different relative names to one directory gives different paths |
| Submission.Insert | submit_analysis_cades_serial.py:41 | sorted, with the element added |
| Submission.Sort | submit_analysis_cades_serial.py:41 | sorted and a permutation |
| Submission.SortedUnique | submit_analysis_cades_serial.py:41 | two sorted permutations of each other are equal |
| Submission.HepmcPaths | submit_analysis_cades_serial.py:35-41 | at most one path per walk entry |
| Submission.HepmcPathsMembers | submit_analysis_cades_serial.py:37-40 | a path is listed iff a walked file name contains "hepmc" |
| Submission.FindHepmcFiles | submit_analysis_cades_serial.py:35-41 | sorted and a permutation of the matching paths |
| Submission.ListingLines | submit_analysis_cades_serial.py:30-32 | the listing splits back into the file names |
| Submission.AnalysisChunk.constructor | submit_analysis_cades_serial.py:17-19 | the work directory is set and the chunk has no files |
| Submission.AnalysisChunk.AddFile | submit_analysis_cades_serial.py:24-25 | the file is appended |
| Submission.AnalysisChunk.Build | submit_analysis_cades_serial.py:27-33 | the listing it produces is inputfiles.txt in the work directory, holding one line per file |
| Submission.ChunksBlocked | submit_analysis_cades_serial.py:57-69 | every chunk but the last holds exactly filesperjob files, none is empty, and they flatten back to the files in order |
| Submission.BlockedUnique | submit_analysis_cades_serial.py:57-69 | a blocked chunking is the one the loop produces from its flattened files |
| Submission.ChunkCount | submit_analysis_cades_serial.py:54-69 | for filesperjob >= 1 the number of chunks is ceil(files / filesperjob) |
| Submission.ChunkDirectoriesDistinct | submit_analysis_cades_serial.py:59 | different chunk numbers give different %04d chunk directories |
| Submission.FillChunks | submit_analysis_cades_serial.py:54-66 | no open chunk iff no files; each built chunk has its numbered directory and listing; with the open chunk they form a blocked partition of the files |
| Submission.CreateJobscript | submit_analysis_cades_serial.py:43-82 | fails iff the walk finds no hepmc file; otherwise a plan with numbered chunk directories and an array size equal to the chunk count, whose chunks flatten to a sorted permutation of the found files |
| Submission.PlanPartition | submit_analysis_cades_serial.py:57-82 | a plan's chunks are the blocked chunking of its files; ceil(files / filesperjob) array slots, or a single slot when filesperjob <= 0 (the chunk is never closed) |
| Submission.ChunksAreSortedFiles | submit_analysis_cades_serial.py:41 | the chunks flatten to the sorted file list |
| Formatting.StoiFormatPadded | postprocessing/makeComparisonStableVsDecayed.C:48 | stoi of an integer printed with %0Nd gives it back |
| Formatting.StoiFormatInt | postprocessing/makeComparisonStableVsDecayed.C:52-53 | stoi of %d gives it back |
| Formatting.FormatPaddedShape | postprocessing/extractNormalizedSoftdrop.C:27 | %0Nd of a non-negative number is all digits and at least N characters long |
| Formatting.FormatIntShape | postprocessing/extractNormalizedSoftdrop.C:32 | %d is digits with an optional leading minus |
| Formatting.RFind | postprocessing/makeComparisonStableVsDecayed.C:46 | the last occurrence, or none |
| Formatting.Split | postprocessing/makeComparisonStableVsDecayed.C:43 | no token contains the delimiter |
| Formatting.SplitJoin | postprocessing/makeComparisonStableVsDecayed.C:43 | splitting a join gives back the tokens |
| Formatting.ContainsIffOccurs | submit_analysis_cades_serial.py:39 | the substring test holds iff the pattern occurs |
| Engine.SimulationParam.constructor | engine/SimulationEngine.py:25-34 | every field starts at its default; energies consistent |
| Engine.SimulationParam.SetEnergyCms | engine/SimulationEngine.py:36-38 | beam energy is half; others unchanged |
| Engine.SimulationParam.SetEnergyBeam | engine/SimulationEngine.py:40-42 | cms energy is double; others unchanged |
| Engine.SimulationParam.SetEvents | engine/SimulationEngine.py:44-45 | sets events only |
| Engine.SimulationParam.SetProcess | engine/SimulationEngine.py:47-48 | sets process only |
| Engine.SimulationParam.SetPdfset | engine/SimulationEngine.py:50-51 | sets pdfset only |
| Engine.SimulationParam.SetPtHardBin | engine/SimulationEngine.py:53-54 | sets pthardbin only |
| Engine.SimulationParam.SetKtMin | engine/SimulationEngine.py:56-57 | sets ktmin only |
| Engine.SimulationParam.SetTune | engine/SimulationEngine.py:59-60 | sets tune only |
| Engine.SimulationParam.SetHepMCFile | engine/SimulationEngine.py:62-63 | sets hepmcfile only |
| Engine.PtHardHandler.KnownBins | engine/SimulationEngine.py:105-108 | the table knows bins 0..20 |
| Engine.PtHardHandler.LimitsMatchMacros | engine/SimulationEngine.py:110-113 | empty outside 0..20; inside, the macros' interval |
| Engine.PtHardHandler.LimitsContiguous | engine/SimulationEngine.py:105-113 | 21 contiguous intervals from 0 to 1000 |

## Left out

- Jet clustering (anti-kt, Cambridge/Aachen reclustering) and the SoftDrop grooming object: FastJet is external, so the jets, their groomed symmetry, delta R, dropped count and reclustered tree are inputs.
- Event generation and I/O: Pythia and HepMC reading, ROOT file reading and writing, and canvas drawing are external. Files are values (maps of named histograms), and the event read loop takes the number of available events as a parameter.
- Floating-point arithmetic: momenta, energies and bin contents are exact reals. Pseudorapidity, azimuth, delta R and pt are given with each particle or jet rather than computed.
- TH1 binning of fills: a fill is a record of its coordinates and weight, not an increment of a bin. The normalisation of the extracted projections (ProjectionX, Integral, width scaling) is not modelled; only the bins each projection sums are.
- PartonOrigin.GetPartonOrigin: std::sort is not stable, so with equal parton energies the source's choice is unspecified. The model picks one candidate of maximal energy; its contract states only maximality and membership.
- Scaling.Weight: when no trial bin is filled, the source takes the ratio of the contents of bin -1. The model returns None there instead.
- Scaling.MakeScaled: a missing hXsection or hNevents is dereferenced in the source, which crashes. The model ends with MissingScalingHistogram.
- Scaling.ScaleRecursive: the source defines scaleRecursive but never calls it from makeScaled. It is modelled on its own, with its lemmas.
- Merging.ReadFile: a file with zero events leads to a division by zero in prepareHist. The model reports NoEvents instead of infinite bin contents.
- Merging.ReadFile: a missing hNevents, hXsection, hKtWeighted or JetSpectrumWeightedR%02d histogram is dereferenced in the source, which crashes. The model ends with a MissingHistogram failure.
- Merging.ReadAll: a missing pt-hard bin file makes TFile::Open return null, which crashes the source. The model ends with MissingFile.
- Extraction.Extract: a missing input histogram is dereferenced in the source, which crashes. The model ends with a MissingHistogram failure.
- Submission.CreateJobscript: with no input files the source raises AttributeError. The model returns NoInputFiles.
- Submission.CreateJobscript: the slurm job script (partition, log directory, runner command) is not modelled; only the chunk plan and the array size are.
- Submission.AnalysisChunk.Build: makedirs is not modelled; the listing file is returned as a value.
- The os.walk order is an input sequence, since the file list is sorted afterwards.
- configurePythia, including the argument swap in the call of simAnalysisPythia, and the generator settings such as decays and seeds: generator configuration is external.
- The mu2 value of the iterative soft drop is computed but never used by the source.
- The geometric term with beta > 0: beta is fixed at 0 in the source.
- Logging and console messages.
- The engine classes RunCard, Process, SimulationEngine and SimulationRunner, and the getters: they hold no logic beyond the fields they return.
- Histogram titles, binnings of the observable axes and histogram ranges: only names and routing are modelled.
- Enumerations are integer codes with explicit decoding, because the fill functions take raw enum values.
