// The serial analysis submitter: it collects the HepMC files below an input
// directory, sorts them and partitions them into numbered chunk directories,
// one slot of a batch array job each (submit_analysis_cades_serial.py).

module Submission {
  import opened Wrappers
  import opened Formatting

  /** os.path.join for a name that is not itself an absolute path. */
  function PathJoin(dir: string, name: string): string
  {
    if name != [] && name[0] == '/' then name
    else if dir == [] || dir[|dir| - 1] == '/' then dir + name
    else dir + "/" + name
  }

  /** Joining one directory with two different relative names gives two different paths. */
  lemma PathJoinInjective(dir: string, a: string, b: string)
    requires a != [] && a[0] != '/' && b != [] && b[0] != '/'
    requires PathJoin(dir, a) == PathJoin(dir, b)
    ensures a == b
  {
    var p := if dir == [] || dir[|dir| - 1] == '/' then dir else dir + "/";
    assert PathJoin(dir, a) == p + a && PathJoin(dir, b) == p + b;
    assert a == (p + a)[|p|..];
  }

  // ---------------------------------------------------------------------
  // Python's ordering of str values, and sorted()
  // ---------------------------------------------------------------------

  /** a <= b for Python strings: code point by code point, a proper prefix first. */
  predicate StrLe(a: string, b: string)
    decreases |a|
  {
    a == [] || (b != [] && (a[0] < b[0] || (a[0] == b[0] && StrLe(a[1..], b[1..]))))
  }

  lemma {:induction false} StrLeTotal(a: string, b: string)
    ensures StrLe(a, b) || StrLe(b, a)
    decreases |a|
  {
    if a != [] && b != [] && a[0] == b[0] {
      StrLeTotal(a[1..], b[1..]);
    }
  }

  lemma {:induction false} StrLeAntisymmetric(a: string, b: string)
    requires StrLe(a, b) && StrLe(b, a)
    ensures a == b
    decreases |a|
  {
    if a != [] {
      StrLeAntisymmetric(a[1..], b[1..]);
      assert a == [a[0]] + a[1..] && b == [b[0]] + b[1..];
    }
  }

  lemma {:induction false} StrLeReflexive(a: string)
    ensures StrLe(a, a)
    decreases |a|
  {
    if a != [] {
      StrLeReflexive(a[1..]);
    }
  }

  lemma {:induction false} StrLeTransitive(a: string, b: string, c: string)
    requires StrLe(a, b) && StrLe(b, c)
    ensures StrLe(a, c)
    decreases |a|
  {
    if a != [] && a[0] == b[0] && b[0] == c[0] {
      StrLeTransitive(a[1..], b[1..], c[1..]);
    }
  }

  predicate Sorted(s: seq<string>) {
    forall i, j :: 0 <= i < j < |s| ==> StrLe(s[i], s[j])
  }

  /** Inserts x into a sorted list in front of the first element it does not exceed. */
  function Insert(x: string, s: seq<string>): (r: seq<string>)
    requires Sorted(s)
    ensures Sorted(r) && multiset(r) == multiset(s) + multiset{x}
  {
    if s == [] then [x]
    else if StrLe(x, s[0]) then
      InsertFront(x, s);
      [x] + s
    else
      var t := Insert(x, s[1..]);
      InsertBehind(x, s, t);
      assert s == [s[0]] + s[1..];
      [s[0]] + t
  }

  lemma InsertFront(x: string, s: seq<string>)
    requires Sorted(s) && s != [] && StrLe(x, s[0])
    ensures Sorted([x] + s)
  {
    forall j | 0 < j < |s| ensures StrLe(x, s[j]) { StrLeTransitive(x, s[0], s[j]); }
    var r := [x] + s;
    forall i, j | 0 <= i < j < |r| ensures StrLe(r[i], r[j]) {
      if i > 0 {
        assert r[i] == s[i - 1] && r[j] == s[j - 1];
      } else {
        assert r[j] == s[j - 1];
      }
    }
  }

  /** s[0] stays in front when x goes further back. */
  lemma InsertBehind(x: string, s: seq<string>, t: seq<string>)
    requires Sorted(s) && s != [] && !StrLe(x, s[0])
    requires Sorted(t) && multiset(t) == multiset(s[1..]) + multiset{x}
    ensures Sorted([s[0]] + t)
  {
    StrLeTotal(x, s[0]);
    forall j | 0 <= j < |t| ensures StrLe(s[0], t[j]) {
      assert t[j] in multiset(t);
      if t[j] != x {
        assert t[j] in multiset(s[1..]);
        var k :| 0 <= k < |s[1..]| && s[1..][k] == t[j];
        assert s[k + 1] == t[j];
      }
    }
    var r := [s[0]] + t;
    forall i, j | 0 <= i < j < |r| ensures StrLe(r[i], r[j]) {
      if i > 0 {
        assert r[i] == t[i - 1] && r[j] == t[j - 1];
      } else {
        assert r[j] == t[j - 1];
      }
    }
  }

  /** Python's sorted() on a list of str. */
  function Sort(s: seq<string>): (r: seq<string>)
    ensures Sorted(r) && multiset(r) == multiset(s)
  {
    if s == [] then []
    else
      assert s == [s[0]] + s[1..];
      Insert(s[0], Sort(s[1..]))
  }

  /** Two sorted arrangements of the same strings are the same list: sorted() has one answer. */
  lemma {:induction false} SortedUnique(a: seq<string>, b: seq<string>)
    requires Sorted(a) && Sorted(b) && multiset(a) == multiset(b)
    ensures a == b
    decreases |a|
  {
    assert |a| == |multiset(a)| == |multiset(b)| == |b|;
    if a != [] {
      SortedHeads(a, b);
      assert a == [a[0]] + a[1..] && b == [b[0]] + b[1..];
      assert multiset(a[1..]) == multiset(a) - multiset{a[0]};
      assert multiset(b[1..]) == multiset(b) - multiset{b[0]};
      SortedUnique(a[1..], b[1..]);
    }
  }

  /** Two sorted arrangements of the same strings start with the same string. */
  lemma SortedHeads(a: seq<string>, b: seq<string>)
    requires Sorted(a) && Sorted(b) && multiset(a) == multiset(b) && a != [] && b != []
    ensures a[0] == b[0]
  {
    assert a[0] in multiset(b) && b[0] in multiset(a);
    var i :| 0 <= i < |b| && b[i] == a[0];
    var j :| 0 <= j < |a| && a[j] == b[0];
    StrLeReflexive(a[0]);
    StrLeReflexive(b[0]);
    assert StrLe(b[0], a[0]) by { if i > 0 { assert StrLe(b[0], b[i]); } }
    assert StrLe(a[0], b[0]) by { if j > 0 { assert StrLe(a[0], a[j]); } }
    StrLeAntisymmetric(a[0], b[0]);
  }

  // ---------------------------------------------------------------------
  // find_hepmcfiles
  // ---------------------------------------------------------------------

  /** One file os.walk reports: the directory it lives in and its name. */
  datatype WalkEntry = WalkEntry(root: string, name: string)

  predicate IsHepmc(e: WalkEntry) {
    Contains(e.name, "hepmc")
  }

  /** The joined paths of the walked files whose name contains "hepmc", in walk order. */
  function HepmcPaths(walk: seq<WalkEntry>): (paths: seq<string>)
    ensures |paths| <= |walk|
  {
    if walk == [] then []
    else
      var e := walk[|walk| - 1];
      HepmcPaths(walk[..|walk| - 1]) + (if IsHepmc(e) then [PathJoin(e.root, e.name)] else [])
  }

  /** A path is collected exactly when some walked entry with "hepmc" in its name joins to it. */
  lemma {:induction false} HepmcPathsMembers(walk: seq<WalkEntry>, p: string)
    ensures p in HepmcPaths(walk) <==>
      exists k :: 0 <= k < |walk| && IsHepmc(walk[k]) && p == PathJoin(walk[k].root, walk[k].name)
    decreases |walk|
  {
    if walk != [] {
      var init := walk[..|walk| - 1];
      HepmcPathsMembers(init, p);
      if exists k :: 0 <= k < |init| && IsHepmc(init[k]) && p == PathJoin(init[k].root, init[k].name) {
        var k :| 0 <= k < |init| && IsHepmc(init[k]) && p == PathJoin(init[k].root, init[k].name);
        assert walk[k] == init[k];
      }
      if exists k :: 0 <= k < |walk| && IsHepmc(walk[k]) && p == PathJoin(walk[k].root, walk[k].name) {
        var k :| 0 <= k < |walk| && IsHepmc(walk[k]) && p == PathJoin(walk[k].root, walk[k].name);
        if k < |init| {
          assert init[k] == walk[k];
        }
      }
    }
  }

  /**
   * Walks the listing, keeps the files whose name contains "hepmc", and
   * returns their paths sorted.
   */
  method FindHepmcFiles(walk: seq<WalkEntry>) returns (files: seq<string>)
    ensures Sorted(files)
    ensures multiset(files) == multiset(HepmcPaths(walk))
  {
    var result: seq<string> := [];
    for i := 0 to |walk|
      invariant result == HepmcPaths(walk[..i])
    {
      assert walk[..i + 1][..i] == walk[..i];
      if Contains(walk[i].name, "hepmc") {
        result := result + [PathJoin(walk[i].root, walk[i].name)];
      }
    }
    assert walk[..|walk|] == walk;
    files := Sort(result);
  }

  // ---------------------------------------------------------------------
  // AnalysisChunk
  // ---------------------------------------------------------------------

  /** The text of an inputfiles.txt: every file on a line of its own. */
  function Listing(files: seq<string>): string
  {
    if files == [] then "" else files[0] + "\n" + Listing(files[1..])
  }

  lemma {:induction false} ListingSnoc(files: seq<string>, f: string)
    ensures Listing(files + [f]) == Listing(files) + f + "\n"
    decreases |files|
  {
    if files != [] {
      assert (files + [f])[1..] == files[1..] + [f];
      ListingSnoc(files[1..], f);
    } else {
      assert Listing([f]) == f + "\n" + Listing([]);
    }
  }

  /** Reading inputfiles.txt line by line gives back the chunk's files, in order. */
  lemma {:induction false} ListingLines(files: seq<string>)
    requires forall k :: 0 <= k < |files| ==> '\n' !in files[k]
    ensures Split(Listing(files), '\n') == files
    decreases |files|
  {
    if files != [] {
      assert '\n' !in files[0];
      SplitLine(files[0], Listing(files[1..]));
      ListingLines(files[1..]);
      assert files == [files[0]] + files[1..];
    }
  }

  /** Splitting a line off the front of a text. */
  lemma SplitLine(line: string, rest: string)
    requires '\n' !in line
    ensures Split(line + "\n" + rest, '\n') == [line] + Split(rest, '\n')
  {
    var s := line + "\n" + rest;
    assert s == line + ("\n" + rest);
    IndexOfAfter(line, "\n" + rest, '\n');
    var k := IndexOf(s, '\n');
    assert s[..k] == line;
    assert s[k + 1..] == rest;
  }

  /** The file that building a chunk writes. */
  datatype ListingFile = ListingFile(path: string, content: string)

  /** One slot of the array job: a work directory and the files it analyses. */
  class AnalysisChunk {
    const workdir: string
    var files: seq<string>

    constructor(workdir: string)
      ensures this.workdir == workdir && files == []
      ensures !HasFiles()
    {
      this.workdir := workdir;
      files := [];
    }

    predicate HasFiles()
      reads this
    {
      |files| > 0
    }

    /** Appends a file; afterwards the chunk has files. */
    method AddFile(hepmcfile: string)
      modifies this
      ensures files == old(files) + [hepmcfile]
      ensures HasFiles()
    {
      files := files + [hepmcfile];
    }

    /** The inputfiles.txt that building the chunk writes into its work directory. */
    method Build() returns (written: ListingFile)
      ensures written.path == PathJoin(workdir, "inputfiles.txt")
      ensures written.content == Listing(files)
    {
      var content := "";
      for i := 0 to |files|
        invariant content == Listing(files[..i])
      {
        ListingSnoc(files[..i], files[i]);
        assert files[..i + 1] == files[..i] + [files[i]];
        content := content + files[i] + "\n";
      }
      assert files[..|files|] == files;
      written := ListingFile(PathJoin(workdir, "inputfiles.txt"), content);
    }
  }

  // ---------------------------------------------------------------------
  // The chunking loop of create_jobscript
  // ---------------------------------------------------------------------

  /** The files of a list of chunks, one chunk after the other. */
  function Flatten(chunks: seq<seq<string>>): seq<string>
  {
    if chunks == [] then [] else Flatten(chunks[..|chunks| - 1]) + chunks[|chunks| - 1]
  }

  lemma {:induction false} FlattenCons(c: seq<string>, rest: seq<seq<string>>)
    ensures Flatten([c] + rest) == c + Flatten(rest)
    decreases |rest|
  {
    if rest == [] {
      assert ([c] + rest)[..0] == [];
    } else {
      var init := rest[..|rest| - 1];
      assert ([c] + rest)[..|rest|] == [c] + init;
      FlattenCons(c, init);
    }
  }

  /**
   * The partition the loop is meant to produce: blocks of filesperjob files,
   * the last one possibly shorter, or a single block when filesperjob is not
   * positive.
   */
  function Chunks(files: seq<string>, filesperjob: int): seq<seq<string>>
    decreases |files|
  {
    if files == [] then []
    else if filesperjob <= 0 || |files| <= filesperjob then [files]
    else [files[..filesperjob]] + Chunks(files[filesperjob..], filesperjob)
  }

  /**
   * A non-empty list of chunks in which every chunk but the last holds exactly
   * filesperjob files and the last holds 1 to filesperjob of them; a single
   * non-empty chunk when filesperjob is not positive.
   */
  predicate Blocked(cs: seq<seq<string>>, filesperjob: int) {
    |cs| >= 1
    && (filesperjob <= 0 ==> |cs| == 1 && cs[0] != [])
    && (filesperjob >= 1 ==>
          (forall j :: 0 <= j < |cs| - 1 ==> |cs[j]| == filesperjob)
          && 1 <= |cs[|cs| - 1]| <= filesperjob)
  }

  /** The reference partition of a non-empty file list is blocked and keeps every file in order. */
  lemma {:induction false} ChunksBlocked(files: seq<string>, filesperjob: int)
    requires files != []
    ensures Blocked(Chunks(files, filesperjob), filesperjob)
    ensures Flatten(Chunks(files, filesperjob)) == files
    decreases |files|
  {
    var cs := Chunks(files, filesperjob);
    if filesperjob <= 0 || |files| <= filesperjob {
      assert cs == [files];
      assert Flatten(cs) == Flatten([]) + files;
    } else {
      var rest := files[filesperjob..];
      ChunksBlocked(rest, filesperjob);
      FlattenCons(files[..filesperjob], Chunks(rest, filesperjob));
      assert files[..filesperjob] + rest == files;
    }
  }

  /** A blocked list of chunks is the reference partition of its own files. */
  lemma {:induction false} BlockedUnique(cs: seq<seq<string>>, filesperjob: int)
    requires Blocked(cs, filesperjob)
    ensures cs == Chunks(Flatten(cs), filesperjob)
    decreases |cs|
  {
    if |cs| == 1 {
      assert cs[..0] == [];
      assert Flatten(cs) == Flatten([]) + cs[0];
      assert cs == [cs[0]];
      assert Flatten(cs) == cs[0];
      assert cs[0] != [] && (filesperjob <= 0 || |cs[0]| <= filesperjob);
      assert Chunks(cs[0], filesperjob) == [cs[0]];
    } else {
      var rest := cs[1..];
      assert cs == [cs[0]] + rest;
      FlattenCons(cs[0], rest);
      assert Blocked(rest, filesperjob) by {
        assert forall j :: 0 <= j < |rest| - 1 ==> rest[j] == cs[j + 1];
      }
      ChunksBlocked(cs[0], filesperjob);
      BlockedUnique(rest, filesperjob);
      var files := Flatten(cs);
      var tail := Flatten(rest);
      assert tail != [] by { FlattenLast(rest); }
      assert files == cs[0] + tail;
      assert files[..filesperjob] == cs[0] && files[filesperjob..] == tail;
    }
  }

  /** The last chunk is at the end of the flattened list. */
  lemma FlattenLast(cs: seq<seq<string>>)
    requires cs != []
    ensures |Flatten(cs)| >= |cs[|cs| - 1]|
  {
  }

  /**
   * With a positive filesperjob, n >= 1 files make c chunks where
   * (c - 1) * filesperjob < n <= c * filesperjob, that is c = ceil(n / filesperjob).
   */
  lemma {:induction false} ChunkCount(files: seq<string>, filesperjob: int)
    requires filesperjob >= 1 && files != []
    ensures (|Chunks(files, filesperjob)| - 1) * filesperjob < |files|
    ensures |files| <= |Chunks(files, filesperjob)| * filesperjob
    decreases |files|
  {
    var k := filesperjob;
    if |files| > k {
      var rest := files[k..];
      ChunkCount(rest, k);
      var c := |Chunks(rest, k)|;
      assert |Chunks(files, k)| == c + 1;
      assert (c + 1) * k == c * k + k;
    }
  }

  /** The directory of chunk i: the output directory joined with i printed as "%04d". */
  function ChunkDirectory(outputdir: string, i: nat): string
  {
    PathJoin(outputdir, FormatPadded(i, 4))
  }

  /** Different chunk indices give different directories. */
  lemma ChunkDirectoriesDistinct(outputdir: string, i: nat, j: nat)
    requires i != j
    ensures ChunkDirectory(outputdir, i) != ChunkDirectory(outputdir, j)
  {
    FormatPaddedShape(i, 4);
    FormatPaddedShape(j, 4);
    PaddedDigits(i, 4);
    PaddedDigits(j, 4);
    if ChunkDirectory(outputdir, i) == ChunkDirectory(outputdir, j) {
      PathJoinInjective(outputdir, FormatPadded(i, 4), FormatPadded(j, 4));
      assert false;
    }
  }

  /** What create_jobscript prepares before launching the array job. */
  datatype JobPlan = JobPlan(
    directories: seq<string>,
    chunks: seq<seq<string>>,
    listings: seq<ListingFile>,
    arraySize: int,
    jobscript: string)

  /** nchunk is read from an unset chunk when no input file was found. */
  datatype SubmitError = NoInputFiles

  /** Chunk j lives in directory "%04d" of j and has its files listed in its inputfiles.txt. */
  predicate ChunksRecorded(directories: seq<string>, chunks: seq<seq<string>>, listings: seq<ListingFile>,
                           outputdir: string)
  {
    && |directories| == |chunks| == |listings|
    && (forall j :: 0 <= j < |chunks| ==> directories[j] == ChunkDirectory(outputdir, j))
    && (forall j :: 0 <= j < |chunks| ==>
          listings[j] == ListingFile(PathJoin(directories[j], "inputfiles.txt"), Listing(chunks[j])))
  }

  lemma RecordedSnoc(directories: seq<string>, chunks: seq<seq<string>>, listings: seq<ListingFile>,
                     outputdir: string, d: string, c: seq<string>, l: ListingFile)
    requires ChunksRecorded(directories, chunks, listings, outputdir)
    requires d == ChunkDirectory(outputdir, |chunks|)
    requires l == ListingFile(PathJoin(d, "inputfiles.txt"), Listing(c))
    ensures ChunksRecorded(directories + [d], chunks + [c], listings + [l], outputdir)
  {
    var ds, cs, ls := directories + [d], chunks + [c], listings + [l];
    forall j | 0 <= j < |cs|
      ensures ds[j] == ChunkDirectory(outputdir, j)
      ensures ls[j] == ListingFile(PathJoin(ds[j], "inputfiles.txt"), Listing(cs[j]))
    {
      if j < |chunks| {
        assert ds[j] == directories[j] && cs[j] == chunks[j] && ls[j] == listings[j];
      } else {
        assert ds[j] == d && cs[j] == c && ls[j] == l;
      }
    }
  }

  /** The built chunks and the open one hold the files handed out so far, blocked. */
  predicate Partial(chunks: seq<seq<string>>, cur: seq<string>, done: seq<string>, filesperjob: int) {
    Blocked(chunks + [cur], filesperjob) && Flatten(chunks + [cur]) == done
  }

  /** A new chunk holding one file opens after a full chunk (or as the first one). */
  lemma StartChunk(chunks: seq<seq<string>>, cur: seq<string>, f: string, filesperjob: int)
    requires chunks == [] || (filesperjob >= 1 && Blocked(chunks, filesperjob) && |chunks[|chunks| - 1]| == filesperjob)
    requires cur == []
    ensures Blocked(chunks + [cur + [f]], filesperjob)
    ensures Flatten(chunks + [cur + [f]]) == Flatten(chunks) + [f]
  {
    assert cur + [f] == [f];
    assert (chunks + [[f]])[..|chunks|] == chunks;
  }

  /** A file goes into the last chunk while that one is not full. */
  lemma AddToLast(chunks: seq<seq<string>>, cur: seq<string>, f: string, filesperjob: int)
    requires Blocked(chunks + [cur], filesperjob) && (filesperjob <= 0 || |cur| < filesperjob)
    ensures Blocked(chunks + [cur + [f]], filesperjob)
    ensures Flatten(chunks + [cur + [f]]) == Flatten(chunks + [cur]) + [f]
  {
    assert (chunks + [cur + [f]])[..|chunks|] == chunks;
    assert (chunks + [cur])[..|chunks|] == chunks;
    assert forall j :: 0 <= j < |chunks| ==> (chunks + [cur + [f]])[j] == (chunks + [cur])[j];
  }

  /**
   * The chunks of the plan are blocked and recorded in numbered directories,
   * and the array job has one slot per chunk.
   */
  predicate PlanFor(plan: JobPlan, outputdir: string, filesperjob: int) {
    && ChunksRecorded(plan.directories, plan.chunks, plan.listings, outputdir)
    && Blocked(plan.chunks, filesperjob)
    && plan.arraySize == |plan.chunks|
    && plan.jobscript == PathJoin(outputdir, "jobscript.sh")
  }

  /**
   * The chunking loop: files are added to the current chunk until it holds
   * filesperjob of them, then that chunk is built and the next one opened.
   * Returns the chunk still open at the end (none for an empty list) and
   * the chunks built before it.
   */
  method FillChunks(hepfiles: seq<string>, outputdir: string, filesperjob: int)
    returns (currentchunk: AnalysisChunk?, directories: seq<string>, chunks: seq<seq<string>>,
             listings: seq<ListingFile>)
    ensures (currentchunk == null) == (hepfiles == [])
    ensures currentchunk == null ==> chunks == []
    ensures ChunksRecorded(directories, chunks, listings, outputdir)
    ensures currentchunk != null ==>
      fresh(currentchunk)
      && currentchunk.workdir == ChunkDirectory(outputdir, |chunks|)
      && Blocked(chunks + [currentchunk.files], filesperjob)
      && Flatten(chunks + [currentchunk.files]) == hepfiles
  {
    var nchunk := 0;
    var ncurrentfiles := 0;
    currentchunk := null;
    directories, chunks, listings := [], [], [];
    for i := 0 to |hepfiles|
      invariant (currentchunk == null) == (i == 0)
      invariant i == 0 ==> nchunk == 0 && ncurrentfiles == 0
      invariant currentchunk != null ==> fresh(currentchunk)
      invariant |chunks| == nchunk
      invariant ChunksRecorded(directories, chunks, listings, outputdir)
      invariant currentchunk != null ==>
        currentchunk.workdir == ChunkDirectory(outputdir, nchunk)
        && ncurrentfiles == |currentchunk.files|
        && Partial(chunks, currentchunk.files, hepfiles[..i], filesperjob)
    {
      assert hepfiles[..i + 1] == hepfiles[..i] + [hepfiles[i]];
      if currentchunk == null {
        currentchunk := new AnalysisChunk(ChunkDirectory(outputdir, nchunk));
        assert Flatten(chunks) == [] == hepfiles[..i];
        StartChunk(chunks, currentchunk.files, hepfiles[i], filesperjob);
      } else if ncurrentfiles == filesperjob {
        var written := currentchunk.Build();
        RecordedSnoc(directories, chunks, listings, outputdir, currentchunk.workdir, currentchunk.files, written);
        directories := directories + [currentchunk.workdir];
        chunks := chunks + [currentchunk.files];
        listings := listings + [written];
        nchunk := nchunk + 1;
        ncurrentfiles := 0;
        currentchunk := new AnalysisChunk(ChunkDirectory(outputdir, nchunk));
        StartChunk(chunks, currentchunk.files, hepfiles[i], filesperjob);
      } else {
        AddToLast(chunks, currentchunk.files, hepfiles[i], filesperjob);
      }
      ghost var next := currentchunk.files + [hepfiles[i]];
      assert Partial(chunks, next, hepfiles[..i + 1], filesperjob);
      currentchunk.AddFile(hepfiles[i]);
      ncurrentfiles := ncurrentfiles + 1;
      assert currentchunk.files == next;
    }
    assert hepfiles[..|hepfiles|] == hepfiles;
  }

  /**
   * create_jobscript up to the array size: collect and sort the files, chunk
   * them, build the last chunk if it has files, and size the array job by
   * the number of chunks.
   */
  method CreateJobscript(walk: seq<WalkEntry>, outputdir: string, filesperjob: int)
    returns (r: Result<JobPlan, SubmitError>)
    ensures r.Failure? <==> HepmcPaths(walk) == []
    ensures r.Success? ==> PlanFor(r.value, outputdir, filesperjob)
    ensures r.Success? ==> Sorted(Flatten(r.value.chunks))
    ensures r.Success? ==> multiset(Flatten(r.value.chunks)) == multiset(HepmcPaths(walk))
  {
    var hepfiles := FindHepmcFiles(walk);
    var currentchunk, directories, chunks, listings := FillChunks(hepfiles, outputdir, filesperjob);
    var nchunk := |chunks|;
    if currentchunk == null {
      assert multiset(HepmcPaths(walk)) == multiset{};
      return Failure(NoInputFiles);
    }
    if currentchunk.HasFiles() {
      var written := currentchunk.Build();
      RecordedSnoc(directories, chunks, listings, outputdir, currentchunk.workdir, currentchunk.files, written);
      directories := directories + [currentchunk.workdir];
      chunks := chunks + [currentchunk.files];
      listings := listings + [written];
      nchunk := nchunk + 1;
    }
    r := Success(JobPlan(directories, chunks, listings, nchunk, PathJoin(outputdir, "jobscript.sh")));
  }

  /**
   * The chunks of a plan are the collected files split in blocks of
   * filesperjob, and there are ceil(n / filesperjob) of them (one when
   * filesperjob is not positive).
   */
  lemma {:induction false} PlanPartition(plan: JobPlan, outputdir: string, filesperjob: int)
    requires PlanFor(plan, outputdir, filesperjob)
    ensures plan.chunks == Chunks(Flatten(plan.chunks), filesperjob)
    ensures filesperjob >= 1 ==>
      (plan.arraySize - 1) * filesperjob < |Flatten(plan.chunks)| <= plan.arraySize * filesperjob
    ensures filesperjob <= 0 ==> plan.arraySize == 1
  {
    BlockedUnique(plan.chunks, filesperjob);
    FlattenLast(plan.chunks);
    if filesperjob >= 1 {
      ChunkCount(Flatten(plan.chunks), filesperjob);
    }
  }

  /** The flattened chunks of a plan are exactly sorted(find_hepmcfiles). */
  lemma ChunksAreSortedFiles(walk: seq<WalkEntry>, chunks: seq<seq<string>>)
    requires Sorted(Flatten(chunks)) && multiset(Flatten(chunks)) == multiset(HepmcPaths(walk))
    ensures Flatten(chunks) == Sort(HepmcPaths(walk))
  {
    SortedUnique(Flatten(chunks), Sort(HepmcPaths(walk)));
  }
}
