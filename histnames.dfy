/**
 * The names of the extracted pt-slice histograms, "h<observable>R<RR>_<ptmin>_<ptmax>", their
 * decoding by the stable-versus-decayed comparison, the ordering of pt slices and radius
 * directories in its sets, and the page layout of its comparison plots.
 */
module HistNames {
  import opened Wrappers
  import opened Formatting

  /** "h%sR%02d_%d_%d": observable, two-digit radius, and the integer pt edges. */
  function EncodeHistName(observable: string, r: int, ptMin: int, ptMax: int): string {
    "h" + observable + "R" + FormatPadded(r, 2) + "_" + FormatInt(ptMin) + "_" + FormatInt(ptMax)
  }

  /** The radius directory "R%02d". */
  function RDirectoryName(r: int): string {
    "R" + FormatPadded(r, 2)
  }

  /**
   * What decode_histnanme returns. The radius and the edges are left uninitialised when the
   * name has too few tokens; the model says None for those.
   */
  datatype DecodedName = DecodedName(observable: string, r: Option<int>, ptMin: Option<int>, ptMax: Option<int>)

  /** A std::stoi that throws inside the decoder ends the reading, with its exception. */
  type DecodeResult = Result<DecodedName, StoiError>

  lemma StoiNeedsText(s: string)
    ensures Stoi(s).Success? ==> s != []
  {
    if s == [] {
      assert SkipSpace(s) == [];
      assert StoiSigned([]) == StoiMagnitude(false, []);
      assert DigitPrefix([]) == [];
    }
  }

  /**
   * The first token: R is std::stoi of the text after the last 'R' (after the whole token
   * when there is none, since npos + 1 is 0), and the observable is the text from the second
   * character up to that 'R' (to the token's end when the 'R' is the first character or
   * missing, where the length passed to substr wraps around).
   */
  function ParseHead(token: string): (result: Result<(string, int), StoiError>)
    ensures result.Success? ==> token != []
  {
    var delimiter := RFind(token, 'R');
    var rText := if delimiter.Some? then token[delimiter.value + 1..] else token;
    match Stoi(rText)
    case Failure(e) => Failure(e)
    case Success(r) =>
      StoiNeedsText(rText);
      var observable := if delimiter.Some? && delimiter.value >= 1 then token[1..delimiter.value] else token[1..];
      Success((observable, r))
  }

  /**
   * What reading one more token does to the decoded fields: token 0 gives the observable and
   * R, tokens 1 and 2 the edges, later tokens nothing; a std::stoi that throws ends it.
   */
  function DecodeStep(d: DecodedName, entry: nat, token: string): DecodeResult {
    if entry == 0 then
      match ParseHead(token)
      case Failure(e) => Failure(e)
      case Success(head) => Success(d.(observable := head.0, r := Some(head.1)))
    else if entry == 1 then
      match Stoi(token)
      case Failure(e) => Failure(e)
      case Success(v) => Success(d.(ptMin := Some(v)))
    else if entry == 2 then
      match Stoi(token)
      case Failure(e) => Failure(e)
      case Success(v) => Success(d.(ptMax := Some(v)))
    else Success(d)
  }

  /** The decoder's result after the given tokens, read in order. */
  function DecodeTokens(tokens: seq<string>): DecodeResult {
    if tokens == [] then Success(DecodedName("", None, None, None))
    else match DecodeTokens(tokens[..|tokens| - 1])
      case Failure(e) => Failure(e)
      case Success(d) => DecodeStep(d, |tokens| - 1, tokens[|tokens| - 1])
  }

  /** decode_histnanme as a function of the name: the tokens std::getline cuts at '_'. */
  function DecodedFields(name: string): DecodeResult {
    DecodeTokens(Split(name, '_'))
  }

  /** Tokens after the third are read but change nothing. */
  lemma {:induction false} ExtraTokensIgnored(tokens: seq<string>, n: nat)
    requires 3 <= n <= |tokens|
    ensures DecodeTokens(tokens) == DecodeTokens(tokens[..n])
    decreases |tokens|
  {
    if n < |tokens| {
      var init := tokens[..|tokens| - 1];
      ExtraTokensIgnored(init, n);
      assert init[..n] == tokens[..n];
    } else {
      assert tokens[..n] == tokens;
    }
  }

  /** Once a token fails to convert, the result is that failure whatever follows. */
  lemma {:induction false} FailureIsFinal(tokens: seq<string>, n: nat)
    requires n <= |tokens| && DecodeTokens(tokens[..n]).Failure?
    ensures DecodeTokens(tokens) == DecodeTokens(tokens[..n])
    decreases |tokens|
  {
    if n < |tokens| {
      var init := tokens[..|tokens| - 1];
      assert init[..n] == tokens[..n];
      FailureIsFinal(init, n);
    } else {
      assert tokens[..n] == tokens;
    }
  }

  /** Reading one token more is one step of the decoder's switch. */
  lemma DecodeSnoc(tokens: seq<string>, token: string)
    ensures DecodeTokens(tokens + [token])
            == if DecodeTokens(tokens).Failure? then Failure(DecodeTokens(tokens).error)
               else DecodeStep(DecodeTokens(tokens).value, |tokens|, token)
  {
    assert (tokens + [token])[..|tokens|] == tokens;
  }

  /** The decoder's loop: one token per std::getline call, switching on the entry counter. */
  method DecodeHistName(name: string) returns (result: DecodeResult)
    ensures result == DecodedFields(name)
  {
    var tokens := Split(name, '_');
    var observable: string := "";
    var r: Option<int> := None;
    var ptMin: Option<int> := None;
    var ptMax: Option<int> := None;
    var entry := 0;
    while entry < |tokens|
      invariant entry <= |tokens|
      invariant DecodeTokens(tokens[..entry]) == Success(DecodedName(observable, r, ptMin, ptMax))
    {
      var token := tokens[entry];
      assert tokens[..entry + 1][..entry] == tokens[..entry];
      if entry == 0 {
        var head := ParseHead(token);
        if head.Failure? {
          FailureIsFinal(tokens, 1);
          return Failure(head.error);
        }
        observable := head.value.0;
        r := Some(head.value.1);
      } else if entry == 1 {
        var value := Stoi(token);
        if value.Failure? {
          FailureIsFinal(tokens, 2);
          return Failure(value.error);
        }
        ptMin := Some(value.value);
      } else if entry == 2 {
        var value := Stoi(token);
        if value.Failure? {
          FailureIsFinal(tokens, 3);
          return Failure(value.error);
        }
        ptMax := Some(value.value);
      }
      entry := entry + 1;
    }
    assert tokens[..entry] == tokens;
    result := Success(DecodedName(observable, r, ptMin, ptMax));
  }

  /** "%0Nd" and "%d" never print 'R' or '_'. */
  lemma FormattedHasNo(i: int, width: nat, c: char)
    requires c == 'R' || c == '_'
    ensures c !in FormatPadded(i, width) && FormatPadded(i, width) != []
  {
    var n: nat := if i < 0 then -i else i;
    var w := if i < 0 && width > 0 then width - 1 else if i < 0 then 0 else width;
    FormatPaddedShape(n, w);
    FormatPaddedShape(n, 0);
    PaddedDigits(n, w);
  }

  /** The first token of an encoded name decodes to its observable and radius. */
  lemma ParseHeadEncoded(observable: string, r: int)
    requires IsInt32(r)
    ensures ParseHead("h" + observable + "R" + FormatPadded(r, 2)) == Success((observable, r))
  {
    var digits := FormatPadded(r, 2);
    var token := "h" + observable + "R" + digits;
    FormattedHasNo(r, 2, 'R');
    var d := |observable| + 1;
    assert token[d] == 'R';
    assert forall j :: d < j < |token| ==> token[j] == digits[j - d - 1];
    assert RFind(token, 'R') == Some(d);
    assert token[d + 1..] == digits;
    assert token[1..d] == observable;
    StoiFormatPadded(r, 2);
  }

  /** The three tokens of an encoded name, each read back. */
  lemma DecodeEncodedTokens(observable: string, r: int, ptMin: int, ptMax: int)
    requires IsInt32(r) && IsInt32(ptMin) && IsInt32(ptMax)
    ensures DecodeTokens(["h" + observable + "R" + FormatPadded(r, 2), FormatInt(ptMin), FormatInt(ptMax)])
            == Success(DecodedName(observable, Some(r), Some(ptMin), Some(ptMax)))
  {
    var head := "h" + observable + "R" + FormatPadded(r, 2);
    ParseHeadEncoded(observable, r);
    StoiFormatInt(ptMin);
    StoiFormatInt(ptMax);
    DecodeSnoc([], head);
    assert [] + [head] == [head];
    assert DecodeTokens([head]) == Success(DecodedName(observable, Some(r), None, None));
    DecodeSnoc([head], FormatInt(ptMin));
    assert [head] + [FormatInt(ptMin)] == [head, FormatInt(ptMin)];
    assert DecodeTokens([head, FormatInt(ptMin)]) == Success(DecodedName(observable, Some(r), Some(ptMin), None));
    DecodeSnoc([head, FormatInt(ptMin)], FormatInt(ptMax));
    assert [head, FormatInt(ptMin)] + [FormatInt(ptMax)] == [head, FormatInt(ptMin), FormatInt(ptMax)];
  }

  /**
   * Decoding an encoded name gives back the observable, the radius and both edges, for every
   * observable without '_' and every value std::stoi can return; further '_'-separated tokens
   * after the edges are ignored. The last 'R' is the one the encoder wrote, so an observable
   * such as "Rg" survives.
   */
  lemma DecodeEncodedWithExtra(observable: string, r: int, ptMin: int, ptMax: int, extra: seq<string>)
    requires '_' !in observable
    requires IsInt32(r) && IsInt32(ptMin) && IsInt32(ptMax)
    requires forall t :: t in extra ==> '_' !in t && t != []
    ensures DecodedFields(Join("h" + observable + "R" + FormatPadded(r, 2), [FormatInt(ptMin), FormatInt(ptMax)] + extra, '_'))
            == Success(DecodedName(observable, Some(r), Some(ptMin), Some(ptMax)))
  {
    var head := "h" + observable + "R" + FormatPadded(r, 2);
    var rest := [FormatInt(ptMin), FormatInt(ptMax)] + extra;
    FormattedHasNo(r, 2, '_');
    FormattedHasNo(ptMin, 0, '_');
    FormattedHasNo(ptMax, 0, '_');
    assert '_' !in head;
    SplitJoin(head, rest, '_');
    var tokens := [head] + rest;
    ExtraTokensIgnored(tokens, 3);
    assert tokens[..3] == [head, FormatInt(ptMin), FormatInt(ptMax)];
    DecodeEncodedTokens(observable, r, ptMin, ptMax);
  }

  /** The encoder's name is the three tokens joined by '_'. */
  lemma EncodeIsJoin(observable: string, r: int, ptMin: int, ptMax: int)
    ensures EncodeHistName(observable, r, ptMin, ptMax)
            == Join("h" + observable + "R" + FormatPadded(r, 2), [FormatInt(ptMin), FormatInt(ptMax)], '_')
  {
    var head := "h" + observable + "R" + FormatPadded(r, 2);
    var a, b := FormatInt(ptMin), FormatInt(ptMax);
    assert [a, b][1..] == [b];
    assert Join(b, [], '_') == b;
    assert Join(a, [b], '_') == a + "_" + b;
    assert Join(head, [a, b], '_') == head + "_" + (a + "_" + b);
  }

  /** Decoding an encoded name gives back what was encoded. */
  lemma DecodeEncoded(observable: string, r: int, ptMin: int, ptMax: int)
    requires '_' !in observable
    requires IsInt32(r) && IsInt32(ptMin) && IsInt32(ptMax)
    ensures DecodedFields(EncodeHistName(observable, r, ptMin, ptMax))
            == Success(DecodedName(observable, Some(r), Some(ptMin), Some(ptMax)))
  {
    EncodeIsJoin(observable, r, ptMin, ptMax);
    DecodeEncodedWithExtra(observable, r, ptMin, ptMax, []);
    assert [FormatInt(ptMin), FormatInt(ptMax)] + [] == [FormatInt(ptMin), FormatInt(ptMax)];
  }

  /** A concrete instance: the name the extraction writes for rg at R = 0.2, 10 to 20 GeV/c. */
  lemma DecodeRgName()
    ensures DecodedFields(EncodeHistName("Rg", 2, 10, 20)) == Success(DecodedName("Rg", Some(2), Some(10), Some(20)))
  {
    DecodeEncoded("Rg", 2, 10, 20);
  }

  /** Without an 'R' the whole first token is handed to std::stoi. */
  lemma HeadWithoutR(token: string)
    requires 'R' !in token
    ensures ParseHead(token).Success? <==> Stoi(token).Success?
    ensures ParseHead(token).Success? ==> ParseHead(token).value == (token[1..], Stoi(token).value)
  {
  }

  // ---------------------------------------------------------------------------------------
  // pt slices and radius directories.
  // ---------------------------------------------------------------------------------------

  /** One pt slice: its integer edges and the handle of its histogram. */
  datatype PtBin = PtBin(ptMin: int, ptMax: int, spectrum: nat)

  /** ptbin::operator==: the edges only. */
  predicate SameEdges(a: PtBin, b: PtBin) {
    a.ptMin == b.ptMin && a.ptMax == b.ptMax
  }

  /** ptbin::operator<: a ends where or before b starts. */
  predicate PtBefore(a: PtBin, b: PtBin) {
    a.ptMax <= b.ptMin
  }

  /** std::set calls two bins equal when neither is before the other. */
  predicate Equivalent(a: PtBin, b: PtBin) {
    !PtBefore(a, b) && !PtBefore(b, a)
  }

  predicate Proper(a: PtBin) {
    a.ptMin < a.ptMax
  }

  /**
   * For proper slices, adjacent ones are ordered one way only, and two slices count as equal
   * exactly when they overlap, so equal edges in particular.
   */
  lemma PtOrderFacts(a: PtBin, b: PtBin)
    requires Proper(a) && Proper(b)
    ensures a.ptMax == b.ptMin ==> PtBefore(a, b) && !PtBefore(b, a)
    ensures Equivalent(a, b) <==> a.ptMin < b.ptMax && b.ptMin < a.ptMax
    ensures SameEdges(a, b) ==> Equivalent(a, b)
    ensures !PtBefore(a, a)
  {
  }

  /** The elements of a std::set<ptbin>, in its order. */
  predicate SortedBins(s: seq<PtBin>) {
    forall i, j :: 0 <= i < j < |s| ==> PtBefore(s[i], s[j])
  }

  predicate AllProper(s: seq<PtBin>) {
    forall i :: 0 <= i < |s| ==> Proper(s[i])
  }

  /**
   * std::set::insert: past every element before x; x goes in front of the first element
   * that is after it, and is dropped when the element found is equivalent to it.
   */
  function InsertPtBin(s: seq<PtBin>, x: PtBin): seq<PtBin> {
    if s == [] then [x]
    else if PtBefore(s[0], x) then [s[0]] + InsertPtBin(s[1..], x)
    else if PtBefore(x, s[0]) then [x] + s
    else s
  }

  /** Insertion adds nothing but the new slice. */
  lemma {:induction false} InsertPtBinElements(s: seq<PtBin>, x: PtBin)
    ensures forall y :: y in InsertPtBin(s, x) ==> y in s || y == x
    decreases |s|
  {
    if s != [] && PtBefore(s[0], x) {
      InsertPtBinElements(s[1..], x);
    }
  }

  /** In a sorted set of proper slices, a slice before the first one is before all of them. */
  lemma BeforeFirstBeforeAll(s: seq<PtBin>, x: PtBin)
    requires SortedBins(s) && AllProper(s) && s != [] && PtBefore(x, s[0])
    ensures forall j :: 0 <= j < |s| ==> PtBefore(x, s[j]) && !Equivalent(s[j], x)
  {
    forall j | 0 <= j < |s| ensures PtBefore(x, s[j]) {
      if j > 0 {
        assert PtBefore(s[0], s[j]) && Proper(s[0]);
      }
    }
  }

  /** Inserting a proper slice into a sorted set of proper slices keeps it sorted. */
  lemma {:induction false} InsertPtBinSorted(s: seq<PtBin>, x: PtBin)
    requires SortedBins(s) && AllProper(s) && Proper(x)
    ensures SortedBins(InsertPtBin(s, x)) && AllProper(InsertPtBin(s, x))
    decreases |s|
  {
    if s != [] {
      if PtBefore(s[0], x) {
        var rest := InsertPtBin(s[1..], x);
        InsertPtBinSorted(s[1..], x);
        InsertPtBinElements(s[1..], x);
        assert forall y :: y in rest ==> PtBefore(s[0], y);
        assert InsertPtBin(s, x) == [s[0]] + rest;
      } else if PtBefore(x, s[0]) {
        BeforeFirstBeforeAll(s, x);
      }
    }
  }

  /** A slice equivalent to one already in the set is not stored. */
  lemma {:induction false} InsertPtBinPresent(s: seq<PtBin>, x: PtBin, i: nat)
    requires SortedBins(s) && AllProper(s) && i < |s| && Equivalent(s[i], x)
    ensures InsertPtBin(s, x) == s
    decreases |s|
  {
    if PtBefore(s[0], x) {
      assert i > 0;
      assert s[1..][i - 1] == s[i];
      InsertPtBinPresent(s[1..], x, i - 1);
      assert s == [s[0]] + s[1..];
    } else if PtBefore(x, s[0]) {
      BeforeFirstBeforeAll(s, x);
      assert false;
    }
  }

  /** A slice equivalent to none in the set is added, and nothing else changes. */
  lemma {:induction false} InsertPtBinAbsent(s: seq<PtBin>, x: PtBin)
    requires forall i :: 0 <= i < |s| ==> !Equivalent(s[i], x)
    ensures multiset(InsertPtBin(s, x)) == multiset(s) + multiset{x}
    decreases |s|
  {
    if s != [] {
      assert !Equivalent(s[0], x);
      if PtBefore(s[0], x) {
        assert forall i :: 0 <= i < |s[1..]| ==> s[1..][i] == s[i + 1];
        InsertPtBinAbsent(s[1..], x);
        assert s == [s[0]] + s[1..];
      }
    }
  }

  /** A second slice with the same edges as one already inserted is not stored. */
  lemma SecondInsertNotStored(s: seq<PtBin>, x: PtBin, y: PtBin)
    requires SortedBins(s) && AllProper(s) && Proper(x) && SameEdges(x, y)
    ensures InsertPtBin(InsertPtBin(s, x), y) == InsertPtBin(s, x)
  {
    InsertPtBinSorted(s, x);
    var t := InsertPtBin(s, x);
    if i :| 0 <= i < |s| && Equivalent(s[i], x) {
      InsertPtBinPresent(s, x, i);
      InsertPtBinPresent(t, y, i);
    } else {
      InsertPtBinAbsent(s, x);
      assert x in multiset(t);
      var i :| 0 <= i < |t| && t[i] == x;
      InsertPtBinPresent(t, y, i);
    }
  }


  /** Why reading the histograms back can stop. */
  datatype ReadError = ConversionFailed(cause: StoiError) | SubstringOutOfRange | MissingEdge

  /**
   * The radius read from a directory name: std::stoi of the text after the first character;
   * the substring of an empty name throws.
   */
  function ParseRDirectory(name: string): (result: Result<int, ReadError>)
    ensures name == [] ==> result == Failure(SubstringOutOfRange)
  {
    if |name| < 1 then Failure(SubstringOutOfRange)
    else match Stoi(name[1..])
      case Failure(e) => Failure(ConversionFailed(e))
      case Success(r) => Success(r)
  }

  /** Directories written as "R%02d" read back as their radius. */
  lemma ParseRDirectoryName(r: int)
    requires IsInt32(r)
    ensures ParseRDirectory(RDirectoryName(r)) == Success(r)
  {
    assert RDirectoryName(r)[1..] == FormatPadded(r, 2);
    StoiFormatPadded(r, 2);
  }

  /**
   * One histogram key of a radius directory inserted into the directory's set. The edges of
   * a name with fewer than three tokens are read uninitialised; the model reports that.
   */
  function InsertHistKey(bins: seq<PtBin>, key: (string, nat)): Result<seq<PtBin>, ReadError> {
    match DecodedFields(key.0)
    case Failure(e) => Failure(ConversionFailed(e))
    case Success(d) =>
      if d.ptMin.None? || d.ptMax.None? then Failure(MissingEdge)
      else Success(InsertPtBin(bins, PtBin(d.ptMin.value, d.ptMax.value, key.1)))
  }

  /** The slices of one radius directory, from its keys (name, histogram) in key order. */
  function RDirectoryBins(keys: seq<(string, nat)>): Result<seq<PtBin>, ReadError> {
    if keys == [] then Success([])
    else match RDirectoryBins(keys[..|keys| - 1])
      case Failure(e) => Failure(e)
      case Success(bins) => InsertHistKey(bins, keys[|keys| - 1])
  }

  /** The edges a key's name decodes to, when it decodes. */
  predicate ProperName(name: string) {
    var d := DecodedFields(name);
    d.Success? && d.value.ptMin.Some? && d.value.ptMax.Some? && d.value.ptMin.value < d.value.ptMax.value
  }

  /** When every name decodes to a proper slice, reading succeeds and the slices come out sorted. */
  lemma {:induction false} RDirectorySorted(keys: seq<(string, nat)>)
    requires forall k :: 0 <= k < |keys| ==> ProperName(keys[k].0)
    ensures RDirectoryBins(keys).Success?
    ensures SortedBins(RDirectoryBins(keys).value) && AllProper(RDirectoryBins(keys).value)
    decreases |keys|
  {
    if keys != [] {
      var init := keys[..|keys| - 1];
      RDirectorySorted(init);
      var key := keys[|keys| - 1];
      var d := DecodedFields(key.0).value;
      InsertPtBinSorted(RDirectoryBins(init).value, PtBin(d.ptMin.value, d.ptMax.value, key.1));
    }
  }

  /** The inner loop of readFile over the keys of one radius directory. */
  method ReadRDirectory(keys: seq<(string, nat)>) returns (result: Result<seq<PtBin>, ReadError>)
    ensures result == RDirectoryBins(keys)
  {
    var bins: seq<PtBin> := [];
    var k := 0;
    while k < |keys|
      invariant k <= |keys|
      invariant RDirectoryBins(keys[..k]) == Success(bins)
    {
      assert keys[..k + 1][..k] == keys[..k];
      var decoded := DecodeHistName(keys[k].0);
      if decoded.Failure? {
        result := Failure(ConversionFailed(decoded.error));
        RDirectoryFailureFinal(keys, k + 1);
        return;
      }
      if decoded.value.ptMin.None? || decoded.value.ptMax.None? {
        result := Failure(MissingEdge);
        RDirectoryFailureFinal(keys, k + 1);
        return;
      }
      bins := InsertPtBin(bins, PtBin(decoded.value.ptMin.value, decoded.value.ptMax.value, keys[k].1));
      k := k + 1;
    }
    assert keys[..k] == keys;
    result := Success(bins);
  }

  /** Once one key fails, the directory fails with that error. */
  lemma {:induction false} RDirectoryFailureFinal(keys: seq<(string, nat)>, n: nat)
    requires n <= |keys| && RDirectoryBins(keys[..n]).Failure?
    ensures RDirectoryBins(keys) == RDirectoryBins(keys[..n])
    decreases |keys| - n
  {
    if n < |keys| {
      assert keys[..n + 1][..n] == keys[..n];
      RDirectoryFailureFinal(keys, n + 1);
    } else {
      assert keys[..n] == keys;
    }
  }

  /**
   * The std::set<rbin> of one observable, ordered and compared by radius only: a second
   * directory with an already present radius is not stored, so the set is a map from the
   * radius to the slices of the first directory read with it.
   */
  function ObservableBins(dirs: seq<(string, seq<(string, nat)>)>): Result<map<int, seq<PtBin>>, ReadError> {
    if dirs == [] then Success(map[])
    else match ObservableBins(dirs[..|dirs| - 1])
      case Failure(e) => Failure(e)
      case Success(rbins) => AddRDirectory(rbins, dirs[|dirs| - 1])
  }

  /** One radius directory read and inserted into the observable's set. */
  function AddRDirectory(rbins: map<int, seq<PtBin>>, dir: (string, seq<(string, nat)>)): Result<map<int, seq<PtBin>>, ReadError> {
    match ParseRDirectory(dir.0)
    case Failure(e) => Failure(e)
    case Success(r) =>
      match RDirectoryBins(dir.1)
      case Failure(e) => Failure(e)
      case Success(bins) => Success(if r in rbins then rbins else rbins[r := bins])
  }

  /** What a successful AddRDirectory does, for one radius. */
  lemma AddRDirectoryAt(rbins: map<int, seq<PtBin>>, dir: (string, seq<(string, nat)>), r: int)
    requires AddRDirectory(rbins, dir).Success?
    ensures var after := AddRDirectory(rbins, dir).value;
            && ParseRDirectory(dir.0).Success? && RDirectoryBins(dir.1).Success?
            && (r in after <==> r in rbins || ParseRDirectory(dir.0) == Success(r))
            && (r in rbins ==> after[r] == rbins[r])
            && (r !in rbins && ParseRDirectory(dir.0) == Success(r) ==> Success(after[r]) == RDirectoryBins(dir.1))
  {
  }

  /** Directory k is named for radius r. */
  predicate NamesRadius(dirs: seq<(string, seq<(string, nat)>)>, k: int, r: int) {
    0 <= k < |dirs| && ParseRDirectory(dirs[k].0) == Success(r)
  }

  /** Directory k is the first one named for radius r. */
  predicate FirstForRadius(dirs: seq<(string, seq<(string, nat)>)>, k: int, r: int) {
    NamesRadius(dirs, k, r) && forall j :: 0 <= j < k ==> !NamesRadius(dirs, j, r)
  }

  lemma NamesRadiusPrefix(dirs: seq<(string, seq<(string, nat)>)>, n: nat, r: int)
    requires n <= |dirs|
    ensures forall j :: NamesRadius(dirs[..n], j, r) <==> 0 <= j < n && NamesRadius(dirs, j, r)
    ensures forall j :: 0 <= j < n ==> dirs[..n][j] == dirs[j]
  {
  }

  /** Every radius a directory is named for is in a read that succeeds. */
  lemma {:induction false} ObservableBinsHasRadius(dirs: seq<(string, seq<(string, nat)>)>, k: nat, r: int)
    requires ObservableBins(dirs).Success? && NamesRadius(dirs, k, r)
    ensures r in ObservableBins(dirs).value
    decreases |dirs|
  {
    var n := |dirs| - 1;
    var init := dirs[..n];
    NamesRadiusPrefix(dirs, n, r);
    assert ObservableBins(init).Success?;
    var before := ObservableBins(init).value;
    var after := ObservableBins(dirs).value;
    assert AddRDirectory(before, dirs[n]) == Success(after);
    AddRDirectoryAt(before, dirs[n], r);
    if k < n {
      ObservableBinsHasRadius(init, k, r);
      assert r in before;
    } else {
      assert k == n;
      assert NamesRadius(dirs, n, r);
    }
    assert r in after;
  }

  /** Each radius holds the slices of the first directory named for it. */
  lemma {:induction false} ObservableBinsFirst(dirs: seq<(string, seq<(string, nat)>)>, r: int)
    requires ObservableBins(dirs).Success? && r in ObservableBins(dirs).value
    ensures exists k :: FirstForRadius(dirs, k, r) && RDirectoryBins(dirs[k].1) == Success(ObservableBins(dirs).value[r])
    decreases |dirs|
  {
    var n := |dirs| - 1;
    var init := dirs[..n];
    NamesRadiusPrefix(dirs, n, r);
    assert ObservableBins(init).Success?;
    var before := ObservableBins(init).value;
    var after := ObservableBins(dirs).value;
    assert AddRDirectory(before, dirs[n]) == Success(after);
    AddRDirectoryAt(before, dirs[n], r);
    if r in before {
      ObservableBinsFirst(init, r);
      var k :| FirstForRadius(init, k, r) && RDirectoryBins(init[k].1) == Success(before[r]);
      assert FirstForRadius(dirs, k, r);
    } else {
      forall j | 0 <= j < n ensures !NamesRadius(dirs, j, r) {
        if NamesRadius(dirs, j, r) {
          ObservableBinsHasRadius(init, j, r);
        }
      }
      assert FirstForRadius(dirs, n, r);
    }
  }

  /** The outer loop of readFile over the radius directories of one observable. */
  method ReadObservable(dirs: seq<(string, seq<(string, nat)>)>) returns (result: Result<map<int, seq<PtBin>>, ReadError>)
    ensures result == ObservableBins(dirs)
  {
    var rbins: map<int, seq<PtBin>> := map[];
    var k := 0;
    while k < |dirs|
      invariant k <= |dirs|
      invariant ObservableBins(dirs[..k]) == Success(rbins)
    {
      assert dirs[..k + 1][..k] == dirs[..k];
      var r := ParseRDirectory(dirs[k].0);
      if r.Failure? {
        result := Failure(r.error);
        ObservableFailureFinal(dirs, k + 1);
        return;
      }
      var bins := ReadRDirectory(dirs[k].1);
      if bins.Failure? {
        result := Failure(bins.error);
        ObservableFailureFinal(dirs, k + 1);
        return;
      }
      if r.value !in rbins {
        rbins := rbins[r.value := bins.value];
      }
      k := k + 1;
    }
    assert dirs[..k] == dirs;
    result := Success(rbins);
  }

  lemma {:induction false} ObservableFailureFinal(dirs: seq<(string, seq<(string, nat)>)>, n: nat)
    requires n <= |dirs| && ObservableBins(dirs[..n]).Failure?
    ensures ObservableBins(dirs) == ObservableBins(dirs[..n])
    decreases |dirs| - n
  {
    if n < |dirs| {
      assert dirs[..n + 1][..n] == dirs[..n];
      ObservableFailureFinal(dirs, n + 1);
    } else {
      assert dirs[..n] == dirs;
    }
  }

  // ---------------------------------------------------------------------------------------
  // Page layout of the comparison plots: 4 x 2 canvases, 7 slices per canvas.
  // ---------------------------------------------------------------------------------------

  /** Where one pt slice is drawn: canvas index, pad, and whether the pad gets the legend. */
  datatype Placement = Placement(canvas: nat, pad: nat, legend: bool)

  const PadsPerCanvas: nat := 7

  /**
   * The loop of makePlots over the slices: the pad counter starts at 8, so the first slice
   * opens canvas 0; reaching 8 again opens the next canvas at pad 1; the legend goes on
   * pad 1 only. Returns each slice's placement and the number of canvases opened.
   */
  method PlanPages(slices: nat) returns (placements: seq<Placement>, canvases: nat)
    ensures |placements| == slices
    ensures forall k :: 0 <= k < slices ==>
              placements[k] == Placement(k / PadsPerCanvas, k % PadsPerCanvas + 1, k % PadsPerCanvas == 0)
    ensures canvases == (slices + PadsPerCanvas - 1) / PadsPerCanvas
  {
    placements := [];
    var currentCanvas: nat := 0;
    var currentPad: nat := 8;
    var k := 0;
    while k < slices
      invariant k <= slices && |placements| == k
      invariant currentCanvas == (k + PadsPerCanvas - 1) / PadsPerCanvas
      invariant currentPad == if k == 0 then 8 else (k - 1) % PadsPerCanvas + 2
      invariant forall j :: 0 <= j < k ==>
                  placements[j] == Placement(j / PadsPerCanvas, j % PadsPerCanvas + 1, j % PadsPerCanvas == 0)
    {
      if currentPad == 8 {
        currentPad := 1;
        currentCanvas := currentCanvas + 1;
      }
      placements := placements + [Placement(currentCanvas - 1, currentPad, currentPad == 1)];
      currentPad := currentPad + 1;
      k := k + 1;
    }
    canvases := currentCanvas;
  }

  /** Each canvas holds at most seven slices, consecutive ones, in pads 1 to 7. */
  lemma CanvasCapacity(k: nat, k': nat)
    requires k < k'
    ensures 1 <= k % PadsPerCanvas + 1 <= PadsPerCanvas
    ensures k / PadsPerCanvas == k' / PadsPerCanvas ==> k' - k < PadsPerCanvas
    ensures k / PadsPerCanvas <= k' / PadsPerCanvas <= k / PadsPerCanvas + 1 || k' - k >= PadsPerCanvas
  {
  }
}
