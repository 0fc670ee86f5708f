/**
 * speedup_plot.py: Amdahl and Gustafson speedups from peak times. Every
 * file of a thread directory contributes the maximum of its `T_avancement`
 * column; a thread count's time is the mean of those maxima. The times go
 * into a dict keyed by thread count, and the speedups into a dict with
 * the same keys. The benchmark directories are the latest `amdal_*` and
 * `gustafson_*` runs, and the Gustafson base size is read from the name.
 */
module SpeedupPlot {
  import opened Wrappers
  import opened Text
  import opened Scaling
  import opened CsvData
  import opened ThreadGroups
  import opened PyDict

  const PEAK_COLUMN: string := "T_avancement"
  const AMDAHL_PREFIX: string := "amdal_"
  const GUSTAFSON_PREFIX: string := "gustafson_"

  // ---------------------------------------------------------------------
  // Times keyed by thread count

  predicate PositiveValues(d: Dict<int, real>) {
    forall k :: k in d.at ==> d.at[k] > 0.0
  }

  // ---------------------------------------------------------------------
  // The benchmark directory's listing

  /** The sort key `int(x) if x.isdigit() else 0`. */
  function ListingKey(name: string): nat {
    if IsDigits(name) then DigitsValue(name) else 0
  }

  /** Every entry of the listing paired with its sort key. */
  function KeyedByName(listing: seq<Entry>): (gs: seq<Group>)
    ensures |gs| == |listing|
    ensures forall i :: 0 <= i < |gs| ==> gs[i] == Group(ListingKey(listing[i].name), listing[i])
  {
    seq(|listing|, i requires 0 <= i < |listing| => Group(ListingKey(listing[i].name), listing[i]))
  }

  /**
   * `sorted(os.listdir(dossier), key=...)`: the same entries, in
   * non-decreasing key order, stable among equal keys.
   */
  function SortedListing(listing: seq<Entry>): (gs: seq<Group>)
    ensures SortedByThreads(gs)
    ensures multiset(gs) == multiset(KeyedByName(listing))
    ensures forall p :: WithCount(gs, p) == WithCount(KeyedByName(listing), p)
  {
    SortGroupsSorted(KeyedByName(listing));
    forall p
      ensures WithCount(SortGroups(KeyedByName(listing)), p) == WithCount(KeyedByName(listing), p)
    {
      SortGroupsStable(KeyedByName(listing), p);
    }
    SortGroups(KeyedByName(listing))
  }

  /** `int(s)`, raising ValueError where it does not parse. */
  function IntOf(s: string): (r: Result<int, ScriptError>)
    ensures r.Success? <==> PyInt(s).Some?
    ensures r.Success? ==> PyInt(s) == Some(r.value)
    ensures r.Failure? ==> r.error == ValueError
  {
    match PyInt(s)
    case None => Failure(ValueError)
    case Some(n) => Success(n)
  }

  // ---------------------------------------------------------------------
  // Peak times

  /**
   * `pics_executions`: `pd.read_csv(f)["T_avancement"].max()` for every
   * file in order; the first file that does not read, or lacks the column,
   * raises out of the function.
   */
  function FilePeaks(files: seq<FileEntry>): (r: Result<seq<real>, ScriptError>)
    ensures r.Success? <==> forall i :: 0 <= i < |files| ==> ColumnPeak(files[i], PEAK_COLUMN).Success?
    ensures r.Success? ==> |r.value| == |files|
    ensures r.Success? ==> forall i :: 0 <= i < |files| ==> ColumnPeak(files[i], PEAK_COLUMN) == Success(r.value[i])
  {
    if files == [] then Success([])
    else
      var init := files[..|files| - 1];
      assert forall i :: 0 <= i < |init| ==> init[i] == files[i];
      var prev :- FilePeaks(init);
      var peak :- ColumnPeak(files[|files| - 1], PEAK_COLUMN);
      Success(prev + [peak])
  }

  /** The directories that put a time into `temps_pic`: directories holding a `.csv` name. */
  predicate Contributes(e: Entry) {
    e.isDir && ListCsv(e) != []
  }

  /** `np.mean(pics_executions)`: the mean of the per-file maxima. */
  function PeakMean(e: Entry): (r: Result<real, ScriptError>)
    requires Contributes(e)
    ensures r.Success? ==> r.value > 0.0
  {
    var peaks :- FilePeaks(ListCsv(e));
    assert AllPositive(peaks);
    MeanPositive(peaks);
    Success(Mean(peaks))
  }

  /**
   * What the loops learn from one listing entry: whether it is a
   * directory, whether it holds CSV files and then the mean of their
   * peaks, and the name as an integer.
   */
  datatype ProbeData = ProbeData(isDir: bool, hasCsv: bool, count: Option<int>, peak: Result<real, ScriptError>)

  predicate PositivePeak(p: ProbeData) {
    (p.hasCsv ==> p.isDir) && (p.peak.Success? ==> p.peak.value > 0.0)
  }

  type Probe = p: ProbeData | PositivePeak(p) witness ProbeData(false, false, None, Failure(ReadError))

  /** `peak` only matters for an entry with CSV files. */
  function ProbeOf(e: Entry): Probe {
    ProbeData(e.isDir, Contributes(e), PyInt(e.name), if Contributes(e) then PeakMean(e) else Failure(ReadError))
  }

  function Probes(gs: seq<Group>): (ps: seq<Probe>)
    ensures |ps| == |gs|
    ensures forall i :: 0 <= i < |gs| ==> ps[i] == ProbeOf(gs[i].entry)
  {
    seq(|gs|, i requires 0 <= i < |gs| => ProbeOf(gs[i].entry))
  }

  /** One iteration of the loop filling `temps_pic` in `calculer_speedup_amdahl`. */
  function AmdahlStep(temps: Dict<int, real>, p: Probe): (r: Result<Dict<int, real>, ScriptError>)
    requires WellFormed(temps) && PositiveValues(temps)
    ensures r.Success? ==> WellFormed(r.value) && PositiveValues(r.value)
  {
    if !p.hasCsv then Success(temps)
    else
      var t :- p.peak;
      match p.count
      case None => Failure(ValueError)
      case Some(threads) => Success(Put(temps, threads, t))
  }

  /** `temps_pic` after the loop of `calculer_speedup_amdahl`. */
  function AmdahlTimes(ps: seq<Probe>): (r: Result<Dict<int, real>, ScriptError>)
    ensures r.Success? ==> WellFormed(r.value) && PositiveValues(r.value)
  {
    if ps == [] then Success(Empty())
    else
      var temps :- AmdahlTimes(ps[..|ps| - 1]);
      AmdahlStep(temps, ps[|ps| - 1])
  }

  /** `T1 / temps` for every thread count: the dict comprehension. */
  function AmdahlSpeedups(temps: Dict<int, real>, t1: real): (r: Dict<int, real>)
    requires WellFormed(temps) && PositiveValues(temps)
    ensures WellFormed(r) && r.keys == temps.keys
    ensures forall k :: k in r.at ==> r.at[k] == AmdahlSpeedup(t1, temps.at[k])
  {
    Dict(temps.keys, map k | k in temps.at :: AmdahlSpeedup(t1, temps.at[k]))
  }

  /** `calculer_speedup_amdahl(dossier)`: `None` when 1 is no key of `temps_pic`. */
  function AmdahlOutcome(listing: seq<Entry>): Result<Option<Dict<int, real>>, ScriptError> {
    var temps :- AmdahlTimes(Probes(SortedListing(listing)));
    if 1 !in temps.at then Success(None) else Success(Some(AmdahlSpeedups(temps, temps.at[1])))
  }

  /** What `calculer_speedup_gustafson` collects: `temps_pic` and `tailles`. */
  datatype Collected = Collected(temps: Dict<int, real>, sizes: Dict<int, int>)

  /** Both dicts have the same keys in the same order, and each size is the base size times the count. */
  predicate Consistent(c: Collected, base: int) {
    && WellFormed(c.temps) && PositiveValues(c.temps) && WellFormed(c.sizes)
    && c.sizes.keys == c.temps.keys
    && forall k :: k in c.sizes.at ==> c.sizes.at[k] == base * k
  }

  /**
   * One iteration of the loop of `calculer_speedup_gustafson`. Unlike the
   * Amdahl loop it parses the name before looking for CSV files.
   */
  function GustafsonStep(c: Collected, p: Probe, base: int): (r: Result<Collected, ScriptError>)
    requires Consistent(c, base)
    ensures r.Success? ==> Consistent(r.value, base)
  {
    if !p.isDir then Success(c)
    else
      match p.count
      case None => Failure(ValueError)
      case Some(threads) =>
        if !p.hasCsv then Success(c)
        else
          var t :- p.peak;
          Success(Collected(Put(c.temps, threads, t), Put(c.sizes, threads, base * threads)))
  }

  /**
   * `temps_pic` and `tailles` after the loop of `calculer_speedup_gustafson`;
   * every recorded problem size is `taille_base * threads`, for exactly
   * the thread counts that have a time.
   */
  function GustafsonTimes(ps: seq<Probe>, base: int): (r: Result<Collected, ScriptError>)
    ensures r.Success? ==> Consistent(r.value, base)
  {
    if ps == [] then Success(Collected(Empty(), Empty()))
    else
      var c :- GustafsonTimes(ps[..|ps| - 1], base);
      GustafsonStep(c, ps[|ps| - 1], base)
  }

  /** `T1_base / (temps / threads)` for every thread count, as the last loop fills `speedups`. */
  function GustafsonSpeedups(temps: Dict<int, real>, t1: real): (r: Dict<int, real>)
    requires WellFormed(temps) && PositiveValues(temps)
    ensures WellFormed(r) && r.keys == temps.keys
    ensures forall k :: k in r.at ==> r.at[k] == GustafsonSpeedup(t1, temps.at[k], k)
  {
    Dict(temps.keys, map k | k in temps.at :: GustafsonSpeedup(t1, temps.at[k], k))
  }

  /** `calculer_speedup_gustafson(dossier, taille_base)`: `None` when 1 is no key of `temps_pic`. */
  function GustafsonOutcome(listing: seq<Entry>, base: int): Result<Option<Dict<int, real>>, ScriptError> {
    var c :- GustafsonTimes(Probes(SortedListing(listing)), base);
    if 1 !in c.temps.at then Success(None) else Success(Some(GustafsonSpeedups(c.temps, c.temps.at[1])))
  }

  // ---------------------------------------------------------------------
  // Choosing the runs

  /** The name `list.sort()` puts last among those with the prefix: the greatest in Python's string order. */
  function Latest(names: seq<string>, prefix: string): (r: Option<string>)
    ensures r.Some? <==> exists i :: 0 <= i < |names| && StartsWith(names[i], prefix)
    ensures r.Some? ==> r.value in names && StartsWith(r.value, prefix)
    ensures r.Some? ==> forall i :: 0 <= i < |names| && StartsWith(names[i], prefix) ==>
      names[i] == r.value || LexLess(names[i], r.value)
  {
    if names == [] then None
    else
      var init := names[..|names| - 1];
      var n := names[|names| - 1];
      assert forall i :: 0 <= i < |init| ==> init[i] == names[i];
      var rest := Latest(init, prefix);
      if !StartsWith(n, prefix) then rest
      else if rest.None? then Some(n)
      else if LexLess(rest.value, n) then
        LatestRaised(names, prefix, rest.value);
        Some(n)
      else
        LexLessTotal(rest.value, n);
        rest
  }

  lemma LatestRaised(names: seq<string>, prefix: string, m: string)
    requires names != []
    requires LexLess(m, names[|names| - 1])
    requires forall i :: 0 <= i < |names| - 1 && StartsWith(names[i], prefix) ==> names[i] == m || LexLess(names[i], m)
    ensures forall i :: 0 <= i < |names| - 1 && StartsWith(names[i], prefix) ==>
      LexLess(names[i], names[|names| - 1])
  {
    forall i | 0 <= i < |names| - 1 && StartsWith(names[i], prefix)
      ensures LexLess(names[i], names[|names| - 1])
    {
      if names[i] != m {
        LexLessTransitive(names[i], m, names[|names| - 1]);
      }
    }
  }

  /** A prefix word without `_`, then `_`: splitting on `_` gives the word first. */
  lemma WordPieces(name: string, word: string)
    requires StartsWith(name, word + "_") && Lacks(word, '_')
    ensures Split(name, "_") == [word] + Split(name[|word| + 1..], "_")
  {
    var b := name[|word|..];
    assert name == word + b;
    assert (word + b)[..|word|] == word;
    LacksNoMatch(word + b, "_", |word|);
    SplitSkip(word, b, "_");
    assert b == "_" + name[|word| + 1..];
    SplitAtSeparator(name[|word| + 1..], "_");
    var pieces := Split(b, "_");
    assert pieces[0] == "" && pieces[1..] == Split(name[|word| + 1..], "_");
    assert word + pieces[0] == word;
  }

  /** `name.split("_")[1]` for a Gustafson run: the text between the first and the second `_`. */
  function BaseSizeField(name: string): (field: string)
    requires StartsWith(name, GUSTAFSON_PREFIX)
    ensures field == Split(name[10..], "_")[0]
  {
    WordPieces(name, "gustafson");
    Split(name, "_")[1]
  }

  /** The runs the script plots, and the Gustafson base size. */
  datatype Runs = Runs(amdahlDir: string, gustafsonDir: string, baseSize: int)

  /**
   * The script's set-up from the names in `tests`: `None` when either kind
   * of run is missing (the script stops there), ValueError when the base
   * size does not parse.
   */
  function SelectRuns(names: seq<string>): (r: Result<Option<Runs>, ScriptError>)
    ensures r.Failure? ==> r.error == ValueError
  {
    var amdahl := Latest(names, AMDAHL_PREFIX);
    var gustafson := Latest(names, GUSTAFSON_PREFIX);
    if amdahl.None? || gustafson.None? then Success(None)
    else
      var size :- IntOf(BaseSizeField(gustafson.value));
      Success(Some(Runs(amdahl.value, gustafson.value, size)))
  }

  // ---------------------------------------------------------------------
  // The loops

  lemma {:induction false} FilePeaksFailureSticks(files: seq<FileEntry>, k: nat)
    requires k <= |files| && FilePeaks(files[..k]).Failure?
    ensures FilePeaks(files) == FilePeaks(files[..k])
    decreases |files| - k
  {
    if k < |files| {
      assert files[..k + 1][..k] == files[..k];
      FilePeaksFailureSticks(files, k + 1);
    } else {
      assert files[..k] == files;
    }
  }

  /** The loop appending each file's peak to `pics_executions`. */
  method ReadPeaks(files: seq<FileEntry>) returns (r: Result<seq<real>, ScriptError>)
    ensures r == FilePeaks(files)
  {
    var pics: seq<real> := [];
    for i := 0 to |files|
      invariant FilePeaks(files[..i]) == Success(pics)
    {
      assert files[..i + 1][..i] == files[..i];
      var pic := ColumnPeak(files[i], PEAK_COLUMN);
      if pic.Failure? {
        FilePeaksFailureSticks(files, i + 1);
        return Failure(pic.error);
      }
      pics := pics + [pic.value];
    }
    assert files[..|files|] == files;
    return Success(pics);
  }

  lemma AmdahlTimesStep(ps: seq<Probe>, i: nat)
    requires i < |ps| && AmdahlTimes(ps[..i]).Success?
    ensures AmdahlTimes(ps[..i + 1]) == AmdahlStep(AmdahlTimes(ps[..i]).value, ps[i])
  {
    var prefix := ps[..i + 1];
    assert prefix != [] && prefix[..|prefix| - 1] == ps[..i] && prefix[|prefix| - 1] == ps[i];
  }

  lemma {:induction false} AmdahlTimesFailureSticks(ps: seq<Probe>, k: nat)
    requires k <= |ps| && AmdahlTimes(ps[..k]).Failure?
    ensures AmdahlTimes(ps) == AmdahlTimes(ps[..k])
    decreases |ps| - k
  {
    if k < |ps| {
      assert ps[..k + 1][..k] == ps[..k];
      AmdahlTimesFailureSticks(ps, k + 1);
    } else {
      assert ps[..k] == ps;
    }
  }

  /** The body of the loop of `calculer_speedup_amdahl`, for one listing entry. */
  method AddAmdahlDirectory(tempsPic: Dict<int, real>, threadDir: Entry) returns (r: Result<Dict<int, real>, ScriptError>)
    requires WellFormed(tempsPic) && PositiveValues(tempsPic)
    ensures r == AmdahlStep(tempsPic, ProbeOf(threadDir))
  {
    if !threadDir.isDir {
      return Success(tempsPic);
    }
    var fichiers := ListCsv(threadDir);
    if fichiers == [] {
      return Success(tempsPic);
    }
    var pics :- ReadPeaks(fichiers);
    assert PeakMean(threadDir) == Success(Mean(pics));
    var threads :- IntOf(threadDir.name);
    return Success(Put(tempsPic, threads, Mean(pics)));
  }

  /** How one iteration of the Amdahl loop advances, or ends, the collection. */
  lemma AmdahlLoopStep(gs: seq<Group>, i: nat, tempsPic: Dict<int, real>, next: Result<Dict<int, real>, ScriptError>)
    requires i < |gs| && AmdahlTimes(Probes(gs)[..i]) == Success(tempsPic)
    requires next == AmdahlStep(tempsPic, ProbeOf(gs[i].entry))
    ensures next.Success? ==> AmdahlTimes(Probes(gs)[..i + 1]) == next
    ensures next.Failure? ==> AmdahlTimes(Probes(gs)) == next
  {
    var ps := Probes(gs);
    AmdahlTimesStep(ps, i);
    if next.Failure? {
      AmdahlTimesFailureSticks(ps, i + 1);
    }
  }

  /** The loop of `calculer_speedup_amdahl` filling `temps_pic`. */
  method CollectAmdahlPeaks(gs: seq<Group>) returns (r: Result<Dict<int, real>, ScriptError>)
    ensures r == AmdahlTimes(Probes(gs))
  {
    var tempsPic: Dict<int, real> := Empty();
    for i := 0 to |gs|
      invariant AmdahlTimes(Probes(gs)[..i]) == Success(tempsPic)
    {
      var next := AddAmdahlDirectory(tempsPic, gs[i].entry);
      AmdahlLoopStep(gs, i, tempsPic, next);
      if next.Failure? {
        return Failure(next.error);
      }
      tempsPic := next.value;
    }
    assert Probes(gs)[..|gs|] == Probes(gs);
    return Success(tempsPic);
  }

  /** `calculer_speedup_amdahl(dossier)` */
  method CalculateAmdahlSpeedups(listing: seq<Entry>) returns (r: Result<Option<Dict<int, real>>, ScriptError>)
    ensures r == AmdahlOutcome(listing)
  {
    var tempsPic :- CollectAmdahlPeaks(SortedListing(listing));
    if 1 !in tempsPic.at {
      return Success(None);
    }
    var t1 := tempsPic.at[1];
    return Success(Some(AmdahlSpeedups(tempsPic, t1)));
  }

  lemma GustafsonTimesStep(ps: seq<Probe>, base: int, i: nat)
    requires i < |ps| && GustafsonTimes(ps[..i], base).Success?
    ensures GustafsonTimes(ps[..i + 1], base) == GustafsonStep(GustafsonTimes(ps[..i], base).value, ps[i], base)
  {
    var prefix := ps[..i + 1];
    assert prefix != [] && prefix[..|prefix| - 1] == ps[..i] && prefix[|prefix| - 1] == ps[i];
  }

  lemma {:induction false} GustafsonTimesFailureSticks(ps: seq<Probe>, base: int, k: nat)
    requires k <= |ps| && GustafsonTimes(ps[..k], base).Failure?
    ensures GustafsonTimes(ps, base) == GustafsonTimes(ps[..k], base)
    decreases |ps| - k
  {
    if k < |ps| {
      assert ps[..k + 1][..k] == ps[..k];
      GustafsonTimesFailureSticks(ps, base, k + 1);
    } else {
      assert ps[..k] == ps;
    }
  }

  /** The body of the loop of `calculer_speedup_gustafson`, for one listing entry. */
  method AddGustafsonDirectory(collected: Collected, threadDir: Entry, base: int) returns (r: Result<Collected, ScriptError>)
    requires Consistent(collected, base)
    ensures r == GustafsonStep(collected, ProbeOf(threadDir), base)
  {
    if !threadDir.isDir {
      return Success(collected);
    }
    var threads :- IntOf(threadDir.name);
    var fichiers := ListCsv(threadDir);
    if fichiers == [] {
      return Success(collected);
    }
    var tailleProbleme := base * threads;
    var tailles := Put(collected.sizes, threads, tailleProbleme);
    var pics :- ReadPeaks(fichiers);
    assert PeakMean(threadDir) == Success(Mean(pics));
    var tempsPic := Put(collected.temps, threads, Mean(pics));
    return Success(Collected(tempsPic, tailles));
  }

  /** How one iteration of the Gustafson loop advances, or ends, the collection. */
  lemma GustafsonLoopStep(gs: seq<Group>, base: int, i: nat, collected: Collected, next: Result<Collected, ScriptError>)
    requires i < |gs| && GustafsonTimes(Probes(gs)[..i], base) == Success(collected)
    requires next == GustafsonStep(collected, ProbeOf(gs[i].entry), base)
    ensures next.Success? ==> GustafsonTimes(Probes(gs)[..i + 1], base) == next
    ensures next.Failure? ==> GustafsonTimes(Probes(gs), base) == next
  {
    var ps := Probes(gs);
    GustafsonTimesStep(ps, base, i);
    if next.Failure? {
      GustafsonTimesFailureSticks(ps, base, i + 1);
    }
  }

  /** The loop of `calculer_speedup_gustafson` filling `temps_pic` and `tailles`. */
  method CollectGustafsonPeaks(gs: seq<Group>, base: int) returns (r: Result<Collected, ScriptError>)
    ensures r == GustafsonTimes(Probes(gs), base)
  {
    var collected := Collected(Empty(), Empty());
    for i := 0 to |gs|
      invariant GustafsonTimes(Probes(gs)[..i], base) == Success(collected)
    {
      var next := AddGustafsonDirectory(collected, gs[i].entry, base);
      GustafsonLoopStep(gs, base, i, collected, next);
      if next.Failure? {
        return Failure(next.error);
      }
      collected := next.value;
    }
    assert Probes(gs)[..|gs|] == Probes(gs);
    return Success(collected);
  }

  /** The loop over `temps_pic.items()` filling the Gustafson `speedups`. */
  method FillGustafsonSpeedups(temps: Dict<int, real>, t1: real) returns (speedups: Dict<int, real>)
    requires WellFormed(temps) && PositiveValues(temps)
    ensures speedups == GustafsonSpeedups(temps, t1)
  {
    speedups := Empty();
    for i := 0 to |temps.keys|
      invariant FilledUpTo(temps, t1, speedups, i)
    {
      var threads := temps.keys[i];
      FillStep(temps, t1, speedups, i);
      speedups := Put(speedups, threads, GustafsonSpeedup(t1, temps.at[threads], threads));
    }
    FillDone(temps, t1, speedups);
  }

  /** The state of the Gustafson loop after the first `i` keys. */
  predicate FilledUpTo(temps: Dict<int, real>, t1: real, speedups: Dict<int, real>, i: int)
    requires WellFormed(temps) && PositiveValues(temps)
  {
    && 0 <= i <= |temps.keys|
    && WellFormed(speedups) && speedups.keys == temps.keys[..i]
    && forall k :: k in speedups.at ==> k in temps.at && speedups.at[k] == GustafsonSpeedup(t1, temps.at[k], k)
  }

  lemma FillStep(temps: Dict<int, real>, t1: real, speedups: Dict<int, real>, i: nat)
    requires WellFormed(temps) && PositiveValues(temps) && i < |temps.keys|
    requires FilledUpTo(temps, t1, speedups, i)
    ensures var k := temps.keys[i];
      FilledUpTo(temps, t1, Put(speedups, k, GustafsonSpeedup(t1, temps.at[k], k)), i + 1)
  {
    var k := temps.keys[i];
    assert k !in speedups.at;
    assert temps.keys[..i + 1] == temps.keys[..i] + [k];
  }

  lemma FillDone(temps: Dict<int, real>, t1: real, speedups: Dict<int, real>)
    requires WellFormed(temps) && PositiveValues(temps)
    requires FilledUpTo(temps, t1, speedups, |temps.keys|)
    ensures speedups == GustafsonSpeedups(temps, t1)
  {
    assert temps.keys[..|temps.keys|] == temps.keys;
    var expected := GustafsonSpeedups(temps, t1);
    assert speedups.keys == expected.keys;
    forall k | k in speedups.at
      ensures k in expected.at
    {
      assert k in speedups.keys;
    }
    assert speedups.at == expected.at;
  }

  /** `calculer_speedup_gustafson(dossier, taille_base)` */
  method CalculateGustafsonSpeedups(listing: seq<Entry>, base: int) returns (r: Result<Option<Dict<int, real>>, ScriptError>)
    ensures r == GustafsonOutcome(listing, base)
  {
    var collected :- CollectGustafsonPeaks(SortedListing(listing), base);
    if 1 !in collected.temps.at {
      return Success(None);
    }
    var t1Base := collected.temps.at[1];
    var speedups := FillGustafsonSpeedups(collected.temps, t1Base);
    return Success(Some(speedups));
  }

  // ---------------------------------------------------------------------
  // What the dicts hold

  /** An entry whose time is recorded under thread count `k`. */
  predicate CountedAs(p: Probe, k: int) {
    p.hasCsv && p.count == Some(k)
  }

  /** `ps[i]` is the last entry recorded under `k`: a later one would overwrite its time. */
  predicate LastCountedAs(ps: seq<Probe>, i: int, k: int) {
    0 <= i < |ps| && CountedAs(ps[i], k) && forall j :: i < j < |ps| ==> !CountedAs(ps[j], k)
  }

  /** An entry the Amdahl loop gets through: if it holds CSV files, they read and its name parses. */
  predicate AmdahlReadable(p: Probe) {
    p.hasCsv ==> p.peak.Success? && p.count.Some?
  }

  /** The Amdahl loop raises exactly when some directory with CSV files does not read or does not parse. */
  lemma {:induction false} AmdahlTimesSucceeds(ps: seq<Probe>)
    ensures AmdahlTimes(ps).Success? <==> forall i :: 0 <= i < |ps| ==> AmdahlReadable(ps[i])
  {
    if ps != [] {
      var init := ps[..|ps| - 1];
      AmdahlTimesSucceeds(init);
      assert forall i :: 0 <= i < |init| ==> init[i] == ps[i];
    }
  }

  /** `temps_pic` has a key for exactly the thread counts of the directories with CSV files. */
  lemma {:induction false} AmdahlTimesKeys(ps: seq<Probe>)
    requires AmdahlTimes(ps).Success?
    ensures forall k :: k in AmdahlTimes(ps).value.at <==> exists i :: 0 <= i < |ps| && CountedAs(ps[i], k)
  {
    if ps != [] {
      var init := ps[..|ps| - 1];
      AmdahlTimesKeys(init);
      var after := AmdahlTimes(ps).value;
      forall k
        ensures k in after.at <==> exists i :: 0 <= i < |ps| && CountedAs(ps[i], k)
      {
        if exists i :: 0 <= i < |init| && CountedAs(init[i], k) {
          var i :| 0 <= i < |init| && CountedAs(init[i], k);
          assert ps[i] == init[i];
        }
        if exists i :: 0 <= i < |ps| && CountedAs(ps[i], k) {
          var i :| 0 <= i < |ps| && CountedAs(ps[i], k);
          if i < |init| {
            assert init[i] == ps[i];
          }
        }
      }
    }
  }

  /**
   * Each time in `temps_pic` is the mean peak of the last directory
   * recorded under that thread count.
   */
  lemma {:induction false} AmdahlTimesValues(ps: seq<Probe>)
    requires AmdahlTimes(ps).Success?
    ensures forall k :: k in AmdahlTimes(ps).value.at ==>
      exists i :: LastCountedAs(ps, i, k) && ps[i].peak == Success(AmdahlTimes(ps).value.at[k])
  {
    if ps != [] {
      var init := ps[..|ps| - 1];
      var last := |ps| - 1;
      AmdahlTimesValues(init);
      var before := AmdahlTimes(init).value;
      var after := AmdahlTimes(ps).value;
      forall k | k in after.at
        ensures exists i :: LastCountedAs(ps, i, k) && ps[i].peak == Success(after.at[k])
      {
        if CountedAs(ps[last], k) {
          assert LastCountedAs(ps, last, k);
        } else {
          assert k in before.at && after.at[k] == before.at[k];
          var i :| LastCountedAs(init, i, k) && init[i].peak == Success(before.at[k]);
          assert init[i] == ps[i];
          forall j | i < j < |ps|
            ensures !CountedAs(ps[j], k)
          {
            if j < last {
              assert init[j] == ps[j];
            }
          }
          assert LastCountedAs(ps, i, k);
        }
      }
    }
  }

  /** Sorting the listing neither adds nor loses an entry recorded under `k`. */
  lemma SortedListingCounted(listing: seq<Entry>, k: int)
    ensures var ps := Probes(SortedListing(listing));
      (exists i :: 0 <= i < |ps| && CountedAs(ps[i], k)) <==> (exists j :: 0 <= j < |listing| && CountedAs(ProbeOf(listing[j]), k))
  {
    var gs := SortedListing(listing);
    var keyed := KeyedByName(listing);
    PermutedCounted(gs, keyed, k);
    var ps := Probes(gs);
    assert forall i :: 0 <= i < |ps| ==> ps[i] == ProbeOf(gs[i].entry);
    assert forall j :: 0 <= j < |listing| ==> keyed[j].entry == listing[j];
  }

  lemma PermutedCounted(gs: seq<Group>, hs: seq<Group>, k: int)
    requires multiset(gs) == multiset(hs)
    ensures (exists i :: 0 <= i < |gs| && CountedAs(ProbeOf(gs[i].entry), k)) <==>
            (exists j :: 0 <= j < |hs| && CountedAs(ProbeOf(hs[j].entry), k))
  {
    if exists i :: 0 <= i < |gs| && CountedAs(ProbeOf(gs[i].entry), k) {
      var i :| 0 <= i < |gs| && CountedAs(ProbeOf(gs[i].entry), k);
      assert gs[i] in multiset(hs);
      var j :| 0 <= j < |hs| && hs[j] == gs[i];
    }
    if exists j :: 0 <= j < |hs| && CountedAs(ProbeOf(hs[j].entry), k) {
      var j :| 0 <= j < |hs| && CountedAs(ProbeOf(hs[j].entry), k);
      assert hs[j] in multiset(gs);
      var i :| 0 <= i < |gs| && gs[i] == hs[j];
    }
  }

  /**
   * The speedups at the level of the collected times: the keys of
   * `temps_pic` in its order, each T1 over the mean peak of the last
   * directory with that count, and exactly 1 at 1.
   */
  lemma AmdahlSpeedupsSpec(ps: seq<Probe>)
    requires AmdahlTimes(ps).Success? && 1 in AmdahlTimes(ps).value.at
    ensures var temps := AmdahlTimes(ps).value;
      var r := AmdahlSpeedups(temps, temps.at[1]);
      && 1 in r.at && r.at[1] == 1.0
      && forall k :: k in r.at ==> exists i :: LastCountedAs(ps, i, k) && ps[i].peak.Success? && r.at[k] == AmdahlSpeedup(temps.at[1], ps[i].peak.value)
  {
    var temps := AmdahlTimes(ps).value;
    AmdahlTimesValues(ps);
    AmdahlAtReference(temps.at[1]);
    var r := AmdahlSpeedups(temps, temps.at[1]);
    assert 1 in temps.keys;
    forall k | k in r.at
      ensures exists i :: LastCountedAs(ps, i, k) && ps[i].peak.Success? && r.at[k] == AmdahlSpeedup(temps.at[1], ps[i].peak.value)
    {
      assert k in r.keys;
      var i :| LastCountedAs(ps, i, k) && ps[i].peak == Success(temps.at[k]);
    }
  }

  /**
   * `calculer_speedup_amdahl` returns `None` exactly when no directory
   * with CSV files is named 1. Otherwise the speedups have one key per
   * thread count found in the listing, in the order of `temps_pic`; each
   * is T1 over the mean peak of the last directory with that count; and
   * the speedup at 1 is exactly 1.
   */
  lemma AmdahlOutcomeSpec(listing: seq<Entry>)
    requires AmdahlOutcome(listing).Success?
    ensures var ps := Probes(SortedListing(listing));
      var temps := AmdahlTimes(ps).value;
      var r := AmdahlOutcome(listing).value;
      && (r.None? <==> forall j :: 0 <= j < |listing| ==> !CountedAs(ProbeOf(listing[j]), 1))
      && (r.Some? ==> r.value.keys == temps.keys)
      && (r.Some? ==> forall k :: k in r.value.at <==> exists j :: 0 <= j < |listing| && CountedAs(ProbeOf(listing[j]), k))
      && (r.Some? ==> 1 in r.value.at && r.value.at[1] == 1.0)
      && (r.Some? ==> forall k :: k in r.value.at ==> exists i :: LastCountedAs(ps, i, k) && ps[i].peak.Success? && r.value.at[k] == AmdahlSpeedup(temps.at[1], ps[i].peak.value))
  {
    var ps := Probes(SortedListing(listing));
    var temps := AmdahlTimes(ps).value;
    AmdahlTimesKeys(ps);
    forall k
      ensures k in temps.at <==> exists j :: 0 <= j < |listing| && CountedAs(ProbeOf(listing[j]), k)
    {
      SortedListingCounted(listing, k);
    }
    if 1 in temps.at {
      AmdahlSpeedupsSpec(ps);
      var r := AmdahlSpeedups(temps, temps.at[1]);
      assert forall k :: k in r.at <==> k in temps.at by {
        assert forall k :: k in r.at <==> k in r.keys;
      }
    }
  }

  /** An entry the Gustafson loop gets through: if it is a directory, its name parses and any CSV files read. */
  predicate GustafsonReadable(p: Probe) {
    p.isDir ==> p.count.Some? && (p.hasCsv ==> p.peak.Success?)
  }

  /**
   * The Gustafson loop raises exactly when some directory's name does not
   * parse, even one without CSV files, or some directory with CSV files
   * does not read.
   */
  lemma {:induction false} GustafsonTimesSucceeds(ps: seq<Probe>, base: int)
    ensures GustafsonTimes(ps, base).Success? <==> forall i :: 0 <= i < |ps| ==> GustafsonReadable(ps[i])
  {
    if ps != [] {
      var init := ps[..|ps| - 1];
      GustafsonTimesSucceeds(init, base);
      assert forall i :: 0 <= i < |init| ==> init[i] == ps[i];
    }
  }

  /** Where the Gustafson loop gets through, it collects the times the Amdahl loop collects. */
  lemma {:induction false} GustafsonAgreesWithAmdahl(ps: seq<Probe>, base: int)
    requires GustafsonTimes(ps, base).Success?
    ensures AmdahlTimes(ps) == Success(GustafsonTimes(ps, base).value.temps)
  {
    if ps != [] {
      GustafsonAgreesWithAmdahl(ps[..|ps| - 1], base);
    }
  }

  /**
   * A directory without CSV files whose name is no integer is skipped by
   * the Amdahl loop but makes the Gustafson loop raise.
   */
  lemma GustafsonStricter(ps: seq<Probe>, base: int, i: nat)
    requires i < |ps| && ps[i].isDir && !ps[i].hasCsv && ps[i].count.None?
    ensures AmdahlReadable(ps[i])
    ensures GustafsonTimes(ps, base).Failure?
  {
    GustafsonTimesSucceeds(ps, base);
    assert !GustafsonReadable(ps[i]);
  }

  /**
   * The Gustafson speedups at the level of the collected times: the keys
   * of the Amdahl speedups in the same order, each the thread count times
   * the Amdahl speedup, exactly 1 at 1, and `tailles` recording
   * `taille_base * threads` for exactly those counts.
   */
  lemma GustafsonSpeedupsSpec(c: Collected, base: int)
    requires Consistent(c, base) && 1 in c.temps.at
    ensures var g := GustafsonSpeedups(c.temps, c.temps.at[1]);
      var a := AmdahlSpeedups(c.temps, c.temps.at[1]);
      && g.keys == a.keys && c.sizes.keys == g.keys
      && 1 in g.at && g.at[1] == 1.0
      && (forall k :: k in g.at ==> k in a.at && k in c.sizes.at)
      && (forall k :: k in g.at ==> g.at[k] == k as real * a.at[k] && c.sizes.at[k] == base * k)
  {
    var t1 := c.temps.at[1];
    var g := GustafsonSpeedups(c.temps, t1);
    var a := AmdahlSpeedups(c.temps, t1);
    GustafsonFlatTime(t1, 1);
    assert 1 in g.keys;
    forall k | k in g.at
      ensures k in a.at && k in c.sizes.at && g.at[k] == k as real * a.at[k] && c.sizes.at[k] == base * k
    {
      assert k in g.keys;
      GustafsonIsScaledAmdahl(t1, c.temps.at[k], k);
    }
  }

  /**
   * `calculer_speedup_gustafson` returns `None` exactly when
   * `calculer_speedup_amdahl` does on the same directory, and otherwise
   * the speedups `GustafsonSpeedupsSpec` describes.
   */
  lemma GustafsonOutcomeSpec(listing: seq<Entry>, base: int)
    requires GustafsonOutcome(listing, base).Success?
    ensures var c := GustafsonTimes(Probes(SortedListing(listing)), base).value;
      && AmdahlTimes(Probes(SortedListing(listing))) == Success(c.temps)
      && AmdahlOutcome(listing).Success?
      && (GustafsonOutcome(listing, base).value.None? <==> AmdahlOutcome(listing).value.None?)
      && (GustafsonOutcome(listing, base).value.Some? ==>
            GustafsonOutcome(listing, base).value.value == GustafsonSpeedups(c.temps, c.temps.at[1]) &&
            AmdahlOutcome(listing).value.value == AmdahlSpeedups(c.temps, c.temps.at[1]))
  {
    GustafsonAgreesWithAmdahl(Probes(SortedListing(listing)), base);
  }

  /** A Gustafson run named `gustafson_<n>`, or `gustafson_<n>_...`, has base size `n`. */
  lemma BaseSizeOfName(n: int, rest: string)
    requires rest == [] || rest[0] == '_'
    ensures StartsWith(GUSTAFSON_PREFIX + IntToString(n) + rest, GUSTAFSON_PREFIX)
    ensures IntOf(BaseSizeField(GUSTAFSON_PREFIX + IntToString(n) + rest)) == Success(n)
  {
    var digits := IntToString(n);
    var name := GUSTAFSON_PREFIX + digits + rest;
    assert name[..10] == GUSTAFSON_PREFIX;
    assert name[10..] == digits + rest;
    IntToStringLacksUnderscore(n);
    LacksNoMatch(digits + rest, "_", |digits|) by {
      assert (digits + rest)[..|digits|] == digits;
    }
    SplitSkip(digits, rest, "_");
    if rest == [] {
      assert Split(rest, "_") == [""];
    } else {
      assert rest == "_" + rest[1..];
      SplitAtSeparator(rest[1..], "_");
    }
    assert digits + "" == digits;
    IntToStringStripped(n);
    ParseIntToString(n);
  }

  /**
   * The script picks the greatest `amdal_` and `gustafson_` names and,
   * when the chosen Gustafson run is `gustafson_<n>...`, base size `n`.
   */
  lemma SelectRunsSpec(names: seq<string>)
    ensures SelectRuns(names).Success? && SelectRuns(names).value.None? <==>
      (forall i :: 0 <= i < |names| ==> !StartsWith(names[i], AMDAHL_PREFIX)) ||
      (forall i :: 0 <= i < |names| ==> !StartsWith(names[i], GUSTAFSON_PREFIX))
    ensures SelectRuns(names).Success? && SelectRuns(names).value.Some? ==>
      var runs := SelectRuns(names).value.value;
      && runs.amdahlDir in names && StartsWith(runs.amdahlDir, AMDAHL_PREFIX)
      && runs.gustafsonDir in names && StartsWith(runs.gustafsonDir, GUSTAFSON_PREFIX)
      && (forall i :: 0 <= i < |names| && StartsWith(names[i], AMDAHL_PREFIX) ==>
            names[i] == runs.amdahlDir || LexLess(names[i], runs.amdahlDir))
      && (forall i :: 0 <= i < |names| && StartsWith(names[i], GUSTAFSON_PREFIX) ==>
            names[i] == runs.gustafsonDir || LexLess(names[i], runs.gustafsonDir))
      && PyInt(BaseSizeField(runs.gustafsonDir)) == Some(runs.baseSize)
  {
  }
}
