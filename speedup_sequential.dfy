/**
 * speedup_sequentiel.py: speedups against a sequential reference time.
 * The sequential result files `resultats_temps_v<version>.csv` give one
 * pair of mean times per version, read through a cascade of column
 * layouts; when none of them reads, the first lines of
 * `resultats_temps_v1.csv` are scanned by hand, and failing that fixed
 * default times are used. The reference time divides the mean time of
 * every thread directory of the two benchmark directories, and the
 * efficiencies divide each speedup by its thread count.
 */
module SpeedupSequential {
  import opened Wrappers
  import opened Text
  import opened Scaling
  import opened CsvData
  import opened ThreadGroups
  import opened PyDict
  import Speedup

  const SEQ_PREFIX: string := "resultats_temps_v"
  const SEQ_SUFFIX: string := ".csv"
  const KNOWN_HEADER: string := "TimeStep,T_avancement,T_affichage,T_total"
  const ADVANCE_WORD: string := "avancement"
  const TOTAL_WORD: string := "total"
  /** `T_avancement` */
  const ADVANCE_COLUMN: string := "T_" + ADVANCE_WORD
  /** `T_total` */
  const TOTAL_COLUMN: string := "T_" + TOTAL_WORD
  /** `T avancement` */
  const SPACED_ADVANCE_COLUMN: string := "T " + ADVANCE_WORD
  /** `T total` */
  const SPACED_TOTAL_COLUMN: string := "T " + TOTAL_WORD
  const REFERENCE_VERSION: string := "1"
  /** The manual scan looks at lines `1 .. min(10, len(lines)) - 1`. */
  const SAMPLE_END: nat := 10
  const DEFAULT_TIMES: SeqTimes := SeqTimes(0.01, 0.02)

  // ---------------------------------------------------------------------
  // The sequential result files

  /** The column the caller times: `temps_type` is `T_avancement` or `T_total`. */
  datatype TimeKind = Advance | Total

  function ColumnOf(kind: TimeKind): string {
    match kind
    case Advance => ADVANCE_COLUMN
    case Total => TOTAL_COLUMN
  }

  /** `{'T_avancement': ..., 'T_total': ...}` for one version. */
  datatype SeqTimes = SeqTimes(advance: real, total: real)

  function TimeOf(t: SeqTimes, kind: TimeKind): real {
    match kind
    case Advance => t.advance
    case Total => t.total
  }

  /**
   * A file of the sequential results directory as the script sees it: its
   * name, what `pd.read_csv` gives (`None` where it raises), its text, and
   * what `pd.read_csv(..., skipinitialspace=True)` gives.
   */
  datatype SeqFile = SeqFile(name: string, table: Option<Table>, content: string, spaced: Option<Table>)

  /** The names `glob` matches against `resultats_temps_v*.csv`. */
  predicate MatchesSeqGlob(name: string) {
    |name| >= |SEQ_PREFIX| + |SEQ_SUFFIX| && StartsWith(name, SEQ_PREFIX) && EndsWith(name, SEQ_SUFFIX)
  }

  type GlobbedFile = f: SeqFile | MatchesSeqGlob(f.name) witness SeqFile(SEQ_PREFIX + SEQ_SUFFIX, None, "", None)

  /** `glob.glob(os.path.join(SEQ_DIR, "resultats_temps_v*.csv"))`, in listing order. */
  function SeqFiles(dir: seq<SeqFile>): (files: seq<GlobbedFile>)
    ensures forall f :: f in files <==> f in dir && MatchesSeqGlob(f.name)
  {
    if dir == [] then []
    else
      var rest := SeqFiles(dir[..|dir| - 1]);
      var f := dir[|dir| - 1];
      assert forall g :: g in dir <==> g in dir[..|dir| - 1] || g == f;
      if MatchesSeqGlob(f.name) then rest + [f] else rest
  }

  lemma PrefixLacksV()
    ensures forall j :: 1 <= j < 16 ==> SEQ_PREFIX[j] != 'v'
  {
  }

  /** No `_v` starts before the one that ends the glob prefix. */
  lemma VersionSplit(name: string)
    requires MatchesSeqGlob(name)
    ensures Split(name, "_v") == ["resultats_temps"] + Split(name[|SEQ_PREFIX|..], "_v")
  {
    assert name[..|SEQ_PREFIX|] == SEQ_PREFIX;
    PrefixLacksV();
    forall i | 0 <= i < 15
      ensures !OccursAt(name, "_v", i)
    {
      assert name[i + 1] == SEQ_PREFIX[i + 1] != 'v';
      assert name[i..i + 2][1] == name[i + 1];
    }
    assert name == "resultats_temps" + name[15..];
    SplitSkip("resultats_temps", name[15..], "_v");
    var after := name[|SEQ_PREFIX|..];
    assert name[15..17] == SEQ_PREFIX[15..17] == "_v";
    assert name[15..] == name[15..17] + after;
    SplitAtSeparator(after, "_v");
    assert ([""] + Split(after, "_v"))[1..] == Split(after, "_v");
    assert "resultats_temps" + "" == "resultats_temps";
  }

  /**
   * `os.path.basename(f).split('_v')[1].split('.')[0]`: the glob pattern
   * guarantees the `_v` piece, and the version is a prefix of the text
   * after `resultats_temps_v`.
   */
  function Version(name: string): (v: string)
    requires MatchesSeqGlob(name)
    ensures |v| <= |name| - |SEQ_PREFIX| && v == name[|SEQ_PREFIX|..][..|v|]
  {
    VersionSplit(name);
    var after := name[|SEQ_PREFIX|..];
    var piece := Split(name, "_v")[1];
    HeadIsPrefix(after, "_v");
    HeadIsPrefix(piece, ".");
    Split(piece, ".")[0]
  }

  /** The version written between the prefix and `.csv` is read back, when it has no `_` and no `.`. */
  lemma VersionOfName(d: string)
    requires Lacks(d, '_') && Lacks(d, '.')
    ensures MatchesSeqGlob(SEQ_PREFIX + d + SEQ_SUFFIX)
    ensures Version(SEQ_PREFIX + d + SEQ_SUFFIX) == d
  {
    var name := SEQ_PREFIX + d + SEQ_SUFFIX;
    assert name[..|SEQ_PREFIX|] == SEQ_PREFIX;
    assert name[|name| - |SEQ_SUFFIX|..] == SEQ_SUFFIX;
    var after := d + SEQ_SUFFIX;
    assert name[|SEQ_PREFIX|..] == after;
    assert Lacks(after[..|after|], '_') by {
      assert after[..|after|] == after;
      forall i | 0 <= i < |after|
        ensures after[i] != '_'
      {
        if i >= |d| {
          assert after[i] == SEQ_SUFFIX[i - |d|];
        }
      }
    }
    LacksNoMatch(after, "_v", |after|);
    SplitNoMatch(after, "_v");
    VersionSplit(name);
    assert Split(name, "_v")[1] == after;
    assert Lacks(after[..|d|], '.') by { assert after[..|d|] == d; }
    LacksNoMatch(after, ".", |d|);
    SplitSkip(d, SEQ_SUFFIX, ".");
    assert SEQ_SUFFIX == "." + "csv";
    SplitAtSeparator("csv", ".");
    assert d + "" == d;
  }

  /** `df[name].mean()` for a column the table has: the mean of the first column of that name. */
  function TableMean(t: Table, name: string): (m: real)
    requires HasColumn(t, name)
    ensures m > 0.0
    ensures exists i :: 0 <= i < |t.columns| && t.columns[i].name == name && m == Mean(t.columns[i].values)
  {
    var values := Lookup(t, name).value;
    MeanPositive(values);
    Mean(values)
  }

  function PairOf(t: Table, advance: string, total: string): SeqTimes
    requires HasColumn(t, advance) && HasColumn(t, total)
  {
    SeqTimes(TableMean(t, advance), TableMean(t, total))
  }

  /** `next((col for col in names if word in col.lower()), None)`, as an index. */
  function FirstContaining(names: seq<string>, word: string): (r: Option<nat>)
    ensures r.Some? ==> r.value < |names| && Contains(Lower(names[r.value]), word)
    ensures forall i :: 0 <= i < |names| && (r.None? || i < r.value) ==> !Contains(Lower(names[i]), word)
  {
    if names == [] then None
    else if Contains(Lower(names[0]), word) then Some(0)
    else
      var rest := FirstContaining(names[1..], word);
      assert forall i :: 1 <= i < |names| ==> names[1..][i - 1] == names[i];
      match rest
      case None => None
      case Some(k) => Some(k + 1)
  }

  /**
   * The `k`-th column, read through its name as `df[col]` does: a first
   * column containing the keyword is also the first of its name.
   */
  lemma FirstColumnByName(t: Table, word: string, k: nat)
    requires FirstContaining(ColumnNames(t), word) == Some(k)
    ensures HasColumn(t, t.columns[k].name)
    ensures TableMean(t, t.columns[k].name) == Mean(t.columns[k].values)
  {
    var names := ColumnNames(t);
    assert forall i :: 0 <= i < k ==> names[i] != names[k];
    LookupFirst(t, names[k], k);
  }

  /** `df[name]` gives the first column of that name. */
  lemma {:induction false} LookupFirst(t: Table, name: string, k: nat)
    requires k < |t.columns| && t.columns[k].name == name
    requires forall i :: 0 <= i < k ==> t.columns[i].name != name
    ensures Lookup(t, name) == Some(t.columns[k].values)
    decreases k
  {
    if k > 0 {
      var rest := Table(t.columns[1..]);
      assert forall i :: 0 <= i < k - 1 ==> rest.columns[i] == t.columns[i + 1];
      LookupFirst(rest, name, k - 1);
    }
  }

  /**
   * What one file contributes to `temps_sequentiels` through the column
   * cascade: the exact names, the spaced names, a re-read of a file
   * holding the known header, or the first columns naming the two times in
   * a comma-separated file. `None` where the script records nothing for it
   * or catches an exception.
   */
  function FileReading(f: SeqFile): Option<SeqTimes> {
    match f.table
    case None => None
    case Some(t) =>
      if HasColumn(t, ADVANCE_COLUMN) && HasColumn(t, TOTAL_COLUMN) then
        Some(PairOf(t, ADVANCE_COLUMN, TOTAL_COLUMN))
      else if HasColumn(t, SPACED_ADVANCE_COLUMN) && HasColumn(t, SPACED_TOTAL_COLUMN) then
        Some(PairOf(t, SPACED_ADVANCE_COLUMN, SPACED_TOTAL_COLUMN))
      else if Contains(f.content, KNOWN_HEADER) then
        match f.spaced
        case None => None
        case Some(s) =>
          if HasColumn(s, ADVANCE_COLUMN) && HasColumn(s, TOTAL_COLUMN) then Some(PairOf(s, ADVANCE_COLUMN, TOTAL_COLUMN))
          else None
      else if Contains(f.content, ",") then
        match f.spaced
        case None => None
        case Some(s) => KeywordPair(s)
      else None
  }

  /** `av_col`, `tot_col` and their means, when both keywords name a column. */
  function KeywordPair(s: Table): Option<SeqTimes> {
    var names := ColumnNames(s);
    var av := FirstContaining(names, ADVANCE_WORD);
    var tot := FirstContaining(names, TOTAL_WORD);
    if av.Some? && tot.Some? then
      FirstColumnByName(s, ADVANCE_WORD, av.value);
      FirstColumnByName(s, TOTAL_WORD, tot.value);
      Some(PairOf(s, names[av.value], names[tot.value]))
    else None
  }

  /** Column `i` of `t` has a lower-cased name containing `word`. */
  predicate NamesWord(t: Table, i: int, word: string) {
    0 <= i < |t.columns| && Contains(Lower(t.columns[i].name), word)
  }

  predicate NoUpper(w: string) {
    forall i :: 0 <= i < |w| ==> !('A' <= w[i] <= 'Z')
  }

  /** A lower-case word ending a name is found in the lower-cased name. */
  lemma LoweredSuffix(p: string, w: string)
    requires NoUpper(w)
    ensures Contains(Lower(p + w), w)
  {
    var s := p + w;
    forall i | 0 <= i < |w|
      ensures Lower(s)[|p|..|p| + |w|][i] == w[i]
    {
      assert s[|p| + i] == w[i];
    }
    assert OccursAt(Lower(s), w, |p|);
  }

  lemma KeywordsInColumnNames()
    ensures Contains(Lower(ADVANCE_COLUMN), ADVANCE_WORD) && Contains(Lower(SPACED_ADVANCE_COLUMN), ADVANCE_WORD)
    ensures Contains(Lower(TOTAL_COLUMN), TOTAL_WORD) && Contains(Lower(SPACED_TOTAL_COLUMN), TOTAL_WORD)
  {
    assert NoUpper(ADVANCE_WORD) && NoUpper(TOTAL_WORD);
    LoweredSuffix("T_", ADVANCE_WORD);
    LoweredSuffix("T ", ADVANCE_WORD);
    LoweredSuffix("T_", TOTAL_WORD);
    LoweredSuffix("T ", TOTAL_WORD);
  }

  /** The pair of means of the named columns comes from columns naming the two keywords. */
  lemma PairNamesWords(t: Table, advance: string, total: string)
    requires HasColumn(t, advance) && HasColumn(t, total)
    requires Contains(Lower(advance), ADVANCE_WORD) && Contains(Lower(total), TOTAL_WORD)
    ensures exists i, j ::
      && NamesWord(t, i, ADVANCE_WORD)
      && NamesWord(t, j, TOTAL_WORD)
      && PairOf(t, advance, total) == SeqTimes(Mean(t.columns[i].values), Mean(t.columns[j].values))
  {
    var i :| 0 <= i < |t.columns| && t.columns[i].name == advance && TableMean(t, advance) == Mean(t.columns[i].values);
    var j :| 0 <= j < |t.columns| && t.columns[j].name == total && TableMean(t, total) == Mean(t.columns[j].values);
    assert NamesWord(t, i, ADVANCE_WORD) && NamesWord(t, j, TOTAL_WORD);
  }

  /**
   * Whatever the cascade records for a file, its two times are the means of
   * a column naming `avancement` and a column naming `total`, both of the
   * plain or both of the re-read table; so a file with no such columns
   * records nothing.
   */
  lemma FileReadingColumns(f: SeqFile)
    requires FileReading(f).Some?
    ensures exists t, i, j ::
      && (f.table == Some(t) || f.spaced == Some(t))
      && NamesWord(t, i, ADVANCE_WORD)
      && NamesWord(t, j, TOTAL_WORD)
      && FileReading(f).value == SeqTimes(Mean(t.columns[i].values), Mean(t.columns[j].values))
  {
    var t := f.table.value;
    var r := FileReading(f).value;
    var u: Table, i: int, j: int;
    if HasColumn(t, ADVANCE_COLUMN) && HasColumn(t, TOTAL_COLUMN) {
      assert r == PairOf(t, ADVANCE_COLUMN, TOTAL_COLUMN);
      u := t;
      i, j := ExactPair(t, ADVANCE_COLUMN, TOTAL_COLUMN);
    } else if HasColumn(t, SPACED_ADVANCE_COLUMN) && HasColumn(t, SPACED_TOTAL_COLUMN) {
      assert r == PairOf(t, SPACED_ADVANCE_COLUMN, SPACED_TOTAL_COLUMN);
      u := t;
      i, j := ExactPair(t, SPACED_ADVANCE_COLUMN, SPACED_TOTAL_COLUMN);
    } else if Contains(f.content, KNOWN_HEADER) {
      u := f.spaced.value;
      assert r == PairOf(u, ADVANCE_COLUMN, TOTAL_COLUMN);
      i, j := ExactPair(u, ADVANCE_COLUMN, TOTAL_COLUMN);
    } else {
      u := f.spaced.value;
      assert r == KeywordPair(u).value;
      i, j := KeywordColumns(u);
    }
    assert (f.table == Some(u) || f.spaced == Some(u)) && NamesWord(u, i, ADVANCE_WORD) && NamesWord(u, j, TOTAL_WORD);
  }

  /** The columns behind a pair read through two of the fixed names. */
  lemma ExactPair(t: Table, advance: string, total: string) returns (i: int, j: int)
    requires HasColumn(t, advance) && HasColumn(t, total)
    requires advance in {ADVANCE_COLUMN, SPACED_ADVANCE_COLUMN} && total in {TOTAL_COLUMN, SPACED_TOTAL_COLUMN}
    ensures NamesWord(t, i, ADVANCE_WORD) && NamesWord(t, j, TOTAL_WORD)
    ensures PairOf(t, advance, total) == SeqTimes(Mean(t.columns[i].values), Mean(t.columns[j].values))
  {
    KeywordsInColumnNames();
    PairNamesWords(t, advance, total);
    i, j :| NamesWord(t, i, ADVANCE_WORD) && NamesWord(t, j, TOTAL_WORD) &&
      PairOf(t, advance, total) == SeqTimes(Mean(t.columns[i].values), Mean(t.columns[j].values));
  }

  /** The columns behind a pair found by keyword. */
  lemma KeywordColumns(u: Table) returns (i: int, j: int)
    requires KeywordPair(u).Some?
    ensures NamesWord(u, i, ADVANCE_WORD) && NamesWord(u, j, TOTAL_WORD)
    ensures KeywordPair(u).value == SeqTimes(Mean(u.columns[i].values), Mean(u.columns[j].values))
  {
    var names := ColumnNames(u);
    i := FirstContaining(names, ADVANCE_WORD).value;
    j := FirstContaining(names, TOTAL_WORD).value;
    FirstColumnByName(u, ADVANCE_WORD, i);
    FirstColumnByName(u, TOTAL_WORD, j);
  }

  // ---------------------------------------------------------------------
  // The versions found

  /** What the loop over the files sees of one file: its version and what it records. */
  datatype Reading = Reading(version: string, times: Option<SeqTimes>)

  function Readings(files: seq<GlobbedFile>): (rs: seq<Reading>)
    ensures |rs| == |files|
    ensures forall i :: 0 <= i < |files| ==> rs[i] == Reading(Version(files[i].name), FileReading(files[i]))
  {
    seq(|files|, i requires 0 <= i < |files| => Reading(Version(files[i].name), FileReading(files[i])))
  }

  /** `temps_sequentiels` after the loop: `d[version] = times` for every file that records times. */
  function VersionTable(rs: seq<Reading>): (d: Dict<string, SeqTimes>)
    ensures WellFormed(d)
  {
    if rs == [] then Empty()
    else
      var prev := VersionTable(rs[..|rs| - 1]);
      var r := rs[|rs| - 1];
      if r.times.Some? then Put(prev, r.version, r.times.value) else prev
  }

  predicate Records(r: Reading, k: string) {
    r.version == k && r.times.Some?
  }

  /** `rs[i]` is the last reading that records version `k`. */
  predicate LastRecords(rs: seq<Reading>, i: int, k: string) {
    0 <= i < |rs| && Records(rs[i], k) && forall j :: i < j < |rs| ==> !Records(rs[j], k)
  }

  lemma VersionTableStep(rs: seq<Reading>, i: nat)
    requires i < |rs|
    ensures VersionTable(rs[..i + 1]) ==
      if rs[i].times.Some? then Put(VersionTable(rs[..i]), rs[i].version, rs[i].times.value) else VersionTable(rs[..i])
  {
    var prefix := rs[..i + 1];
    assert prefix != [] && prefix[..|prefix| - 1] == rs[..i] && prefix[|prefix| - 1] == rs[i];
  }

  /** A version is in the table exactly when some file records it. */
  lemma {:induction false} VersionTableKeys(rs: seq<Reading>)
    ensures forall k :: k in VersionTable(rs).at <==> exists i :: 0 <= i < |rs| && Records(rs[i], k)
  {
    if rs != [] {
      var n := |rs| - 1;
      VersionTableKeys(rs[..n]);
      assert forall i :: 0 <= i < n ==> rs[..n][i] == rs[i];
      VersionTableStep(rs, n);
      assert rs[..n + 1] == rs;
    }
  }

  /** Each version holds the times of the last file recording it: a later file overwrites an earlier one. */
  lemma {:induction false} VersionTableValues(rs: seq<Reading>)
    ensures forall k :: k in VersionTable(rs).at ==>
      exists i :: LastRecords(rs, i, k) && rs[i].times == Some(VersionTable(rs).at[k])
  {
    if rs != [] {
      var n := |rs| - 1;
      VersionTableValues(rs[..n]);
      VersionTableStep(rs, n);
      assert rs[..n + 1] == rs;
      var d := VersionTable(rs);
      forall k | k in d.at
        ensures exists i :: LastRecords(rs, i, k) && rs[i].times == Some(d.at[k])
      {
        if Records(rs[n], k) {
          assert LastRecords(rs, n, k);
        } else {
          var i :| LastRecords(rs[..n], i, k) && rs[..n][i].times == Some(VersionTable(rs[..n]).at[k]);
          assert rs[..n][i] == rs[i];
          assert forall j :: i < j < n ==> rs[..n][j] == rs[j];
          assert LastRecords(rs, i, k);
        }
      }
    }
  }

  // ---------------------------------------------------------------------
  // The manual scan of resultats_temps_v1.csv

  /** `len(range(1, min(10, len(lines))))` */
  function SampleCount(lines: seq<string>): nat
    requires |lines| > 1
  {
    (if |lines| < SAMPLE_END then |lines| else SAMPLE_END) - 1
  }

  /** `line.strip().split(',')` */
  function RowOf(line: string): seq<string> {
    Split(Strip(line), ",")
  }

  /** `[lines[i].strip().split(',') for i in range(1, min(10, len(lines)))]` */
  function SampleRows(lines: seq<string>): (rows: seq<seq<string>>)
    requires |lines| > 1
    ensures |rows| == SampleCount(lines) && |rows| < SAMPLE_END
    ensures forall i :: 0 <= i < |rows| ==> rows[i] == RowOf(lines[i + 1])
  {
    seq(SampleCount(lines), i requires 0 <= i < SampleCount(lines) => RowOf(lines[i + 1]))
  }

  /** The last index whose lower-cased name contains `word`, or -1. */
  function LastContaining(names: seq<string>, word: string): (r: int)
    ensures -1 <= r < |names|
    ensures r >= 0 ==> Contains(Lower(names[r]), word)
    ensures forall i :: r < i < |names| ==> !Contains(Lower(names[i]), word)
  {
    if names == [] then -1
    else if Contains(Lower(names[|names| - 1]), word) then |names| - 1
    else
      var r := LastContaining(names[..|names| - 1], word);
      assert forall i :: 0 <= i < |names| - 1 ==> names[..|names| - 1][i] == names[i];
      r
  }

  function Max(a: nat, b: nat): nat {
    if a < b then b else a
  }

  /**
   * What the extraction loop sees of one row: whether it is longer than
   * both indices, and what `float` gives for its two fields (`None` where
   * it raises ValueError).
   */
  datatype Sample = Sample(long: bool, advance: Option<real>, total: Option<real>)

  function SampleOf(row: seq<string>, av: nat, tot: nat): Sample {
    if |row| > Max(av, tot) then Sample(true, PyFloat(row[av]), PyFloat(row[tot])) else Sample(false, None, None)
  }

  function Samples(rows: seq<seq<string>>, av: nat, tot: nat): (ss: seq<Sample>)
    ensures |ss| == |rows|
    ensures forall i :: 0 <= i < |rows| ==> ss[i] == SampleOf(rows[i], av, tot)
  {
    seq(|rows|, i requires 0 <= i < |rows| => SampleOf(rows[i], av, tot))
  }

  /** Both values of a long row whose two fields parse. */
  function BothValues(s: Sample): Option<(real, real)> {
    if s.long && s.advance.Some? && s.total.Some? then Some((s.advance.value, s.total.value)) else None
  }

  /**
   * Lines 101-107 as written: the `avancement` value is appended before
   * the total is parsed, so a row whose total does not parse still adds
   * its `avancement` value.
   */
  function ExtractedAsWritten(ss: seq<Sample>): (seq<real>, seq<real>) {
    if ss == [] then ([], [])
    else
      var (avs, tots) := ExtractedAsWritten(ss[..|ss| - 1]);
      var s := ss[|ss| - 1];
      if !s.long || s.advance.None? then (avs, tots)
      else if s.total.None? then (avs + [s.advance.value], tots)
      else (avs + [s.advance.value], tots + [s.total.value])
  }

  /** The value pairs of the samples whose two fields parse, in row order. */
  function Pairs(ss: seq<Sample>): (ps: seq<(real, real)>)
    ensures forall p :: p in ps <==> exists j :: 0 <= j < |ss| && BothValues(ss[j]) == Some(p)
  {
    if ss == [] then []
    else
      var n := |ss| - 1;
      var prev := Pairs(ss[..n]);
      assert forall j :: 0 <= j < n ==> ss[..n][j] == ss[j];
      match BothValues(ss[n])
      case None => prev
      case Some(p) => prev + [p]
  }

  function Unzip(ps: seq<(real, real)>): (r: (seq<real>, seq<real>))
    ensures |r.0| == |ps| && |r.1| == |ps|
    ensures forall i :: 0 <= i < |ps| ==> r.0[i] == ps[i].0 && r.1[i] == ps[i].1
  {
    (seq(|ps|, i requires 0 <= i < |ps| => ps[i].0), seq(|ps|, i requires 0 <= i < |ps| => ps[i].1))
  }

  /**
   * The extraction as intended: a row contributes both of its values or
   * neither, so the two lists pair up row by row, and every row whose two
   * fields parse is among them.
   */
  function Extracted(ss: seq<Sample>): (r: (seq<real>, seq<real>))
    ensures |r.0| == |r.1|
    ensures forall i :: 0 <= i < |r.0| ==> exists j :: 0 <= j < |ss| && BothValues(ss[j]) == Some((r.0[i], r.1[i]))
    ensures forall j :: 0 <= j < |ss| && BothValues(ss[j]).Some? ==>
      exists i :: 0 <= i < |r.0| && (r.0[i], r.1[i]) == BothValues(ss[j]).value
  {
    var ps := Pairs(ss);
    var r := Unzip(ps);
    assert forall i :: 0 <= i < |ps| ==> (r.0[i], r.1[i]) == ps[i];
    forall j | 0 <= j < |ss| && BothValues(ss[j]).Some?
      ensures exists i :: 0 <= i < |r.0| && (r.0[i], r.1[i]) == BothValues(ss[j]).value
    {
      var p := BothValues(ss[j]).value;
      assert p in ps;
      var i :| 0 <= i < |ps| && ps[i] == p;
    }
    r
  }

  lemma UnzipSnoc(ps: seq<(real, real)>, p: (real, real))
    ensures Unzip(ps + [p]) == (Unzip(ps).0 + [p.0], Unzip(ps).1 + [p.1])
  {
    var r := Unzip(ps + [p]);
    assert r.0 == Unzip(ps).0 + [p.0] by {
      forall i | 0 <= i < |ps| + 1
        ensures r.0[i] == (Unzip(ps).0 + [p.0])[i]
      {
        assert (ps + [p])[i] == if i < |ps| then ps[i] else p;
      }
    }
    assert r.1 == Unzip(ps).1 + [p.1] by {
      forall i | 0 <= i < |ps| + 1
        ensures r.1[i] == (Unzip(ps).1 + [p.1])[i]
      {
        assert (ps + [p])[i] == if i < |ps| then ps[i] else p;
      }
    }
  }

  /** The intended extraction one row further on. */
  lemma ExtractedStep(ss: seq<Sample>, i: nat)
    requires i < |ss|
    ensures var prev := Extracted(ss[..i]);
      Extracted(ss[..i + 1]) ==
        match BothValues(ss[i])
        case None => prev
        case Some(p) => (prev.0 + [p.0], prev.1 + [p.1])
  {
    var prefix := ss[..i + 1];
    assert prefix != [] && prefix[..|prefix| - 1] == ss[..i] && prefix[|prefix| - 1] == ss[i];
    if BothValues(ss[i]).Some? {
      UnzipSnoc(Pairs(ss[..i]), BothValues(ss[i]).value);
    }
  }

  /** Where every long row whose `avancement` parses also has a total that parses, the code as written extracts as intended. */
  lemma {:induction false} AsWrittenAgrees(ss: seq<Sample>)
    requires forall j :: 0 <= j < |ss| && ss[j].long && ss[j].advance.Some? ==> ss[j].total.Some?
    ensures ExtractedAsWritten(ss) == Extracted(ss)
  {
    if ss != [] {
      var n := |ss| - 1;
      assert forall j :: 0 <= j < n ==> ss[..n][j] == ss[j];
      AsWrittenAgrees(ss[..n]);
      var prev := Extracted(ss[..n]);
      assert ExtractedAsWritten(ss[..n]) == prev;
      assert ss[..n + 1] == ss;
      ExtractedStep(ss, n);
      var s := ss[n];
      if !s.long || s.advance.None? {
        assert BothValues(s).None?;
        assert Extracted(ss) == prev;
      } else {
        assert s.total.Some?;
        assert BothValues(s) == Some((s.advance.value, s.total.value));
        assert Extracted(ss) == (prev.0 + [s.advance.value], prev.1 + [s.total.value]);
      }
    }
  }

  /** As written, the `avancement` list is never shorter than the total list. */
  lemma {:induction false} AsWrittenAdvanceLonger(ss: seq<Sample>)
    ensures |ExtractedAsWritten(ss).1| <= |ExtractedAsWritten(ss).0|
  {
    if ss != [] {
      AsWrittenAdvanceLonger(ss[..|ss| - 1]);
    }
  }

  /**
   * A row `1,x` with a parsable `avancement` and an unparsable total, then
   * a row `3,2`: as written the `avancement` list keeps the 1.0 of the bad
   * row and its mean becomes 2.0, while the total list has only the 2.0 of
   * the second row; as intended the bad row is dropped and the
   * `avancement` mean is 3.0.
   */
  lemma AsWrittenMismatch()
    ensures Samples([["1", "x"], ["3", "2"]], 0, 1) == [Sample(true, Some(1.0), None), Sample(true, Some(3.0), Some(2.0))]
    ensures ExtractedAsWritten([Sample(true, Some(1.0), None), Sample(true, Some(3.0), Some(2.0))]) == ([1.0, 3.0], [2.0])
    ensures Extracted([Sample(true, Some(1.0), None), Sample(true, Some(3.0), Some(2.0))]) == ([3.0], [2.0])
    ensures Mean([1.0, 3.0]) == 2.0 && Mean([3.0]) == 3.0
  {
    MismatchSamples();
    AsWrittenExample();
    IntendedExample();
    MismatchMeans();
  }

  lemma MismatchSamples()
    ensures Samples([["1", "x"], ["3", "2"]], 0, 1) == [Sample(true, Some(1.0), None), Sample(true, Some(3.0), Some(2.0))]
  {
    var rows := [["1", "x"], ["3", "2"]];
    TwoSamples(rows, 0, 1);
    BadTotalSample();
    GoodSample();
  }

  lemma TwoSamples(rows: seq<seq<string>>, av: nat, tot: nat)
    requires |rows| == 2
    ensures Samples(rows, av, tot) == [SampleOf(rows[0], av, tot), SampleOf(rows[1], av, tot)]
  {
  }

  lemma AsWrittenExample()
    ensures ExtractedAsWritten([Sample(true, Some(1.0), None), Sample(true, Some(3.0), Some(2.0))]) == ([1.0, 3.0], [2.0])
  {
    var ss := [Sample(true, Some(1.0), None), Sample(true, Some(3.0), Some(2.0))];
    assert ss[..0] == [] && [] + [1.0] == [1.0];
    AsWrittenStep(ss, 0);
    assert ExtractedAsWritten(ss[..1]) == ([1.0], []);
    AsWrittenStep(ss, 1);
    assert ss[..2] == ss && [1.0] + [3.0] == [1.0, 3.0] && [] + [2.0] == [2.0];
  }

  lemma IntendedExample()
    ensures Extracted([Sample(true, Some(1.0), None), Sample(true, Some(3.0), Some(2.0))]) == ([3.0], [2.0])
  {
    var ss := [Sample(true, Some(1.0), None), Sample(true, Some(3.0), Some(2.0))];
    IntendedPairs(ss);
    var r := Unzip([(3.0, 2.0)]);
    assert r.0 == [3.0] && r.1 == [2.0];
  }

  lemma IntendedPairs(ss: seq<Sample>)
    requires ss == [Sample(true, Some(1.0), None), Sample(true, Some(3.0), Some(2.0))]
    ensures Pairs(ss) == [(3.0, 2.0)]
  {
    assert ss[..1] == [ss[0]] && [ss[0]][..0] == [];
    assert Pairs(ss[..1]) == [];
  }

  lemma AsWrittenStep(ss: seq<Sample>, i: nat)
    requires i < |ss|
    ensures var prev := ExtractedAsWritten(ss[..i]);
      var s := ss[i];
      ExtractedAsWritten(ss[..i + 1]) ==
        if !s.long || s.advance.None? then prev
        else if s.total.None? then (prev.0 + [s.advance.value], prev.1)
        else (prev.0 + [s.advance.value], prev.1 + [s.total.value])
  {
    var prefix := ss[..i + 1];
    assert prefix != [] && prefix[..|prefix| - 1] == ss[..i] && prefix[|prefix| - 1] == ss[i];
  }

  lemma BadTotalSample()
    ensures SampleOf(["1", "x"], 0, 1) == Sample(true, Some(1.0), None)
  {
    PyFloatDigits("1");
    assert "1"[..0] == [];
    StripUnspaced("x");
    ParseFloatRejects("x");
  }

  lemma GoodSample()
    ensures SampleOf(["3", "2"], 0, 1) == Sample(true, Some(3.0), Some(2.0))
  {
    PyFloatDigits("3");
    PyFloatDigits("2");
    assert "2"[..0] == [] && "3"[..0] == [];
  }

  lemma MismatchMeans()
    ensures Mean([1.0, 3.0]) == 2.0 && Mean([3.0]) == 3.0
  {
    assert [1.0, 3.0][..1] == [1.0] && [1.0][..0] == [] && [3.0][..0] == [];
  }

  /**
   * The samples the manual scan of `resultats_temps_v1.csv` reads: none
   * when the text has no line after the header or the header has no
   * `avancement` or no `total` column.
   */
  function ManualSamples(content: string): Option<seq<Sample>> {
    var lines := Lines(content);
    if |lines| <= 1 then None
    else
      var header := RowOf(lines[0]);
      var av := LastContaining(header, ADVANCE_WORD);
      var tot := LastContaining(header, TOTAL_WORD);
      if av < 0 || tot < 0 then None
      else Some(Samples(SampleRows(lines), av, tot))
  }

  /** The two means, set only when both lists are non-empty. */
  function MeanTimes(lists: (seq<real>, seq<real>)): Option<SeqTimes> {
    if lists.0 != [] && lists.1 != [] then Some(SeqTimes(Mean(lists.0), Mean(lists.1))) else None
  }

  /** `temps_sequentiels['1']` from the manual scan, or `None` where it sets nothing or its `open` raises. */
  function ManualTimes(v1: Option<string>): Option<SeqTimes> {
    match v1
    case None => None
    case Some(content) =>
      match ManualSamples(content)
      case None => None
      case Some(ss) => MeanTimes(Extracted(ss))
  }

  /** The manual scan as lines 101-107 are written, over the as-written extraction. */
  function ManualTimesAsWritten(v1: Option<string>): Option<SeqTimes> {
    match v1
    case None => None
    case Some(content) =>
      match ManualSamples(content)
      case None => None
      case Some(ss) => MeanTimes(ExtractedAsWritten(ss))
  }

  /** Every long row whose `avancement` parses also has a total that parses. */
  predicate TotalsFollowAdvances(ss: seq<Sample>) {
    forall j :: 0 <= j < |ss| && ss[j].long && ss[j].advance.Some? ==> ss[j].total.Some?
  }

  /** Where no sampled row has a readable `avancement` and an unreadable total, the scan as written gives the same times. */
  lemma ManualTimesAsWrittenAgrees(content: string)
    requires ManualSamples(content).Some? ==> TotalsFollowAdvances(ManualSamples(content).value)
    ensures ManualTimesAsWritten(Some(content)) == ManualTimes(Some(content))
  {
    if ManualSamples(content).Some? {
      AsWrittenAgrees(ManualSamples(content).value);
    }
  }

  /** A `resultats_temps_v1.csv` whose first data row has a total that does not parse. */
  const MISMATCH_TEXT: string := "avancement,total\n1,x\n3,2\n"

  /** The manual scan of a two-column row `a,b` reads the fields `a` and `b`. */
  lemma TwoFieldRow(a: string, b: string)
    requires a != [] && b != [] && Lacks(a, ',') && Lacks(b, ',')
    requires !IsSpace(a[0]) && !IsSpace(b[|b| - 1])
    ensures RowOf(a + "," + b) == [a, b]
  {
    var line := a + "," + b;
    assert line[0] == a[0] && line[|line| - 1] == b[|b| - 1];
    StripUnspaced(line);
    SplitFirstChar(a, b, ',');
    SplitLacking(b, ',');
  }

  lemma MismatchLines()
    ensures Lines(MISMATCH_TEXT) == ["avancement,total", "1,x", "3,2"]
  {
    assert MISMATCH_TEXT == "avancement,total" + "\n" + ("1,x" + "\n" + ("3,2" + "\n" + ""));
    assert Lacks("avancement,total", '\n') && Lacks("1,x", '\n') && Lacks("3,2", '\n');
    ThreeLines("avancement,total", "1,x", "3,2");
  }

  /** Three newline-free lines, each ended by a newline, read back as those lines. */
  lemma ThreeLines(a: string, b: string, c: string)
    requires Lacks(a, '\n') && Lacks(b, '\n') && Lacks(c, '\n')
    ensures Lines(a + "\n" + (b + "\n" + (c + "\n" + ""))) == [a, b, c]
  {
    LinesCons(c, "");
    LinesCons(b, c + "\n" + "");
    LinesCons(a, b + "\n" + (c + "\n" + ""));
    assert Split("", "\n") == [""];
  }

  lemma MismatchHeader()
    ensures RowOf("avancement,total") == ["avancement", "total"]
  {
    assert "avancement,total" == "avancement" + "," + "total";
    TwoFieldRow("avancement", "total");
  }

  /** The last column containing the word is at `r` when `r`'s name contains it and no later name does. */
  lemma LastContainingAt(names: seq<string>, word: string, r: nat)
    requires r < |names| && Contains(Lower(names[r]), word)
    requires forall i :: r < i < |names| ==> !Contains(Lower(names[i]), word)
    ensures LastContaining(names, word) == r
  {
  }

  lemma MismatchAdvanceColumn()
    ensures LastContaining(["avancement", "total"], ADVANCE_WORD) == 0
  {
    var names := ["avancement", "total"];
    LowerUnchanged(names[0]);
    assert OccursAt(Lower(names[0]), ADVANCE_WORD, 0);
    assert |Lower(names[1])| < |ADVANCE_WORD|;
    LastContainingAt(names, ADVANCE_WORD, 0);
  }

  lemma MismatchTotalColumn()
    ensures LastContaining(["avancement", "total"], TOTAL_WORD) == 1
  {
    var names := ["avancement", "total"];
    LowerUnchanged(names[1]);
    assert OccursAt(Lower(names[1]), TOTAL_WORD, 0);
    LastContainingAt(names, TOTAL_WORD, 1);
  }

  lemma MismatchRows()
    ensures SampleRows(["avancement,total", "1,x", "3,2"]) == [["1", "x"], ["3", "2"]]
  {
    assert "1,x" == "1" + "," + "x" && "3,2" == "3" + "," + "2";
    TwoFieldRow("1", "x");
    TwoFieldRow("3", "2");
  }

  /** The samples of a text, from its header and its sampled rows. */
  lemma ManualSamplesFrom(content: string, header: seq<string>, rows: seq<seq<string>>, av: nat, tot: nat)
    requires |Lines(content)| > 1 && RowOf(Lines(content)[0]) == header && SampleRows(Lines(content)) == rows
    requires LastContaining(header, ADVANCE_WORD) == av && LastContaining(header, TOTAL_WORD) == tot
    ensures ManualSamples(content) == Some(Samples(rows, av, tot))
  {
  }

  lemma MismatchSamplesOfText()
    ensures ManualSamples(MISMATCH_TEXT) == Some([Sample(true, Some(1.0), None), Sample(true, Some(3.0), Some(2.0))])
  {
    var lines := ["avancement,total", "1,x", "3,2"];
    MismatchLines();
    assert Lines(MISMATCH_TEXT) == lines;
    MismatchHeader();
    MismatchAdvanceColumn();
    MismatchTotalColumn();
    MismatchRows();
    ManualSamplesFrom(MISMATCH_TEXT, ["avancement", "total"], [["1", "x"], ["3", "2"]], 0, 1);
    MismatchSamples();
  }

  lemma MismatchMeanTimes()
    ensures MeanTimes(([1.0, 3.0], [2.0])) == Some(SeqTimes(2.0, 2.0))
    ensures MeanTimes(([3.0], [2.0])) == Some(SeqTimes(3.0, 2.0))
  {
    MismatchMeans();
    assert [2.0][..0] == [];
  }

  /**
   * The mismatch at the level of the file: as written the manual scan
   * gives `avancement` 2.0, the mean of 1.0 and 3.0, and total 2.0, while
   * the paired scan gives 3.0 and 2.0.
   */
  lemma ManualScanMismatch()
    ensures ManualSamples(MISMATCH_TEXT) == Some([Sample(true, Some(1.0), None), Sample(true, Some(3.0), Some(2.0))])
    ensures ManualTimesAsWritten(Some(MISMATCH_TEXT)) == Some(SeqTimes(2.0, 2.0))
    ensures ManualTimes(Some(MISMATCH_TEXT)) == Some(SeqTimes(3.0, 2.0))
  {
    var ss := [Sample(true, Some(1.0), None), Sample(true, Some(3.0), Some(2.0))];
    MismatchSamplesOfText();
    AsWrittenExample();
    IntendedExample();
    MismatchMeanTimes();
    assert ManualTimesAsWritten(Some(MISMATCH_TEXT)) == MeanTimes(ExtractedAsWritten(ss));
    assert ManualTimes(Some(MISMATCH_TEXT)) == MeanTimes(Extracted(ss));
  }

  /** The first `SAMPLE_END` lines, the only ones the manual scan reads. */
  function Head(lines: seq<string>): seq<string> {
    if |lines| < SAMPLE_END then lines else lines[..SAMPLE_END]
  }

  /** Files that agree on their first ten lines give the same manual times: later lines are never read. */
  lemma ManualTimesReadsHead(a: string, b: string)
    requires Head(Lines(a)) == Head(Lines(b))
    ensures ManualTimes(Some(a)) == ManualTimes(Some(b))
  {
    var la := Lines(a);
    var lb := Lines(b);
    assert |la| < SAMPLE_END <==> |lb| < SAMPLE_END;
    if |la| > 1 {
      assert la[0] == Head(la)[0] && lb[0] == Head(lb)[0];
      var ra := SampleRows(la);
      var rb := SampleRows(lb);
      forall i | 0 <= i < |ra|
        ensures ra[i] == rb[i]
      {
        assert la[i + 1] == Head(la)[i + 1] && lb[i + 1] == Head(lb)[i + 1];
      }
      assert ra == rb;
    }
  }

  // ---------------------------------------------------------------------
  // The sequential times

  /** What `corriger_et_obtenir_temps_sequentiels` returns: never empty. */
  type SequentialTable = d: Dict<string, SeqTimes> | WellFormed(d) && d.keys != []
    witness Dict([REFERENCE_VERSION], map[REFERENCE_VERSION := DEFAULT_TIMES])

  /** The times of version 1 when no file records any: the manually scanned ones, or the defaults. */
  function FallbackTimes(v1: Option<string>): SeqTimes {
    match ManualTimes(v1)
    case Some(t) => t
    case None => DEFAULT_TIMES
  }

  /** The table of the readings when one of them records times, and otherwise version 1 mapped to `fallback`. */
  function Tabulated(rs: seq<Reading>, fallback: SeqTimes): SequentialTable {
    var found := VersionTable(rs);
    if found.keys != [] then found else Put(Empty(), REFERENCE_VERSION, fallback)
  }

  /** `corriger_et_obtenir_temps_sequentiels()` over the directory's files and the text of `resultats_temps_v1.csv`. */
  function SequentialTimes(dir: seq<SeqFile>, v1: Option<string>): SequentialTable {
    Tabulated(Readings(SeqFiles(dir)), FallbackTimes(v1))
  }

  /** The times of version 1 when no file records any, from the manual scan as written. */
  function FallbackTimesAsWritten(v1: Option<string>): SeqTimes {
    match ManualTimesAsWritten(v1)
    case Some(t) => t
    case None => DEFAULT_TIMES
  }

  /** `corriger_et_obtenir_temps_sequentiels()` with the manual scan as lines 101-107 are written. */
  function SequentialTimesAsWritten(dir: seq<SeqFile>, v1: Option<string>): SequentialTable {
    Tabulated(Readings(SeqFiles(dir)), FallbackTimesAsWritten(v1))
  }

  /** The table as written is the table of the model whenever the manual scan meets no row with an unreadable total. */
  lemma SequentialTimesAsWrittenAgrees(dir: seq<SeqFile>, content: string)
    requires ManualSamples(content).Some? ==> TotalsFollowAdvances(ManualSamples(content).value)
    ensures SequentialTimesAsWritten(dir, Some(content)) == SequentialTimes(dir, Some(content))
  {
    ManualTimesAsWrittenAgrees(content);
  }

  /**
   * `corriger_et_obtenir_temps_sequentiels()` over `SEQ_DIR`, `None` when
   * it is not a directory: the glob then matches nothing, and listing the
   * directory to report that raises FileNotFoundError outside any `try`.
   */
  function SequentialTimesIn(seqDir: Option<seq<SeqFile>>, v1: Option<string>): Result<SequentialTable, ScriptError> {
    match seqDir
    case None => Failure(FileNotFoundError)
    case Some(dir) => Success(SequentialTimes(dir, v1))
  }

  /** The same with the manual scan as written. */
  function SequentialTimesAsWrittenIn(seqDir: Option<seq<SeqFile>>, v1: Option<string>): Result<SequentialTable, ScriptError> {
    match seqDir
    case None => Failure(FileNotFoundError)
    case Some(dir) => Success(SequentialTimesAsWritten(dir, v1))
  }

  /**
   * The function raises exactly when `SEQ_DIR` is missing, and then with
   * FileNotFoundError; otherwise it returns the table, at least version 1
   * when no file records times.
   */
  lemma SequentialTimesInFails(seqDir: Option<seq<SeqFile>>, v1: Option<string>)
    ensures SequentialTimesIn(seqDir, v1).Failure? <==> seqDir.None?
    ensures SequentialTimesIn(seqDir, v1).Failure? ==> SequentialTimesIn(seqDir, v1).error == FileNotFoundError
    ensures SequentialTimesIn(seqDir, v1).Success? && (forall f :: f in SeqFiles(seqDir.value) ==> FileReading(f).None?) ==>
      SequentialTimesIn(seqDir, v1).value.keys == [REFERENCE_VERSION]
  {
    if seqDir.Some? {
      var files := SeqFiles(seqDir.value);
      var rs := Readings(files);
      if forall f :: f in files ==> FileReading(f).None? {
        forall i | 0 <= i < |rs|
          ensures rs[i].times.None?
        {
          assert files[i] in files;
        }
        VersionTableEmpty(rs);
      }
    }
  }

  /**
   * With no file matching the glob, a `resultats_temps_v1.csv` holding
   * `MISMATCH_TEXT` gives version 1 the times (2.0, 2.0) as the script is
   * written, and (3.0, 2.0) in the model.
   */
  lemma SequentialTableMismatch()
    ensures SequentialTimesAsWritten([], Some(MISMATCH_TEXT)).at == map[REFERENCE_VERSION := SeqTimes(2.0, 2.0)]
    ensures SequentialTimes([], Some(MISMATCH_TEXT)).at == map[REFERENCE_VERSION := SeqTimes(3.0, 2.0)]
  {
    assert Readings(SeqFiles([])) == [];
    ManualScanMismatch();
    assert FallbackTimesAsWritten(Some(MISMATCH_TEXT)) == SeqTimes(2.0, 2.0);
    assert FallbackTimes(Some(MISMATCH_TEXT)) == SeqTimes(3.0, 2.0);
    NoFilesTable(SeqTimes(2.0, 2.0));
    NoFilesTable(SeqTimes(3.0, 2.0));
  }

  lemma NoFilesTable(t: SeqTimes)
    ensures Tabulated([], t).at == map[REFERENCE_VERSION := t]
  {
    VersionTableEmpty([]);
    FallbackKeys(t);
  }

  /** The table the files give is empty exactly when no file records times. */
  lemma VersionTableEmpty(rs: seq<Reading>)
    ensures VersionTable(rs).keys == [] <==> forall i :: 0 <= i < |rs| ==> rs[i].times.None?
  {
    var found := VersionTable(rs);
    VersionTableKeys(rs);
    if found.keys == [] {
      forall i | 0 <= i < |rs|
        ensures rs[i].times.None?
      {
        assert rs[i].version !in found.at;
      }
    } else {
      assert found.keys[0] in found.at;
    }
  }

  /** The fallback table holds version 1 alone. */
  lemma FallbackKeys(t: SeqTimes)
    ensures forall k :: k in Put(Empty<string, SeqTimes>(), REFERENCE_VERSION, t).at <==> k == REFERENCE_VERSION
    ensures Put(Empty<string, SeqTimes>(), REFERENCE_VERSION, t).at[REFERENCE_VERSION] == t
  {
    var e := Empty<string, SeqTimes>();
    assert forall k :: k !in e.at;
  }

  /** The versions in the table: those some file records, or only version 1 when no file records any. */
  lemma TabulatedKeys(rs: seq<Reading>, fallback: SeqTimes)
    ensures forall k :: k in Tabulated(rs, fallback).at <==>
      (exists i :: 0 <= i < |rs| && Records(rs[i], k))
      || ((forall i :: 0 <= i < |rs| ==> rs[i].times.None?) && k == REFERENCE_VERSION)
  {
    VersionTableKeys(rs);
    VersionTableEmpty(rs);
    FallbackKeys(fallback);
  }

  /**
   * Each version holds the times of the last file recording it; with no
   * such file, version 1 holds the fallback times.
   */
  lemma TabulatedValues(rs: seq<Reading>, fallback: SeqTimes)
    ensures var d := Tabulated(rs, fallback);
      forall k :: k in d.at ==>
        (exists i :: LastRecords(rs, i, k) && rs[i].times == Some(d.at[k]))
        || ((forall i :: 0 <= i < |rs| ==> rs[i].times.None?) && k == REFERENCE_VERSION && d.at[k] == fallback)
  {
    VersionTableValues(rs);
    VersionTableEmpty(rs);
    FallbackKeys(fallback);
  }

  // ---------------------------------------------------------------------
  // The loops of `corriger_et_obtenir_temps_sequentiels`

  /** The version loop over the globbed files, then the manual scan, then the defaults. */
  method CorrectSequentialTimes(seqDir: Option<seq<SeqFile>>, v1: Option<string>) returns (r: Result<SequentialTable, ScriptError>)
    ensures r == SequentialTimesIn(seqDir, v1)
  {
    var seqFiles := SeqFiles(if seqDir.Some? then seqDir.value else []);
    if seqFiles == [] && seqDir.None? {
      return Failure(FileNotFoundError);
    }
    ghost var rs := Readings(seqFiles);
    var found: Dict<string, SeqTimes> := Empty();
    for i := 0 to |seqFiles|
      invariant found == VersionTable(rs[..i])
    {
      VersionTableStep(rs, i);
      var version := Version(seqFiles[i].name);
      var times := FileReading(seqFiles[i]);
      if times.Some? {
        found := Put(found, version, times.value);
      }
    }
    assert rs[..|seqFiles|] == rs;
    if found.keys != [] {
      return Success(found);
    }
    var manual := ExtractManually(v1);
    var times := if manual.Some? then manual.value else DEFAULT_TIMES;
    return Success(Put(Empty(), REFERENCE_VERSION, times));
  }

  /** The manual scan of `resultats_temps_v1.csv`, with both values of a row parsed before either is kept. */
  method ExtractManually(v1: Option<string>) returns (times: Option<SeqTimes>)
    ensures times == ManualTimes(v1)
  {
    if v1.None? {
      return None;
    }
    var lines := Lines(v1.value);
    if |lines| <= 1 {
      return None;
    }
    var header := RowOf(lines[0]);
    var values := ReadSampleRows(lines);
    var avIdx, totIdx := KeywordIndices(header);
    if avIdx < 0 || totIdx < 0 {
      return None;
    }
    var avValues, totValues := ExtractValues(values, avIdx, totIdx);
    if avValues != [] && totValues != [] {
      return Some(SeqTimes(Mean(avValues), Mean(totValues)));
    }
    return None;
  }

  /** `values.append(lines[i].strip().split(','))` for `i in range(1, min(10, len(lines)))`. */
  method ReadSampleRows(lines: seq<string>) returns (values: seq<seq<string>>)
    requires |lines| > 1
    ensures values == SampleRows(lines)
  {
    var last := if |lines| < SAMPLE_END then |lines| else SAMPLE_END;
    values := [];
    for i := 1 to last
      invariant |values| == i - 1
      invariant forall j :: 0 <= j < |values| ==> values[j] == RowOf(lines[j + 1])
    {
      values := values + [RowOf(lines[i])];
    }
  }

  lemma LastContainingStep(names: seq<string>, word: string, i: nat)
    requires i < |names|
    ensures LastContaining(names[..i + 1], word) ==
      if Contains(Lower(names[i]), word) then i else LastContaining(names[..i], word)
  {
    var prefix := names[..i + 1];
    assert prefix != [] && prefix[..|prefix| - 1] == names[..i] && prefix[|prefix| - 1] == names[i];
  }

  /** The header loop: each index is the last column whose lower-cased name contains the word, or -1. */
  method KeywordIndices(header: seq<string>) returns (avIdx: int, totIdx: int)
    ensures avIdx == LastContaining(header, ADVANCE_WORD)
    ensures totIdx == LastContaining(header, TOTAL_WORD)
  {
    avIdx, totIdx := -1, -1;
    for i := 0 to |header|
      invariant avIdx == LastContaining(header[..i], ADVANCE_WORD)
      invariant totIdx == LastContaining(header[..i], TOTAL_WORD)
    {
      LastContainingStep(header, ADVANCE_WORD, i);
      LastContainingStep(header, TOTAL_WORD, i);
      var col := Lower(header[i]);
      if Contains(col, ADVANCE_WORD) {
        avIdx := i;
      }
      if Contains(col, TOTAL_WORD) {
        totIdx := i;
      }
    }
    assert header[..|header|] == header;
  }

  /** The extraction loop over the sampled rows, keeping a row's two values only when both parse. */
  method ExtractValues(rows: seq<seq<string>>, avIdx: nat, totIdx: nat) returns (avValues: seq<real>, totValues: seq<real>)
    ensures (avValues, totValues) == Extracted(Samples(rows, avIdx, totIdx))
  {
    ghost var ss := Samples(rows, avIdx, totIdx);
    avValues, totValues := [], [];
    assert ss[..0] == [];
    assert Unzip([]).0 == [] && Unzip([]).1 == [];
    for i := 0 to |rows|
      invariant (avValues, totValues) == Extracted(ss[..i])
    {
      ExtractedStep(ss, i);
      var row := rows[i];
      if |row| > Max(avIdx, totIdx) {
        var av := PyFloat(row[avIdx]);
        var tot := PyFloat(row[totIdx]);
        if av.Some? && tot.Some? {
          avValues := avValues + [av.value];
          totValues := totValues + [tot.value];
        }
      }
    }
    assert ss[..|rows|] == ss;
  }

  // ---------------------------------------------------------------------
  // The reference time and the parallel speedups

  function KindTimes(ts: seq<SeqTimes>, kind: TimeKind): (xs: seq<real>)
    ensures |xs| == |ts|
    ensures forall i :: 0 <= i < |ts| ==> xs[i] == TimeOf(ts[i], kind)
  {
    seq(|ts|, i requires 0 <= i < |ts| => TimeOf(ts[i], kind))
  }

  /** `t_seq`: version 1's time when there is a version 1, else the mean over all versions. */
  function ReferenceTime(temps: SequentialTable, kind: TimeKind): real {
    if REFERENCE_VERSION in temps.at then TimeOf(temps.at[REFERENCE_VERSION], kind)
    else Mean(KindTimes(Values(temps), kind))
  }

  /** The reference time lies between any bounds on the versions' times. */
  lemma ReferenceTimeBounds(temps: SequentialTable, kind: TimeKind, lo: real, hi: real)
    requires forall k :: k in temps.at ==> lo <= TimeOf(temps.at[k], kind) <= hi
    ensures lo <= ReferenceTime(temps, kind) <= hi
  {
    if REFERENCE_VERSION !in temps.at {
      var xs := KindTimes(Values(temps), kind);
      forall i | 0 <= i < |xs|
        ensures lo <= xs[i] <= hi
      {
        assert temps.keys[i] in temps.at;
      }
      MeanBounds(xs, lo, hi);
    }
  }

  /** With no file recording times and no manual times, the reference is the default time. */
  lemma ReferenceTimeDefault(dir: seq<SeqFile>, v1: Option<string>, kind: TimeKind)
    requires forall f :: f in SeqFiles(dir) ==> FileReading(f).None?
    requires ManualTimes(v1).None?
    ensures ReferenceTime(SequentialTimes(dir, v1), kind) == TimeOf(DEFAULT_TIMES, kind)
  {
    var files := SeqFiles(dir);
    var rs := Readings(files);
    forall i | 0 <= i < |rs|
      ensures rs[i].times.None?
    {
      assert files[i] in files;
    }
    VersionTableEmpty(rs);
    FallbackKeys(DEFAULT_TIMES);
  }

  /** The Gustafson speedups `t_seq / (avg_time / thread_count)`, one per directory that yields a time, in order. */
  function ScaledList(vs: seq<Speedup.Visit>, tSeq: real): Result<seq<Point>, ScriptError> {
    if vs == [] then Success([])
    else
      var prev :- ScaledList(vs[..|vs| - 1], tSeq);
      var v := vs[|vs| - 1];
      var time :- v.time;
      Success(prev + if time.Some? then [Point(v.threads, GustafsonSpeedup(tSeq, time.value, v.threads))] else [])
  }

  lemma {:induction false} ScaledListFailureSticks(vs: seq<Speedup.Visit>, tSeq: real, k: nat)
    requires k <= |vs| && ScaledList(vs[..k], tSeq).Failure?
    ensures ScaledList(vs, tSeq) == ScaledList(vs[..k], tSeq)
    decreases |vs| - k
  {
    if k < |vs| {
      assert vs[..k + 1][..k] == vs[..k];
      ScaledListFailureSticks(vs, tSeq, k + 1);
    } else {
      assert vs[..k] == vs;
    }
  }

  lemma ScaledListStep(vs: seq<Speedup.Visit>, tSeq: real, i: nat)
    requires i < |vs| && ScaledList(vs[..i], tSeq).Success?
    ensures var prev := ScaledList(vs[..i], tSeq).value;
      var time := vs[i].time;
      ScaledList(vs[..i + 1], tSeq) ==
        if time.Failure? then Failure(time.error)
        else if time.value.None? then Success(prev)
        else Success(prev + [Point(vs[i].threads, GustafsonSpeedup(tSeq, time.value.value, vs[i].threads))])
  {
    var prefix := vs[..i + 1];
    assert prefix != [] && prefix[..|prefix| - 1] == vs[..i] && prefix[|prefix| - 1] == vs[i];
    var prev := ScaledList(vs[..i], tSeq).value;
    if vs[i].time.Success? && vs[i].time.value.None? {
      assert prev + [] == prev;
    }
  }

  /**
   * The Gustafson list succeeds exactly when the Amdahl list over the same
   * directories does, and then holds, point for point, the Amdahl speedup
   * multiplied by the thread count.
   */
  lemma {:induction false} ScaledListIsScaledAmdahl(vs: seq<Speedup.Visit>, tSeq: real)
    ensures ScaledList(vs, tSeq).Success? <==> Speedup.AmdahlList(vs, tSeq).Success?
    ensures ScaledList(vs, tSeq).Success? ==>
      var s := ScaledList(vs, tSeq).value;
      var a := Speedup.AmdahlList(vs, tSeq).value;
      && |s| == |a|
      && forall i :: 0 <= i < |s| ==> s[i].threads == a[i].threads && s[i].value == a[i].threads as real * a[i].value
  {
    ScaledListSucceeds(vs, tSeq);
    if ScaledList(vs, tSeq).Success? {
      ScaledListPoints(vs, tSeq);
    }
  }

  /** Each Gustafson point is its Amdahl partner's speedup times its thread count. */
  ghost predicate ScaledPoints(s: seq<Point>, a: seq<Point>) {
    && |s| == |a|
    && forall i :: 0 <= i < |s| ==> s[i].threads == a[i].threads && s[i].value == a[i].threads as real * a[i].value
  }

  lemma {:induction false} ScaledListSucceeds(vs: seq<Speedup.Visit>, tSeq: real)
    ensures ScaledList(vs, tSeq).Success? <==> Speedup.AmdahlList(vs, tSeq).Success?
  {
    if vs != [] {
      ScaledListSucceeds(vs[..|vs| - 1], tSeq);
    }
  }

  lemma {:induction false} ScaledListPoints(vs: seq<Speedup.Visit>, tSeq: real)
    requires ScaledList(vs, tSeq).Success? && Speedup.AmdahlList(vs, tSeq).Success?
    ensures ScaledPoints(ScaledList(vs, tSeq).value, Speedup.AmdahlList(vs, tSeq).value)
  {
    if vs != [] {
      var n := |vs| - 1;
      var init := vs[..n];
      var v := vs[n];
      ScaledListPoints(init, tSeq);
      var s0 := ScaledList(init, tSeq).value;
      var a0 := Speedup.AmdahlList(init, tSeq).value;
      if v.time.value.Some? {
        var t := v.time.value.value;
        var x := Point(v.threads, GustafsonSpeedup(tSeq, t, v.threads));
        var y := Point(v.threads, AmdahlSpeedup(tSeq, t));
        GustafsonIsScaledAmdahl(tSeq, t, v.threads);
        assert ScaledList(vs, tSeq).value == s0 + [x];
        assert Speedup.AmdahlList(vs, tSeq).value == a0 + [y];
        ScaledSnoc(s0, a0, x, y);
      } else {
        assert s0 + [] == s0 && a0 + [] == a0;
      }
    }
  }

  lemma ScaledSnoc(s: seq<Point>, a: seq<Point>, x: Point, y: Point)
    requires ScaledPoints(s, a)
    requires x.threads == y.threads && x.value == y.threads as real * y.value
    ensures ScaledPoints(s + [x], a + [y])
  {
    forall i | 0 <= i < |s + [x]|
      ensures (s + [x])[i].threads == (a + [y])[i].threads && (s + [x])[i].value == (a + [y])[i].threads as real * (a + [y])[i].value
    {
      if i < |s| {
        assert (s + [x])[i] == s[i] && (a + [y])[i] == a[i];
      }
    }
  }

  /** The Amdahl loop of `calculer_speedup_parallele`: a file that does not read aborts the script. */
  method SequentialAmdahl(gs: seq<Group>, tSeq: real, kind: TimeKind) returns (r: Result<seq<Point>, ScriptError>)
    ensures r == Speedup.AmdahlList(Speedup.Visits(gs, ColumnOf(kind), Strict), tSeq)
  {
    ghost var vs := Speedup.Visits(gs, ColumnOf(kind), Strict);
    var speedups: seq<Point> := [];
    for i := 0 to |gs|
      invariant Speedup.AmdahlList(vs[..i], tSeq) == Success(speedups)
    {
      Speedup.AmdahlListStep(vs, tSeq, i);
      var threadCount := gs[i].threads;
      var avgTime := ReadGroupTime(gs[i], ColumnOf(kind), Strict);
      if avgTime.Failure? {
        Speedup.AmdahlListFailureSticks(vs, tSeq, i + 1);
        return Failure(avgTime.error);
      }
      if avgTime.value.Some? {
        speedups := speedups + [Point(threadCount, tSeq / avgTime.value.value)];
      }
    }
    assert vs[..|gs|] == vs;
    return Success(speedups);
  }

  /** The Gustafson loop of `calculer_speedup_parallele`: a file that does not read aborts the script. */
  method SequentialGustafson(gs: seq<Group>, tSeq: real, kind: TimeKind) returns (r: Result<seq<Point>, ScriptError>)
    ensures r == ScaledList(Speedup.Visits(gs, ColumnOf(kind), Strict), tSeq)
  {
    ghost var vs := Speedup.Visits(gs, ColumnOf(kind), Strict);
    var speedups: seq<Point> := [];
    for i := 0 to |gs|
      invariant ScaledList(vs[..i], tSeq) == Success(speedups)
    {
      ScaledListStep(vs, tSeq, i);
      var threadCount := gs[i].threads;
      var avgTime := ReadGroupTime(gs[i], ColumnOf(kind), Strict);
      if avgTime.Failure? {
        ScaledListFailureSticks(vs, tSeq, i + 1);
        return Failure(avgTime.error);
      }
      if avgTime.value.Some? {
        var speedup := if threadCount == 0 then 0.0 else tSeq / (avgTime.value.value / threadCount as real);
        speedups := speedups + [Point(threadCount, speedup)];
      }
    }
    assert vs[..|gs|] == vs;
    return Success(speedups);
  }

  /** The two speedup lists of `calculer_speedup_parallele` once `temps_seq` is computed. */
  function SpeedupsFrom(temps: Result<SequentialTable, ScriptError>, amdahlListing: seq<Entry>, gustafsonListing: seq<Entry>, kind: TimeKind)
    : Result<(seq<Point>, seq<Point>), ScriptError>
  {
    var table :- temps;
    var tSeq := ReferenceTime(table, kind);
    var amdahlDirs :- ThreadDirs(amdahlListing);
    var amdahl :- Speedup.AmdahlList(Speedup.Visits(amdahlDirs, ColumnOf(kind), Strict), tSeq);
    var gustafsonDirs :- ThreadDirs(gustafsonListing);
    var gustafson :- ScaledList(Speedup.Visits(gustafsonDirs, ColumnOf(kind), Strict), tSeq);
    Success((amdahl, gustafson))
  }

  /** `calculer_speedup_parallele(temps_type)`: the Amdahl and the Gustafson speedup lists. */
  function ParallelSpeedups(seqDir: Option<seq<SeqFile>>, v1: Option<string>, amdahlListing: seq<Entry>, gustafsonListing: seq<Entry>, kind: TimeKind)
    : Result<(seq<Point>, seq<Point>), ScriptError>
  {
    SpeedupsFrom(SequentialTimesIn(seqDir, v1), amdahlListing, gustafsonListing, kind)
  }

  /** `calculer_speedup_parallele(temps_type)` with the manual scan as lines 101-107 are written. */
  function ParallelSpeedupsAsWritten(seqDir: Option<seq<SeqFile>>, v1: Option<string>, amdahlListing: seq<Entry>, gustafsonListing: seq<Entry>, kind: TimeKind)
    : Result<(seq<Point>, seq<Point>), ScriptError>
  {
    SpeedupsFrom(SequentialTimesAsWrittenIn(seqDir, v1), amdahlListing, gustafsonListing, kind)
  }

  /** The speedups as written are those of the model whenever the manual scan meets no row with an unreadable total. */
  lemma ParallelSpeedupsAsWrittenAgrees(seqDir: Option<seq<SeqFile>>, content: string, amdahlListing: seq<Entry>, gustafsonListing: seq<Entry>, kind: TimeKind)
    requires ManualSamples(content).Some? ==> TotalsFollowAdvances(ManualSamples(content).value)
    ensures ParallelSpeedupsAsWritten(seqDir, Some(content), amdahlListing, gustafsonListing, kind)
      == ParallelSpeedups(seqDir, Some(content), amdahlListing, gustafsonListing, kind)
  {
    if seqDir.Some? {
      SequentialTimesAsWrittenAgrees(seqDir.value, content);
    }
  }

  /**
   * On the input of `SequentialTableMismatch`, the reference time `t_seq`
   * of `T_avancement` is 2.0 as the script is written and 3.0 in the model,
   * so every `T_avancement` speedup of the model is 3/2 of the script's.
   */
  lemma ReferenceTimeMismatch()
    ensures ReferenceTime(SequentialTimesAsWritten([], Some(MISMATCH_TEXT)), Advance) == 2.0
    ensures ReferenceTime(SequentialTimes([], Some(MISMATCH_TEXT)), Advance) == 3.0
  {
    SequentialTableMismatch();
  }

  method CalculateParallelSpeedups(seqDir: Option<seq<SeqFile>>, v1: Option<string>, amdahlListing: seq<Entry>, gustafsonListing: seq<Entry>, kind: TimeKind)
    returns (r: Result<(seq<Point>, seq<Point>), ScriptError>)
    ensures r == ParallelSpeedups(seqDir, v1, amdahlListing, gustafsonListing, kind)
  {
    var tempsSeq :- CorrectSequentialTimes(seqDir, v1);
    var tSeq := ReferenceTime(tempsSeq, kind);
    var amdahlDirs :- ThreadDirs(amdahlListing);
    var amdahl :- SequentialAmdahl(amdahlDirs, tSeq, kind);
    var gustafsonDirs :- ThreadDirs(gustafsonListing);
    var gustafson :- SequentialGustafson(gustafsonDirs, tSeq, kind);
    return Success((amdahl, gustafson));
  }

  /** A benchmark directory reads: its thread counts parse and every CSV file of every thread directory has the column. */
  predicate BenchmarkReads(listing: seq<Entry>, kind: TimeKind) {
    ThreadDirs(listing).Success? &&
    var gs := ThreadDirs(listing).value;
    forall i :: 0 <= i < |gs| ==> GroupTime(gs[i], ColumnOf(kind), Strict).Success?
  }

  /** The script gets its two lists exactly when `SEQ_DIR` exists and both benchmark directories read. */
  lemma ParallelSpeedupsSucceed(seqDir: Option<seq<SeqFile>>, v1: Option<string>, amdahlListing: seq<Entry>, gustafsonListing: seq<Entry>, kind: TimeKind)
    ensures ParallelSpeedups(seqDir, v1, amdahlListing, gustafsonListing, kind).Success? <==>
      seqDir.Some? && BenchmarkReads(amdahlListing, kind) && BenchmarkReads(gustafsonListing, kind)
  {
    if seqDir.Some? {
      SpeedupsSucceed(SequentialTimes(seqDir.value, v1), amdahlListing, gustafsonListing, kind);
    }
  }

  lemma SpeedupsSucceed(temps: SequentialTable, amdahlListing: seq<Entry>, gustafsonListing: seq<Entry>, kind: TimeKind)
    ensures SpeedupsFrom(Success(temps), amdahlListing, gustafsonListing, kind).Success? <==>
      BenchmarkReads(amdahlListing, kind) && BenchmarkReads(gustafsonListing, kind)
  {
    var tSeq := ReferenceTime(temps, kind);
    if ThreadDirs(amdahlListing).Success? {
      var vs := Speedup.Visits(ThreadDirs(amdahlListing).value, ColumnOf(kind), Strict);
      Speedup.AmdahlListSucceeds(vs, tSeq);
    }
    if ThreadDirs(gustafsonListing).Success? {
      var vs := Speedup.Visits(ThreadDirs(gustafsonListing).value, ColumnOf(kind), Strict);
      Speedup.AmdahlListSucceeds(vs, tSeq);
      ScaledListIsScaledAmdahl(vs, tSeq);
    }
  }

  /**
   * Both lists are in ascending thread-count order, and the Gustafson list
   * over a directory is its Amdahl speedups scaled by the thread counts.
   */
  lemma ParallelSpeedupsAscending(seqDir: Option<seq<SeqFile>>, v1: Option<string>, amdahlListing: seq<Entry>, gustafsonListing: seq<Entry>, kind: TimeKind)
    requires ParallelSpeedups(seqDir, v1, amdahlListing, gustafsonListing, kind).Success?
    ensures Ascending(ParallelSpeedups(seqDir, v1, amdahlListing, gustafsonListing, kind).value.0)
    ensures Ascending(ParallelSpeedups(seqDir, v1, amdahlListing, gustafsonListing, kind).value.1)
  {
    var tSeq := ReferenceTime(SequentialTimes(seqDir.value, v1), kind);
    ThreadDirsSpec(amdahlListing);
    ThreadDirsSpec(gustafsonListing);
    var ag := ThreadDirs(amdahlListing).value;
    var gg := ThreadDirs(gustafsonListing).value;
    Speedup.SortedVisitsAscending(ag, ColumnOf(kind), Strict);
    Speedup.SortedVisitsAscending(gg, ColumnOf(kind), Strict);
    var avs := Speedup.Visits(ag, ColumnOf(kind), Strict);
    var gvs := Speedup.Visits(gg, ColumnOf(kind), Strict);
    Speedup.AmdahlListAscending(avs, tSeq);
    ScaledListIsScaledAmdahl(gvs, tSeq);
    Speedup.AmdahlListAscending(gvs, tSeq);
  }
}
