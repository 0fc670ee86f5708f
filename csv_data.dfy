/**
 * The inputs the scaling scripts read, as data: directory listings, and
 * for each file the table `pd.read_csv` would build from it, or nothing
 * when reading it raises.
 *
 * Timing samples are positive reals; each column holds at least one.
 */
module CsvData {
  import opened Wrappers
  import opened Text
  import opened Scaling

  type Duration = r: real | r > 0.0 witness 1.0

  type Column = s: seq<Duration> | |s| > 0 witness [1.0]

  datatype NamedColumn = NamedColumn(name: string, values: Column)

  /** A data frame: its columns in header order. */
  datatype Table = Table(columns: seq<NamedColumn>)

  /** A file inside a directory; `table` is `None` when `pd.read_csv` raises on it. */
  datatype FileEntry = FileEntry(name: string, table: Option<Table>)

  /** An entry of a directory listing; `files` is its own listing when it is a directory. */
  datatype Entry = Entry(name: string, isDir: bool, files: seq<FileEntry>)

  /** The exceptions the scripts let escape or catch. */
  datatype ScriptError = ValueError | KeyError | ReadError | FileNotFoundError

  predicate HasColumn(t: Table, name: string) {
    exists i :: 0 <= i < |t.columns| && t.columns[i].name == name
  }

  /** The column names in header order (`df.columns.tolist()`). */
  function ColumnNames(t: Table): (names: seq<string>)
    ensures |names| == |t.columns|
    ensures forall i :: 0 <= i < |names| ==> names[i] == t.columns[i].name
  {
    seq(|t.columns|, i requires 0 <= i < |t.columns| => t.columns[i].name)
  }

  /** `df[name]`: the first column of that name; a missing name raises KeyError. */
  function Lookup(t: Table, name: string): (r: Option<Column>)
    ensures r.None? <==> !HasColumn(t, name)
    ensures r.Some? ==> exists i :: 0 <= i < |t.columns| && t.columns[i] == NamedColumn(name, r.value)
    decreases |t.columns|
  {
    if t.columns == [] then None
    else if t.columns[0].name == name then Some(t.columns[0].values)
    else
      var r := Lookup(Table(t.columns[1..]), name);
      assert forall i :: 0 <= i < |t.columns| - 1 ==> t.columns[1..][i] == t.columns[i + 1];
      r
  }

  /** `pd.read_csv(file)[column].mean()` */
  function ColumnMean(f: FileEntry, column: string): (r: Result<real, ScriptError>)
    ensures f.table.None? ==> r == Failure(ReadError)
    ensures f.table.Some? && !HasColumn(f.table.value, column) ==> r == Failure(KeyError)
    ensures r.Success? ==> r.value > 0.0
  {
    match f.table
    case None => Failure(ReadError)
    case Some(t) =>
      match Lookup(t, column)
      case None => Failure(KeyError)
      case Some(values) =>
        MeanPositive(values);
        Success(Mean(values))
  }

  /** `pd.read_csv(file)[column].max()` */
  function ColumnPeak(f: FileEntry, column: string): (r: Result<real, ScriptError>)
    ensures f.table.None? ==> r == Failure(ReadError)
    ensures f.table.Some? && !HasColumn(f.table.value, column) ==> r == Failure(KeyError)
    ensures r.Success? ==> r.value > 0.0
  {
    match f.table
    case None => Failure(ReadError)
    case Some(t) =>
      match Lookup(t, column)
      case None => Failure(KeyError)
      case Some(values) =>
        Success(Maximum(values))
  }

  /** What `glob.glob(os.path.join(dir, "*.csv"))` lists: visible names ending in `.csv`. */
  predicate GlobsAsCsv(name: string) {
    EndsWith(name, ".csv") && !StartsWith(name, ".")
  }

  /**
   * `glob.glob(os.path.join(e, "*.csv"))`, in listing order: nothing when
   * the entry is no directory.
   */
  function GlobCsv(e: Entry): (files: seq<FileEntry>)
    ensures forall f :: f in files <==> e.isDir && f in e.files && GlobsAsCsv(f.name)
  {
    if e.isDir then Keep(e.files, true) else []
  }

  /** `[f for f in os.listdir(e) if f.endswith(".csv")]`: hidden files included. */
  function ListCsv(e: Entry): (files: seq<FileEntry>)
    requires e.isDir
    ensures forall f :: f in files <==> f in e.files && EndsWith(f.name, ".csv")
  {
    Keep(e.files, false)
  }

  /** The files whose names end in `.csv`, and, when `visibleOnly`, do not start with a dot. */
  function Keep(files: seq<FileEntry>, visibleOnly: bool): (kept: seq<FileEntry>)
    ensures forall f :: f in kept <==>
      f in files && EndsWith(f.name, ".csv") && (visibleOnly ==> !StartsWith(f.name, "."))
    ensures |kept| <= |files|
  {
    if files == [] then []
    else
      var rest := Keep(files[..|files| - 1], visibleOnly);
      var f := files[|files| - 1];
      assert files == files[..|files| - 1] + [f];
      if EndsWith(f.name, ".csv") && (visibleOnly ==> !StartsWith(f.name, ".")) then rest + [f] else rest
  }
}
