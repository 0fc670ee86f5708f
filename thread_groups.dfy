/**
 * The `threads_<p>[_...]` directories of a benchmark directory, as
 * speedup.py, speedup_parallel.py and speedup_sequentiel.py select and
 * order them, and the timing a group of CSV files yields.
 */
module ThreadGroups {
  import opened Wrappers
  import opened Text
  import opened Scaling
  import opened CsvData

  const THREADS_PREFIX: string := "threads_"

  /** `d.startswith("threads_")` */
  predicate IsThreadDir(name: string) {
    StartsWith(name, THREADS_PREFIX)
  }

  /** A thread directory name splits on `_` into `threads` and the pieces of the rest. */
  lemma ThreadDirPieces(name: string)
    requires IsThreadDir(name)
    ensures Split(name, "_") == ["threads"] + Split(name[8..], "_")
  {
    var a := "threads";
    var b := "_" + name[8..];
    assert name == a + b;
    assert (a + b)[..|a|] == a;
    LacksNoMatch(a + b, "_", |a|);
    SplitSkip(a, b, "_");
    SplitAtSeparator(name[8..], "_");
    var pieces := Split(b, "_");
    assert pieces[0] == "" && pieces[1..] == Split(name[8..], "_");
    assert a + pieces[0] == a;
  }

  /** `d.split("_")[1]`: the text between the first and the second `_`. */
  function CountField(name: string): (field: string)
    requires IsThreadDir(name)
    ensures field == Split(name[8..], "_")[0]
  {
    ThreadDirPieces(name);
    Split(name, "_")[1]
  }

  /** The sort key `int(d.split("_")[1])`; `None` where it raises ValueError. */
  function ThreadCount(name: string): Option<int>
    requires IsThreadDir(name)
  {
    PyInt(CountField(name))
  }

  /** A directory whose count field is exactly `1` has thread count 1. */
  lemma CountFieldOne(name: string)
    requires IsThreadDir(name) && CountField(name) == "1"
    ensures ThreadCount(name) == Some(1)
  {
    StripUnspaced("1");
    assert DigitsValue("1") == 1 by {
      assert "1"[..0] == [];
    }
  }

  /** The thread directory `threads_<p>` for a count written in decimal has that count. */
  lemma ThreadCountOfName(p: int)
    ensures IsThreadDir(THREADS_PREFIX + IntToString(p))
    ensures ThreadCount(THREADS_PREFIX + IntToString(p)) == Some(p)
  {
    var digits := IntToString(p);
    var name := THREADS_PREFIX + digits;
    assert name[..8] == THREADS_PREFIX;
    assert name[8..] == digits;
    IntToStringLacksUnderscore(p);
    SplitNoMatch(digits, "_") by {
      LacksNoMatch(digits, "_", |digits|);
      assert digits[..|digits|] == digits;
    }
    IntToStringStripped(p);
    ParseIntToString(p);
  }

  lemma IntToStringLacksUnderscore(p: int)
    ensures var s := IntToString(p); Lacks(s[..|s|], '_')
  {
    var s := IntToString(p);
    assert s[..|s|] == s;
    if p < 0 {
      assert s == "-" + NatToString(-p);
      assert forall i :: 1 <= i < |s| ==> s[i] == NatToString(-p)[i - 1];
    }
  }

  lemma IntToStringStripped(p: int)
    ensures Strip(IntToString(p)) == IntToString(p)
  {
    var s := IntToString(p);
    var digits := NatToString(if p < 0 then -p else p);
    assert IsDigit(digits[|digits| - 1]);
    if p < 0 {
      assert s == "-" + digits;
      assert s[|s| - 1] == digits[|digits| - 1];
    } else {
      assert IsDigit(digits[0]);
    }
    StripUnspaced(s);
  }

  /** A thread directory with its thread count. */
  datatype Group = Group(threads: int, entry: Entry)

  predicate WellKeyed(g: Group) {
    IsThreadDir(g.entry.name) && ThreadCount(g.entry.name) == Some(g.threads)
  }

  predicate SortedByThreads(gs: seq<Group>) {
    forall i, j :: 0 <= i < j < |gs| ==> gs[i].threads <= gs[j].threads
  }

  /** `g` goes after every group whose count is not larger: Python's sort is stable. */
  function Insert(gs: seq<Group>, g: Group): (r: seq<Group>)
    ensures multiset(r) == multiset(gs) + multiset{g}
    ensures |r| == |gs| + 1
  {
    if gs == [] then [g]
    else if gs[|gs| - 1].threads <= g.threads then gs + [g]
    else
      assert gs == gs[..|gs| - 1] + [gs[|gs| - 1]];
      Insert(gs[..|gs| - 1], g) + [gs[|gs| - 1]]
  }

  /** `sorted(..., key=thread count)`, by insertion. */
  function SortGroups(gs: seq<Group>): (r: seq<Group>)
    ensures multiset(r) == multiset(gs)
  {
    if gs == [] then []
    else
      assert gs == gs[..|gs| - 1] + [gs[|gs| - 1]];
      Insert(SortGroups(gs[..|gs| - 1]), gs[|gs| - 1])
  }

  lemma InsertMembers(gs: seq<Group>, g: Group)
    ensures forall x :: x in Insert(gs, g) ==> x in gs || x == g
  {
    forall x | x in Insert(gs, g)
      ensures x in gs || x == g
    {
      assert x in multiset(Insert(gs, g));
    }
  }

  lemma SortedSnoc(gs: seq<Group>, x: Group)
    requires SortedByThreads(gs)
    requires forall y :: y in gs ==> y.threads <= x.threads
    ensures SortedByThreads(gs + [x])
  {
    var r := gs + [x];
    forall i, j | 0 <= i < j < |r|
      ensures r[i].threads <= r[j].threads
    {
      if j == |gs| {
        assert r[i] == gs[i];
      } else {
        assert r[i] == gs[i] && r[j] == gs[j];
      }
    }
  }

  lemma {:induction false} InsertSorted(gs: seq<Group>, g: Group)
    requires SortedByThreads(gs)
    ensures SortedByThreads(Insert(gs, g))
  {
    if gs == [] {
    } else if gs[|gs| - 1].threads <= g.threads {
      forall y | y in gs
        ensures y.threads <= g.threads
      {
        var i :| 0 <= i < |gs| && gs[i] == y;
        assert gs[i].threads <= gs[|gs| - 1].threads;
      }
      SortedSnoc(gs, g);
    } else {
      var init := gs[..|gs| - 1];
      var last := gs[|gs| - 1];
      InsertSorted(init, g);
      InsertMembers(init, g);
      forall y | y in Insert(init, g)
        ensures y.threads <= last.threads
      {
        if y != g {
          var i :| 0 <= i < |init| && init[i] == y;
          assert gs[i] == y;
        }
      }
      SortedSnoc(Insert(init, g), last);
    }
  }

  /** The sorted groups are in non-decreasing thread-count order. */
  lemma {:induction false} SortGroupsSorted(gs: seq<Group>)
    ensures SortedByThreads(SortGroups(gs))
  {
    if gs != [] {
      SortGroupsSorted(gs[..|gs| - 1]);
      InsertSorted(SortGroups(gs[..|gs| - 1]), gs[|gs| - 1]);
    }
  }

  /** The groups with thread count `p`, in order. */
  function WithCount(gs: seq<Group>, p: int): seq<Group> {
    if gs == [] then []
    else WithCount(gs[..|gs| - 1], p) + (if gs[|gs| - 1].threads == p then [gs[|gs| - 1]] else [])
  }

  lemma {:induction false} WithCountConcat(a: seq<Group>, b: seq<Group>, p: int)
    ensures WithCount(a + b, p) == WithCount(a, p) + WithCount(b, p)
    decreases |b|
  {
    if b == [] {
      assert a + b == a;
    } else {
      assert (a + b)[..|a + b| - 1] == a + b[..|b| - 1];
      WithCountConcat(a, b[..|b| - 1], p);
    }
  }

  lemma WithCountSingle(x: Group, p: int)
    ensures WithCount([x], p) == if x.threads == p then [x] else []
  {
    assert [x][..0] == [];
  }

  lemma {:induction false} InsertStable(gs: seq<Group>, g: Group, p: int)
    ensures WithCount(Insert(gs, g), p) == WithCount(gs, p) + (if g.threads == p then [g] else [])
  {
    WithCountSingle(g, p);
    if gs == [] {
    } else if gs[|gs| - 1].threads <= g.threads {
      WithCountConcat(gs, [g], p);
    } else {
      var init := gs[..|gs| - 1];
      var last := gs[|gs| - 1];
      var ins := Insert(init, g);
      assert Insert(gs, g) == ins + [last];
      assert gs == init + [last];
      InsertStable(init, g, p);
      WithCountSingle(last, p);
      WithCountConcat(ins, [last], p);
      WithCountConcat(init, [last], p);
      var before := WithCount(init, p);
      if g.threads == p {
        assert WithCount([last], p) == [];
        assert WithCount(Insert(gs, g), p) == before + [g];
        assert WithCount(gs, p) == before;
      } else {
        assert WithCount(ins, p) == before;
        assert WithCount(Insert(gs, g), p) == before + WithCount([last], p);
        assert WithCount(gs, p) == before + WithCount([last], p);
      }
    }
  }

  /**
   * The sort is stable: for every thread count, the groups with that
   * count keep their listing order.
   */
  lemma {:induction false} SortGroupsStable(gs: seq<Group>, p: int)
    ensures WithCount(SortGroups(gs), p) == WithCount(gs, p)
  {
    if gs != [] {
      var init := gs[..|gs| - 1];
      SortGroupsStable(init, p);
      InsertStable(SortGroups(init), gs[|gs| - 1], p);
    }
  }

  /**
   * The thread directories of a listing with their counts, in listing
   * order; ValueError when some count does not parse.
   */
  function Keyed(listing: seq<Entry>): (r: Result<seq<Group>, ScriptError>)
    ensures r.Failure? ==> r.error == ValueError
  {
    if listing == [] then Success([])
    else
      var e := listing[|listing| - 1];
      match Keyed(listing[..|listing| - 1])
      case Failure(err) => Failure(err)
      case Success(prev) =>
        if !IsThreadDir(e.name) then Success(prev)
        else
          match ThreadCount(e.name)
          case None => Failure(ValueError)
          case Some(p) => Success(prev + [Group(p, e)])
  }

  predicate Unparsable(e: Entry) {
    IsThreadDir(e.name) && ThreadCount(e.name).None?
  }

  /** `[d for d in listing if d.startswith("threads_")]` */
  function ThreadEntries(listing: seq<Entry>): seq<Entry> {
    if listing == [] then []
    else
      var e := listing[|listing| - 1];
      ThreadEntries(listing[..|listing| - 1]) + if IsThreadDir(e.name) then [e] else []
  }

  /** The directories the groups stand for, in order. */
  function EntriesOf(gs: seq<Group>): seq<Entry> {
    seq(|gs|, i requires 0 <= i < |gs| => gs[i].entry)
  }

  lemma EntriesSnoc(gs: seq<Group>, g: Group)
    ensures EntriesOf(gs + [g]) == EntriesOf(gs) + [g.entry]
  {
  }

  /** The keyed directories are the listing's thread directories, in order. */
  lemma {:induction false} KeyedEntries(listing: seq<Entry>)
    ensures Keyed(listing).Success? ==> EntriesOf(Keyed(listing).value) == ThreadEntries(listing)
  {
    if listing != [] {
      var init := listing[..|listing| - 1];
      var e := listing[|listing| - 1];
      KeyedEntries(init);
      var r := Keyed(listing);
      if r.Success? && IsThreadDir(e.name) {
        EntriesSnoc(Keyed(init).value, r.value[|r.value| - 1]);
      }
    }
  }

  /**
   * The keyed list fails exactly when some thread directory's count does
   * not parse; otherwise it holds the thread directories of the listing,
   * each with its count, in listing order and each as often as it is
   * listed.
   */
  lemma {:induction false} KeyedSpec(listing: seq<Entry>)
    ensures Keyed(listing).Failure? <==> exists e :: e in listing && Unparsable(e)
    ensures Keyed(listing).Success? ==> forall g :: g in Keyed(listing).value ==> WellKeyed(g) && g.entry in listing
    ensures Keyed(listing).Success? ==> forall e :: e in listing && IsThreadDir(e.name) ==> exists g :: g in Keyed(listing).value && g.entry == e
    ensures Keyed(listing).Success? ==> EntriesOf(Keyed(listing).value) == ThreadEntries(listing)
  {
    KeyedEntries(listing);
    if listing != [] {
      var init := listing[..|listing| - 1];
      var e := listing[|listing| - 1];
      assert listing == init + [e];
      KeyedSpec(init);
      var r := Keyed(listing);
      assert forall x :: x in listing <==> x in init || x == e;
      if Keyed(init).Failure? {
        var x :| x in init && Unparsable(x);
        assert x in listing;
      } else if Unparsable(e) {
        assert r.Failure?;
      } else {
        assert r.Success?;
      }
      if Keyed(init).Success? && r.Success? {
        var prev := Keyed(init).value;
        assert forall g :: g in r.value ==> g in prev || g.entry == e;
        forall x | x in listing && IsThreadDir(x.name)
          ensures exists g :: g in r.value && g.entry == x
        {
          if x != e {
            assert x in init;
            var g :| g in prev && g.entry == x;
            assert g in r.value;
          } else {
            assert r.value[|r.value| - 1].entry == e;
          }
        }
      }
    }
  }

  /**
   * `sorted([d for d in os.listdir(path) if d.startswith("threads_")],
   * key=lambda x: int(x.split("_")[1]))`
   */
  function ThreadDirs(listing: seq<Entry>): Result<seq<Group>, ScriptError> {
    var keyed :- Keyed(listing);
    Success(SortGroups(keyed))
  }

  /** Inserting a group adds its directory once to the directories. */
  lemma {:induction false} InsertEntries(gs: seq<Group>, g: Group)
    ensures multiset(EntriesOf(Insert(gs, g))) == multiset(EntriesOf(gs)) + multiset{g.entry}
  {
    if gs == [] {
    } else if gs[|gs| - 1].threads <= g.threads {
      EntriesSnoc(gs, g);
    } else {
      var init := gs[..|gs| - 1];
      var last := gs[|gs| - 1];
      assert gs == init + [last];
      InsertEntries(init, g);
      EntriesSnoc(Insert(init, g), last);
      EntriesSnoc(init, last);
    }
  }

  /** Sorting permutes the directories. */
  lemma {:induction false} SortEntries(gs: seq<Group>)
    ensures multiset(EntriesOf(SortGroups(gs))) == multiset(EntriesOf(gs))
  {
    if gs != [] {
      var init := gs[..|gs| - 1];
      var last := gs[|gs| - 1];
      assert gs == init + [last];
      SortEntries(init);
      InsertEntries(SortGroups(init), last);
      EntriesSnoc(init, last);
    }
  }

  /**
   * The selection fails with ValueError exactly when some count does not
   * parse. Otherwise it is sorted by count, each directory carries its
   * parsed count, its directories are a permutation of the listing's
   * thread directories, and the directories of equal count keep their
   * listing order.
   */
  lemma ThreadDirsSpec(listing: seq<Entry>)
    ensures ThreadDirs(listing).Failure? <==> exists e :: e in listing && Unparsable(e)
    ensures ThreadDirs(listing).Failure? ==> ThreadDirs(listing).error == ValueError
    ensures ThreadDirs(listing).Success? ==> (
      var gs := ThreadDirs(listing).value;
      && SortedByThreads(gs)
      && (forall g :: g in gs ==> WellKeyed(g) && g.entry in listing)
      && (forall e :: e in listing && IsThreadDir(e.name) ==> exists g :: g in gs && g.entry == e)
      && multiset(EntriesOf(gs)) == multiset(ThreadEntries(listing))
      && (forall p :: WithCount(gs, p) == WithCount(Keyed(listing).value, p)))
  {
    KeyedSpec(listing);
    var r := Keyed(listing);
    if r.Success? {
      var gs := SortGroups(r.value);
      SortGroupsSorted(r.value);
      SortEntries(r.value);
      forall p
        ensures WithCount(gs, p) == WithCount(r.value, p)
      {
        SortGroupsStable(r.value, p);
      }
      forall g | g in gs
        ensures WellKeyed(g) && g.entry in listing
      {
        assert g in multiset(gs);
        assert g in multiset(r.value);
      }
      forall e | e in listing && IsThreadDir(e.name)
        ensures exists g :: g in gs && g.entry == e
      {
        var g :| g in r.value && g.entry == e;
        assert g in multiset(r.value);
        assert g in multiset(gs);
      }
    }
  }

  /** `next((d for d in thread_dirs if d.split("_")[1] == "1"), None)` */
  function Reference(gs: seq<Group>): (r: Option<nat>)
    requires forall i :: 0 <= i < |gs| ==> IsThreadDir(gs[i].entry.name)
    ensures r.Some? ==> r.value < |gs| && CountField(gs[r.value].entry.name) == "1"
    ensures r.Some? ==> forall i :: 0 <= i < r.value ==> CountField(gs[i].entry.name) != "1"
    ensures r.None? ==> forall i :: 0 <= i < |gs| ==> CountField(gs[i].entry.name) != "1"
  {
    if gs == [] then None
    else if CountField(gs[0].entry.name) == "1" then Some(0)
    else
      match Reference(gs[1..])
      case None => None
      case Some(k) => Some(k + 1)
  }

  /** Whether the files that fail to read are skipped (speedup.py) or abort the script. */
  datatype ReadPolicy = SkipFailures | Strict

  /**
   * The column means of the files, in order, as the loops appending to
   * `all_times` collect them.
   */
  function FileTimes(files: seq<FileEntry>, column: string, policy: ReadPolicy): (r: Result<seq<real>, ScriptError>)
    ensures r.Success? ==> AllPositive(r.value) && |r.value| <= |files|
    ensures policy == SkipFailures ==> r.Success?
  {
    if files == [] then Success([])
    else
      match FileTimes(files[..|files| - 1], column, policy)
      case Failure(err) => Failure(err)
      case Success(prev) =>
        match ColumnMean(files[|files| - 1], column)
        case Success(t) => Success(prev + [t])
        case Failure(err) => if policy == SkipFailures then Success(prev) else Failure(err)
  }

  predicate AllReadable(files: seq<FileEntry>, column: string) {
    forall i :: 0 <= i < |files| ==> ColumnMean(files[i], column).Success?
  }

  /** When every file reads, the two policies collect the same times, one per file. */
  lemma {:induction false} FileTimesPoliciesAgree(files: seq<FileEntry>, column: string)
    requires AllReadable(files, column)
    ensures FileTimes(files, column, Strict) == FileTimes(files, column, SkipFailures)
    ensures FileTimes(files, column, Strict).Success? && |FileTimes(files, column, Strict).value| == |files|
  {
    if files != [] {
      FileTimesPoliciesAgree(files[..|files| - 1], column);
    }
  }

  /** Under the strict policy, a file that does not read makes the whole group fail. */
  lemma {:induction false} FileTimesStrictFails(files: seq<FileEntry>, column: string, k: nat)
    requires k < |files| && ColumnMean(files[k], column).Failure?
    ensures FileTimes(files, column, Strict).Failure?
  {
    if k < |files| - 1 {
      FileTimesStrictFails(files[..|files| - 1], column, k);
    }
  }

  /** The group's time: the mean of its files' times, `None` when none was collected. */
  function GroupTime(g: Group, column: string, policy: ReadPolicy): (r: Result<Option<real>, ScriptError>)
    ensures r.Success? && r.value.Some? ==> r.value.value > 0.0
  {
    var times :- FileTimes(GlobCsv(g.entry), column, policy);
    if times == [] then Success(None)
    else
      MeanPositive(times);
      Success(Some(Mean(times)))
  }

  /** Once a prefix of the files fails, so do all the files. */
  lemma {:induction false} FileTimesFailureSticks(files: seq<FileEntry>, column: string, policy: ReadPolicy, k: nat)
    requires k <= |files| && FileTimes(files[..k], column, policy).Failure?
    ensures FileTimes(files, column, policy) == FileTimes(files[..k], column, policy)
    decreases |files| - k
  {
    if k < |files| {
      assert files[..k + 1][..k] == files[..k];
      FileTimesFailureSticks(files, column, policy, k + 1);
    } else {
      assert files[..k] == files;
    }
  }

  /**
   * The loop over the CSV files of one directory that appends each file's
   * column mean to `all_times`.
   */
  method ReadTimes(files: seq<FileEntry>, column: string, policy: ReadPolicy) returns (r: Result<seq<real>, ScriptError>)
    ensures r == FileTimes(files, column, policy)
  {
    var allTimes: seq<real> := [];
    for i := 0 to |files|
      invariant FileTimes(files[..i], column, policy) == Success(allTimes)
    {
      assert files[..i + 1][..i] == files[..i];
      var mean := ColumnMean(files[i], column);
      if mean.Success? {
        allTimes := allTimes + [mean.value];
      } else if policy == Strict {
        FileTimesFailureSticks(files, column, policy, i + 1);
        return Failure(mean.error);
      }
    }
    assert files[..|files|] == files;
    return Success(allTimes);
  }

  /** Globs a thread directory, collects its times, and averages them when there are any. */
  method ReadGroupTime(g: Group, column: string, policy: ReadPolicy) returns (r: Result<Option<real>, ScriptError>)
    ensures r == GroupTime(g, column, policy)
  {
    var csvFiles := GlobCsv(g.entry);
    var allTimes :- ReadTimes(csvFiles, column, policy);
    if allTimes == [] {
      return Success(None);
    }
    MeanPositive(allTimes);
    return Success(Some(Mean(allTimes)));
  }
}
