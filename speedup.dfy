/**
 * `calculer_speedup_et_efficacite` of speedup.py and speedup_parallel.py:
 * from the `threads_*` directories of an Amdahl benchmark (fixed size) and
 * of a Gustafson benchmark (size growing with the thread count), the
 * speedup and efficiency lists of both laws.
 *
 * The two scripts differ only in what a file that fails to read does:
 * speedup.py skips it, speedup_parallel.py lets the exception escape.
 * A `ReadPolicy` parameter selects between them. An exception that
 * escapes the function is a `Failure`.
 */
module Speedup {
  import opened Wrappers
  import opened Text
  import opened Scaling
  import opened CsvData
  import opened ThreadGroups

  /** A Gustafson speedup with the problem size read from the directory name. */
  datatype SizedPoint = SizedPoint(threads: int, value: real, size: Option<int>)

  /** A Gustafson efficiency with the problem size read from the directory name. */
  datatype SizedRate = SizedRate(threads: int, value: Quotient, size: Option<int>)

  /**
   * The function's return value: `(None, None)` without an Amdahl
   * reference, the Amdahl lists and `None, None` without a Gustafson
   * reference, and all four lists otherwise.
   */
  datatype Outcome =
    | NoAmdahlReference
    | NoGustafsonReference(amdahlSpeedups: seq<Point>, amdahlEfficiencies: seq<Rate>)
    | Complete(amdahlSpeedups: seq<Point>, amdahlEfficiencies: seq<Rate>,
               gustafsonSpeedups: seq<SizedPoint>, gustafsonEfficiencies: seq<SizedRate>)

  predicate AllWellKeyed(gs: seq<Group>) {
    forall g :: g in gs ==> WellKeyed(g)
  }

  /**
   * `t1`: the time of the first directory whose count field is `1`;
   * `None` when there is no such directory or it yields no time.
   */
  function ReferenceTime(gs: seq<Group>, column: string, policy: ReadPolicy): Result<Option<real>, ScriptError>
    requires AllWellKeyed(gs)
  {
    assert forall i :: 0 <= i < |gs| ==> gs[i] in gs;
    match Reference(gs)
    case None => Success(None)
    case Some(k) => GroupTime(gs[k], column, policy)
  }

  /** `int(parts[3]) if len(parts) > 3 else None` for `parts = name.split("_")`. */
  function SizeField(name: string): (r: Result<Option<int>, ScriptError>)
    ensures r.Failure? ==> r.error == ValueError
    ensures r == Success(None) <==> |Split(name, "_")| <= 3
    ensures r.Success? && r.value.Some? ==> PyInt(Split(name, "_")[3]) == r.value
  {
    var parts := Split(name, "_");
    if |parts| > 3 then
      match PyInt(parts[3])
      case None => Failure(ValueError)
      case Some(n) => Success(Some(n))
    else Success(None)
  }

  datatype VisitData = VisitData(threads: int, size: Result<Option<int>, ScriptError>, time: Result<Option<real>, ScriptError>)

  predicate PositiveTime(v: VisitData) {
    v.time.Success? && v.time.value.Some? ==> v.time.value.value > 0.0
  }

  /**
   * One thread directory as the loops see it: its thread count, what
   * parsing its size field gives (only the Gustafson loop does), and what
   * reading its CSV files gives.
   */
  type Visit = v: VisitData | PositiveTime(v) witness VisitData(0, Success(None), Success(None))

  /** The visits of the directories, in order. */
  function Visits(gs: seq<Group>, column: string, policy: ReadPolicy): (vs: seq<Visit>)
    ensures |vs| == |gs|
    ensures forall i :: 0 <= i < |gs| ==>
      vs[i] == VisitData(gs[i].threads, SizeField(gs[i].entry.name), GroupTime(gs[i], column, policy))
  {
    seq(|gs|, i requires 0 <= i < |gs| =>
      VisitData(gs[i].threads, SizeField(gs[i].entry.name), GroupTime(gs[i], column, policy)))
  }

  /** The Amdahl speedups `t1 / avg_time`, one per directory that yields a time, in order. */
  function AmdahlList(vs: seq<Visit>, t1: real): Result<seq<Point>, ScriptError> {
    if vs == [] then Success([])
    else
      var prev :- AmdahlList(vs[..|vs| - 1], t1);
      var v := vs[|vs| - 1];
      var time :- v.time;
      Success(prev + if time.Some? then [Point(v.threads, AmdahlSpeedup(t1, time.value))] else [])
  }

  /**
   * The Gustafson speedups `t1 / (avg_time / p)` with their sizes, one per
   * directory that yields a time, in order. The size is parsed before the
   * directory's files are read.
   */
  function GustafsonList(vs: seq<Visit>, t1: real): Result<seq<SizedPoint>, ScriptError> {
    if vs == [] then Success([])
    else
      var prev :- GustafsonList(vs[..|vs| - 1], t1);
      var v := vs[|vs| - 1];
      var size :- v.size;
      var time :- v.time;
      Success(prev + if time.Some? then [SizedPoint(v.threads, GustafsonSpeedup(t1, time.value, v.threads), size)] else [])
  }

  /** `[(p, s/p, size) for p, s, size in speedups]` */
  function SizedEfficiencies(speedups: seq<SizedPoint>): seq<SizedRate> {
    seq(|speedups|, i requires 0 <= i < |speedups| =>
      SizedRate(speedups[i].threads, Divide(speedups[i].value, speedups[i].threads), speedups[i].size))
  }

  lemma SizedEfficienciesSnoc(speedups: seq<SizedPoint>, p: SizedPoint)
    ensures SizedEfficiencies(speedups + [p]) ==
      SizedEfficiencies(speedups) + [SizedRate(p.threads, Divide(p.value, p.threads), p.size)]
  {
  }

  /**
   * What one benchmark directory yields before its lists are built:
   * nothing usable without a reference time, or the reference time `t1`
   * and the visits of its thread directories in sorted order.
   */
  datatype Survey = NoReference | Surveyed(t1: real, visits: seq<Visit>)

  /**
   * The visits ascend in thread count, a size field that does not parse
   * raises ValueError, and one of the visits is a 1-thread directory
   * whose time is the reference time.
   */
  predicate SurveyFacts(s: Survey)
    requires s.Surveyed?
  {
    && VisitsAscending(s.visits)
    && (forall i :: 0 <= i < |s.visits| && s.visits[i].size.Failure? ==> s.visits[i].size.error == ValueError)
    && exists k :: 0 <= k < |s.visits| && s.visits[k].threads == 1 && s.visits[k].time == Success(Some(s.t1))
  }

  /**
   * Listing, sorting and keying the thread directories, then reading the
   * reference directory. A directory that reads is never lost under
   * speedup.py, which lets only ValueError escape.
   */
  function SurveyOf(listing: seq<Entry>, column: string, policy: ReadPolicy): (r: Result<Survey, ScriptError>)
    ensures r.Success? && r.value.Surveyed? ==> SurveyFacts(r.value)
    ensures policy == SkipFailures && r.Failure? ==> r.error == ValueError
    ensures policy == SkipFailures && r.Success? && r.value.Surveyed? ==>
      forall i :: 0 <= i < |r.value.visits| ==> r.value.visits[i].time.Success?
  {
    ThreadDirsSpec(listing);
    var dirs :- ThreadDirs(listing);
    var t1 :- ReferenceTime(dirs, column, policy);
    if t1.None? then Success(NoReference)
    else
      SurveyFactsHold(dirs, column, policy);
      Success(Surveyed(t1.value, Visits(dirs, column, policy)))
  }

  lemma SurveyFactsHold(gs: seq<Group>, column: string, policy: ReadPolicy)
    requires AllWellKeyed(gs) && SortedByThreads(gs)
    requires ReferenceTime(gs, column, policy).Success? && ReferenceTime(gs, column, policy).value.Some?
    ensures SurveyFacts(Surveyed(ReferenceTime(gs, column, policy).value.value, Visits(gs, column, policy)))
    ensures policy == SkipFailures ==> forall i :: 0 <= i < |gs| ==> Visits(gs, column, policy)[i].time.Success?
  {
    var vs := Visits(gs, column, policy);
    var t1 := ReferenceTime(gs, column, policy).value.value;
    SortedVisitsAscending(gs, column, policy);
    VisitSizeErrors(gs, column, policy);
    ReferenceVisit(gs, column, policy);
    if policy == SkipFailures {
      SkippedVisitsRead(gs, column);
    }
  }

  lemma VisitSizeErrors(gs: seq<Group>, column: string, policy: ReadPolicy)
    ensures var vs := Visits(gs, column, policy);
      forall i :: 0 <= i < |vs| && vs[i].size.Failure? ==> vs[i].size.error == ValueError
  {
  }

  lemma ReferenceVisit(gs: seq<Group>, column: string, policy: ReadPolicy)
    requires AllWellKeyed(gs)
    requires ReferenceTime(gs, column, policy).Success? && ReferenceTime(gs, column, policy).value.Some?
    ensures var vs := Visits(gs, column, policy);
      exists k :: 0 <= k < |vs| && vs[k].threads == 1 && vs[k].time == Success(Some(ReferenceTime(gs, column, policy).value.value))
  {
    ReferenceTimeIsOneThread(gs, column, policy);
    var k :| 0 <= k < |gs| && gs[k].threads == 1 && GroupTime(gs[k], column, policy) == ReferenceTime(gs, column, policy);
    assert Visits(gs, column, policy)[k].time == GroupTime(gs[k], column, policy);
  }

  lemma SkippedVisitsRead(gs: seq<Group>, column: string)
    ensures forall i :: 0 <= i < |gs| ==> Visits(gs, column, SkipFailures)[i].time.Success?
  {
  }

  /**
   * The four lists from the two surveys, in the script's order: the
   * Amdahl benchmark first, stopping without its reference; then the
   * Gustafson benchmark.
   */
  function Assemble(amdahl: Result<Survey, ScriptError>, gustafson: Result<Survey, ScriptError>): Result<Outcome, ScriptError> {
    var a :- amdahl;
    if a.NoReference? then Success(NoAmdahlReference)
    else
      var amdahlSpeedups :- AmdahlList(a.visits, a.t1);
      var g :- gustafson;
      if g.NoReference? then Success(NoGustafsonReference(amdahlSpeedups, Efficiencies(amdahlSpeedups)))
      else
        var gustafsonSpeedups :- GustafsonList(g.visits, g.t1);
        Success(Complete(amdahlSpeedups, Efficiencies(amdahlSpeedups), gustafsonSpeedups, SizedEfficiencies(gustafsonSpeedups)))
  }

  /** `calculer_speedup_et_efficacite(temps_type)` over the two directory listings. */
  function SpeedupAndEfficiency(amdahlListing: seq<Entry>, gustafsonListing: seq<Entry>, column: string, policy: ReadPolicy): Result<Outcome, ScriptError> {
    Assemble(SurveyOf(amdahlListing, column, policy), SurveyOf(gustafsonListing, column, policy))
  }

  // ---------------------------------------------------------------------
  // Unfolding the lists one directory at a time

  lemma {:induction false} AmdahlListFailureSticks(vs: seq<Visit>, t1: real, k: nat)
    requires k <= |vs| && AmdahlList(vs[..k], t1).Failure?
    ensures AmdahlList(vs, t1) == AmdahlList(vs[..k], t1)
    decreases |vs| - k
  {
    if k < |vs| {
      assert vs[..k + 1][..k] == vs[..k];
      AmdahlListFailureSticks(vs, t1, k + 1);
    } else {
      assert vs[..k] == vs;
    }
  }

  lemma AmdahlListStep(vs: seq<Visit>, t1: real, i: nat)
    requires i < |vs| && AmdahlList(vs[..i], t1).Success?
    ensures var prev := AmdahlList(vs[..i], t1).value;
      var time := vs[i].time;
      AmdahlList(vs[..i + 1], t1) ==
        if time.Failure? then Failure(time.error)
        else if time.value.None? then Success(prev)
        else Success(prev + [Point(vs[i].threads, AmdahlSpeedup(t1, time.value.value))])
  {
    var prefix := vs[..i + 1];
    assert prefix != [] && prefix[..|prefix| - 1] == vs[..i] && prefix[|prefix| - 1] == vs[i];
    var prev := AmdahlList(vs[..i], t1).value;
    if vs[i].time.Success? && vs[i].time.value.None? {
      assert prev + [] == prev;
    }
  }

  lemma {:induction false} GustafsonListFailureSticks(vs: seq<Visit>, t1: real, k: nat)
    requires k <= |vs| && GustafsonList(vs[..k], t1).Failure?
    ensures GustafsonList(vs, t1) == GustafsonList(vs[..k], t1)
    decreases |vs| - k
  {
    if k < |vs| {
      assert vs[..k + 1][..k] == vs[..k];
      GustafsonListFailureSticks(vs, t1, k + 1);
    } else {
      assert vs[..k] == vs;
    }
  }

  lemma GustafsonListStep(vs: seq<Visit>, t1: real, i: nat)
    requires i < |vs| && GustafsonList(vs[..i], t1).Success?
    ensures var prev := GustafsonList(vs[..i], t1).value;
      var size := vs[i].size;
      var time := vs[i].time;
      GustafsonList(vs[..i + 1], t1) ==
        if size.Failure? then Failure(size.error)
        else if time.Failure? then Failure(time.error)
        else if time.value.None? then Success(prev)
        else Success(prev + [SizedPoint(vs[i].threads, GustafsonSpeedup(t1, time.value.value, vs[i].threads), size.value)])
  {
    var prefix := vs[..i + 1];
    assert prefix != [] && prefix[..|prefix| - 1] == vs[..i] && prefix[|prefix| - 1] == vs[i];
    var prev := GustafsonList(vs[..i], t1).value;
    if vs[i].size.Success? && vs[i].time.Success? && vs[i].time.value.None? {
      assert prev + [] == prev;
    }
  }

  // ---------------------------------------------------------------------
  // The loops of the script

  /** Reads the reference directory, when there is one. */
  method ReadReferenceTime(gs: seq<Group>, column: string, policy: ReadPolicy) returns (r: Result<Option<real>, ScriptError>)
    requires AllWellKeyed(gs)
    ensures r == ReferenceTime(gs, column, policy)
  {
    assert forall i :: 0 <= i < |gs| ==> gs[i] in gs;
    var refDir := Reference(gs);
    if refDir.None? {
      return Success(None);
    }
    r := ReadGroupTime(gs[refDir.value], column, policy);
  }

  /** What one directory does to the Amdahl loop, from the time read for it. */
  lemma AmdahlLoopStep(vs: seq<Visit>, t1: real, i: nat, speedups: seq<Point>, time: Result<Option<real>, ScriptError>)
    requires i < |vs| && AmdahlList(vs[..i], t1) == Success(speedups) && time == vs[i].time
    ensures time.Failure? ==> AmdahlList(vs, t1) == Failure(time.error)
    ensures time.Success? && time.value.None? ==> AmdahlList(vs[..i + 1], t1) == Success(speedups)
    ensures time.Success? && time.value.Some? ==>
      AmdahlList(vs[..i + 1], t1) == Success(speedups + [Point(vs[i].threads, t1 / time.value.value)])
  {
    AmdahlListStep(vs, t1, i);
    if time.Failure? {
      AmdahlListFailureSticks(vs, t1, i + 1);
    }
  }

  /** The Amdahl loop: one speedup and one efficiency per directory that yields a time. */
  method AmdahlLaw(gs: seq<Group>, t1: real, column: string, policy: ReadPolicy) returns (r: Result<(seq<Point>, seq<Rate>), ScriptError>)
    ensures var expected := AmdahlList(Visits(gs, column, policy), t1);
      r == if expected.Failure? then Failure(expected.error) else Success((expected.value, Efficiencies(expected.value)))
  {
    ghost var vs := Visits(gs, column, policy);
    var speedups: seq<Point> := [];
    var efficiencies: seq<Rate> := [];
    for i := 0 to |gs|
      invariant AmdahlList(vs[..i], t1) == Success(speedups)
      invariant efficiencies == Efficiencies(speedups)
    {
      var threadCount := gs[i].threads;
      var time := ReadGroupTime(gs[i], column, policy);
      assert threadCount == vs[i].threads && time == vs[i].time;
      AmdahlLoopStep(vs, t1, i, speedups, time);
      if time.Failure? {
        return Failure(time.error);
      }
      if time.value.Some? {
        var speedup := t1 / time.value.value;
        EfficienciesSnoc(speedups, Point(threadCount, speedup));
        speedups := speedups + [Point(threadCount, speedup)];
        efficiencies := efficiencies + [Rate(threadCount, Divide(speedup, threadCount))];
      }
    }
    assert vs[..|gs|] == vs;
    return Success((speedups, efficiencies));
  }

  /** What one directory does to the Gustafson loop, from the size and the time read for it. */
  lemma GustafsonLoopStep(vs: seq<Visit>, t1: real, i: nat, speedups: seq<SizedPoint>,
                          size: Result<Option<int>, ScriptError>, time: Result<Option<real>, ScriptError>)
    requires i < |vs| && GustafsonList(vs[..i], t1) == Success(speedups) && size == vs[i].size && time == vs[i].time
    ensures size.Failure? ==> GustafsonList(vs, t1) == Failure(size.error)
    ensures size.Success? && time.Failure? ==> GustafsonList(vs, t1) == Failure(time.error)
    ensures size.Success? && time.Success? && time.value.None? ==> GustafsonList(vs[..i + 1], t1) == Success(speedups)
    ensures size.Success? && time.Success? && time.value.Some? ==>
      var p := vs[i].threads;
      GustafsonList(vs[..i + 1], t1) ==
        Success(speedups + [SizedPoint(p, if p == 0 then 0.0 else t1 / (time.value.value / p as real), size.value)])
  {
    GustafsonListStep(vs, t1, i);
    if size.Failure? || time.Failure? {
      GustafsonListFailureSticks(vs, t1, i + 1);
    }
  }

  /** The Gustafson loop: one speedup and one efficiency, with the size, per directory that yields a time. */
  method GustafsonLaw(gs: seq<Group>, t1: real, column: string, policy: ReadPolicy) returns (r: Result<(seq<SizedPoint>, seq<SizedRate>), ScriptError>)
    ensures var expected := GustafsonList(Visits(gs, column, policy), t1);
      r == if expected.Failure? then Failure(expected.error) else Success((expected.value, SizedEfficiencies(expected.value)))
  {
    ghost var vs := Visits(gs, column, policy);
    var speedups: seq<SizedPoint> := [];
    var efficiencies: seq<SizedRate> := [];
    for i := 0 to |gs|
      invariant GustafsonList(vs[..i], t1) == Success(speedups)
      invariant efficiencies == SizedEfficiencies(speedups)
    {
      var threadCount := gs[i].threads;
      var size := SizeField(gs[i].entry.name);
      var time := ReadGroupTime(gs[i], column, policy);
      assert threadCount == vs[i].threads && size == vs[i].size && time == vs[i].time;
      GustafsonLoopStep(vs, t1, i, speedups, size, time);
      if size.Failure? {
        return Failure(size.error);
      }
      if time.Failure? {
        return Failure(time.error);
      }
      if time.value.Some? {
        var speedup := if threadCount == 0 then 0.0 else t1 / (time.value.value / threadCount as real);
        var point := SizedPoint(threadCount, speedup, size.value);
        SizedEfficienciesSnoc(speedups, point);
        speedups := speedups + [point];
        efficiencies := efficiencies + [SizedRate(threadCount, Divide(speedup, threadCount), size.value)];
      }
    }
    assert vs[..|gs|] == vs;
    return Success((speedups, efficiencies));
  }

  /**
   * The thread directories of one benchmark, sorted, and the reference
   * time read from the first 1-thread directory.
   */
  method FindReference(listing: seq<Entry>, column: string, policy: ReadPolicy)
    returns (r: Result<(seq<Group>, Option<real>), ScriptError>)
    ensures r.Failure? ==> SurveyOf(listing, column, policy) == Failure(r.error)
    ensures r.Success? ==> SurveyOf(listing, column, policy).Success?
    ensures r.Success? && r.value.1.None? ==> SurveyOf(listing, column, policy).value == NoReference
    ensures r.Success? && r.value.1.Some? ==>
      SurveyOf(listing, column, policy).value == Surveyed(r.value.1.value, Visits(r.value.0, column, policy))
  {
    ThreadDirsSpec(listing);
    var threadDirs :- ThreadDirs(listing);
    var t1 :- ReadReferenceTime(threadDirs, column, policy);
    return Success((threadDirs, t1));
  }

  /** `calculer_speedup_et_efficacite(temps_type)` */
  method CalculateSpeedupAndEfficiency(amdahlListing: seq<Entry>, gustafsonListing: seq<Entry>, column: string, policy: ReadPolicy)
    returns (r: Result<Outcome, ScriptError>)
    ensures r == SpeedupAndEfficiency(amdahlListing, gustafsonListing, column, policy)
  {
    ghost var a := SurveyOf(amdahlListing, column, policy);
    ghost var g := SurveyOf(gustafsonListing, column, policy);
    var amdahlRef :- FindReference(amdahlListing, column, policy);
    if amdahlRef.1.None? {
      return Success(NoAmdahlReference);
    }
    var amdahl :- AmdahlLaw(amdahlRef.0, amdahlRef.1.value, column, policy);
    var gustafsonRef :- FindReference(gustafsonListing, column, policy);
    if gustafsonRef.1.None? {
      return Success(NoGustafsonReference(amdahl.0, amdahl.1));
    }
    var gustafson :- GustafsonLaw(gustafsonRef.0, gustafsonRef.1.value, column, policy);
    return Success(Complete(amdahl.0, amdahl.1, gustafson.0, gustafson.1));
  }

  // ---------------------------------------------------------------------
  // What the Amdahl list holds

  /** The point a single directory contributes on its own: none when it yields no time. */
  function AmdahlPointOf(v: Visit, t1: real): Option<Point> {
    if v.time.Success? && v.time.value.Some? then Some(Point(v.threads, AmdahlSpeedup(t1, v.time.value.value))) else None
  }

  /** The Amdahl list fails exactly when reading some directory fails. */
  lemma {:induction false} AmdahlListSucceeds(vs: seq<Visit>, t1: real)
    ensures AmdahlList(vs, t1).Success? <==> forall i :: 0 <= i < |vs| ==> vs[i].time.Success?
  {
    if vs != [] {
      var n := |vs| - 1;
      AmdahlListSucceeds(vs[..n], t1);
      assert forall i :: 0 <= i < n ==> vs[..n][i] == vs[i];
      if AmdahlList(vs[..n], t1).Success? {
        AmdahlListStep(vs, t1, n);
        assert vs[..n + 1] == vs;
      } else {
        AmdahlListFailureSticks(vs, t1, n);
      }
    }
  }

  /** After a successful prefix, the list is that prefix's list and the last directory's own point. */
  lemma AmdahlListSnoc(vs: seq<Visit>, t1: real)
    requires vs != [] && AmdahlList(vs, t1).Success?
    ensures AmdahlList(vs[..|vs| - 1], t1).Success?
    ensures var prev := AmdahlList(vs[..|vs| - 1], t1).value;
      var own := AmdahlPointOf(vs[|vs| - 1], t1);
      AmdahlList(vs, t1).value == prev + if own.Some? then [own.value] else []
  {
    var n := |vs| - 1;
    AmdahlListStep(vs, t1, n);
    assert vs[..n + 1] == vs;
  }

  /**
   * Each entry of the Amdahl list is the point some directory contributes
   * on its own, so a directory without a time contributes no entry.
   */
  lemma {:induction false} AmdahlListSound(vs: seq<Visit>, t1: real)
    requires AmdahlList(vs, t1).Success?
    ensures forall p :: p in AmdahlList(vs, t1).value ==> exists i :: 0 <= i < |vs| && AmdahlPointOf(vs[i], t1) == Some(p)
  {
    if vs != [] {
      var n := |vs| - 1;
      AmdahlListSnoc(vs, t1);
      AmdahlListSound(vs[..n], t1);
      forall p | p in AmdahlList(vs, t1).value
        ensures exists i :: 0 <= i < |vs| && AmdahlPointOf(vs[i], t1) == Some(p)
      {
        if p in AmdahlList(vs[..n], t1).value {
          var i :| 0 <= i < n && AmdahlPointOf(vs[..n][i], t1) == Some(p);
          assert vs[..n][i] == vs[i];
        } else {
          assert AmdahlPointOf(vs[n], t1) == Some(p);
        }
      }
    }
  }

  /** Every directory that yields a time contributes its point to the Amdahl list. */
  lemma {:induction false} AmdahlListComplete(vs: seq<Visit>, t1: real)
    requires AmdahlList(vs, t1).Success?
    ensures forall i :: 0 <= i < |vs| && AmdahlPointOf(vs[i], t1).Some? ==> AmdahlPointOf(vs[i], t1).value in AmdahlList(vs, t1).value
  {
    if vs != [] {
      var n := |vs| - 1;
      AmdahlListSnoc(vs, t1);
      AmdahlListComplete(vs[..n], t1);
      var prev := AmdahlList(vs[..n], t1).value;
      assert forall p :: p in prev ==> p in AmdahlList(vs, t1).value;
      forall i | 0 <= i < n && AmdahlPointOf(vs[i], t1).Some?
        ensures AmdahlPointOf(vs[i], t1).value in prev
      {
        assert vs[..n][i] == vs[i];
      }
    }
  }

  predicate VisitsAscending(vs: seq<Visit>) {
    forall i, j :: 0 <= i < j < |vs| ==> vs[i].threads <= vs[j].threads
  }

  /** Directories visited in ascending thread count give an Amdahl list ascending in thread count. */
  lemma {:induction false} AmdahlListAscending(vs: seq<Visit>, t1: real)
    requires VisitsAscending(vs) && AmdahlList(vs, t1).Success?
    ensures Ascending(AmdahlList(vs, t1).value)
  {
    if vs != [] {
      var n := |vs| - 1;
      AmdahlListSnoc(vs, t1);
      assert VisitsAscending(vs[..n]);
      AmdahlListAscending(vs[..n], t1);
      AmdahlListSound(vs[..n], t1);
      var prev := AmdahlList(vs[..n], t1).value;
      var ps := AmdahlList(vs, t1).value;
      forall i, j | 0 <= i < j < |ps|
        ensures ps[i].threads <= ps[j].threads
      {
        if j >= |prev| {
          assert ps[i] in prev;
          var k :| 0 <= k < n && AmdahlPointOf(vs[..n][k], t1) == Some(ps[i]);
          assert vs[..n][k] == vs[k];
        } else {
          assert ps[i] == prev[i] && ps[j] == prev[j];
        }
      }
    }
  }

  // ---------------------------------------------------------------------
  // What the Gustafson list holds

  /** The point a single directory contributes on its own: none when it yields no time. */
  function GustafsonPointOf(v: Visit, t1: real): Option<SizedPoint> {
    if v.size.Success? && v.time.Success? && v.time.value.Some? then
      Some(SizedPoint(v.threads, GustafsonSpeedup(t1, v.time.value.value, v.threads), v.size.value))
    else None
  }

  /** The Gustafson list fails exactly when parsing some size or reading some directory fails. */
  lemma {:induction false} GustafsonListSucceeds(vs: seq<Visit>, t1: real)
    ensures GustafsonList(vs, t1).Success? <==> forall i :: 0 <= i < |vs| ==> vs[i].size.Success? && vs[i].time.Success?
  {
    if vs != [] {
      var n := |vs| - 1;
      GustafsonListSucceeds(vs[..n], t1);
      assert forall i :: 0 <= i < n ==> vs[..n][i] == vs[i];
      if GustafsonList(vs[..n], t1).Success? {
        GustafsonListStep(vs, t1, n);
        assert vs[..n + 1] == vs;
      } else {
        GustafsonListFailureSticks(vs, t1, n);
      }
    }
  }

  /** After a successful prefix, the list is that prefix's list and the last directory's own point. */
  lemma GustafsonListSnoc(vs: seq<Visit>, t1: real)
    requires vs != [] && GustafsonList(vs, t1).Success?
    ensures GustafsonList(vs[..|vs| - 1], t1).Success?
    ensures var prev := GustafsonList(vs[..|vs| - 1], t1).value;
      var own := GustafsonPointOf(vs[|vs| - 1], t1);
      GustafsonList(vs, t1).value == prev + if own.Some? then [own.value] else []
  {
    var n := |vs| - 1;
    GustafsonListStep(vs, t1, n);
    assert vs[..n + 1] == vs;
  }

  /**
   * Each entry of the Gustafson list is the point some directory contributes
   * on its own, so a directory without a time contributes no entry.
   */
  lemma {:induction false} GustafsonListSound(vs: seq<Visit>, t1: real)
    requires GustafsonList(vs, t1).Success?
    ensures forall p :: p in GustafsonList(vs, t1).value ==> exists i :: 0 <= i < |vs| && GustafsonPointOf(vs[i], t1) == Some(p)
  {
    if vs != [] {
      var n := |vs| - 1;
      GustafsonListSnoc(vs, t1);
      GustafsonListSound(vs[..n], t1);
      forall p | p in GustafsonList(vs, t1).value
        ensures exists i :: 0 <= i < |vs| && GustafsonPointOf(vs[i], t1) == Some(p)
      {
        if p in GustafsonList(vs[..n], t1).value {
          var i :| 0 <= i < n && GustafsonPointOf(vs[..n][i], t1) == Some(p);
          assert vs[..n][i] == vs[i];
        } else {
          assert GustafsonPointOf(vs[n], t1) == Some(p);
        }
      }
    }
  }

  /** Every directory that yields a time contributes its point to the Gustafson list. */
  lemma {:induction false} GustafsonListComplete(vs: seq<Visit>, t1: real)
    requires GustafsonList(vs, t1).Success?
    ensures forall i :: 0 <= i < |vs| && GustafsonPointOf(vs[i], t1).Some? ==> GustafsonPointOf(vs[i], t1).value in GustafsonList(vs, t1).value
  {
    if vs != [] {
      var n := |vs| - 1;
      GustafsonListSnoc(vs, t1);
      GustafsonListComplete(vs[..n], t1);
      var prev := GustafsonList(vs[..n], t1).value;
      assert forall p :: p in prev ==> p in GustafsonList(vs, t1).value;
      forall i | 0 <= i < n && GustafsonPointOf(vs[i], t1).Some?
        ensures GustafsonPointOf(vs[i], t1).value in prev
      {
        assert vs[..n][i] == vs[i];
      }
    }
  }

  predicate SizedAscending(points: seq<SizedPoint>) {
    forall i, j :: 0 <= i < j < |points| ==> points[i].threads <= points[j].threads
  }

  /** Directories visited in ascending thread count give an Gustafson list ascending in thread count. */
  lemma {:induction false} GustafsonListAscending(vs: seq<Visit>, t1: real)
    requires VisitsAscending(vs) && GustafsonList(vs, t1).Success?
    ensures SizedAscending(GustafsonList(vs, t1).value)
  {
    if vs != [] {
      var n := |vs| - 1;
      GustafsonListSnoc(vs, t1);
      assert VisitsAscending(vs[..n]);
      GustafsonListAscending(vs[..n], t1);
      GustafsonListSound(vs[..n], t1);
      var prev := GustafsonList(vs[..n], t1).value;
      var ps := GustafsonList(vs, t1).value;
      forall i, j | 0 <= i < j < |ps|
        ensures ps[i].threads <= ps[j].threads
      {
        if j >= |prev| {
          assert ps[i] in prev;
          var k :| 0 <= k < n && GustafsonPointOf(vs[..n][k], t1) == Some(ps[i]);
          assert vs[..n][k] == vs[k];
        } else {
          assert ps[i] == prev[i] && ps[j] == prev[j];
        }
      }
    }
  }

  /** The error of a failed Amdahl list is the one reading some directory raised. */
  lemma {:induction false} AmdahlListFailureCause(vs: seq<Visit>, t1: real)
    requires AmdahlList(vs, t1).Failure?
    ensures exists i :: 0 <= i < |vs| && vs[i].time == Failure(AmdahlList(vs, t1).error)
  {
    var n := |vs| - 1;
    if AmdahlList(vs[..n], t1).Failure? {
      AmdahlListFailureCause(vs[..n], t1);
      var i :| 0 <= i < n && vs[..n][i].time == Failure(AmdahlList(vs[..n], t1).error);
      assert vs[..n][i] == vs[i];
    } else {
      AmdahlListStep(vs, t1, n);
      assert vs[..n + 1] == vs;
    }
  }

  /** The error of a failed Gustafson list is the one parsing a size or reading a directory raised. */
  lemma {:induction false} GustafsonListFailureCause(vs: seq<Visit>, t1: real)
    requires GustafsonList(vs, t1).Failure?
    ensures exists i :: 0 <= i < |vs| && (vs[i].size == Failure(GustafsonList(vs, t1).error) || vs[i].time == Failure(GustafsonList(vs, t1).error))
  {
    var n := |vs| - 1;
    if GustafsonList(vs[..n], t1).Failure? {
      GustafsonListFailureCause(vs[..n], t1);
      var i :| 0 <= i < n && (vs[..n][i].size == Failure(GustafsonList(vs[..n], t1).error) ||
                              vs[..n][i].time == Failure(GustafsonList(vs[..n], t1).error));
      assert vs[..n][i] == vs[i];
    } else {
      GustafsonListStep(vs, t1, n);
      assert vs[..n + 1] == vs;
    }
  }

  /** One sized efficiency per Gustafson speedup, for the same thread count and size. */
  lemma SizedEfficienciesMatch(speedups: seq<SizedPoint>)
    ensures |SizedEfficiencies(speedups)| == |speedups|
    ensures forall i :: 0 <= i < |speedups| ==>
      SizedEfficiencies(speedups)[i].threads == speedups[i].threads && SizedEfficiencies(speedups)[i].size == speedups[i].size
    ensures forall i :: 0 <= i < |speedups| && speedups[i].threads != 0 ==>
      SizedEfficiencies(speedups)[i].value.Finite? &&
      SizedEfficiencies(speedups)[i].value.value * speedups[i].threads as real == speedups[i].value
  {
    forall i | 0 <= i < |speedups| && speedups[i].threads != 0
      ensures SizedEfficiencies(speedups)[i].value.Finite?
      ensures SizedEfficiencies(speedups)[i].value.value * speedups[i].threads as real == speedups[i].value
    {
      DivideInverts(speedups[i].value, speedups[i].threads);
    }
  }

  // ---------------------------------------------------------------------
  // Properties of the whole computation

  lemma SortedVisitsAscending(gs: seq<Group>, column: string, policy: ReadPolicy)
    requires SortedByThreads(gs)
    ensures VisitsAscending(Visits(gs, column, policy))
  {
  }

  /** A reference time is the time of a directory whose thread count is 1. */
  lemma ReferenceTimeIsOneThread(gs: seq<Group>, column: string, policy: ReadPolicy)
    requires AllWellKeyed(gs)
    requires ReferenceTime(gs, column, policy).Success? && ReferenceTime(gs, column, policy).value.Some?
    ensures exists k :: 0 <= k < |gs| && gs[k].threads == 1 && GroupTime(gs[k], column, policy) == ReferenceTime(gs, column, policy)
  {
    assert forall i :: 0 <= i < |gs| ==> gs[i] in gs;
    var k := Reference(gs).value;
    CountFieldOne(gs[k].entry.name);
  }

  /** Both speedup lists are in ascending thread-count order. */
  lemma OutcomeAscending(amdahlListing: seq<Entry>, gustafsonListing: seq<Entry>, column: string, policy: ReadPolicy)
    requires SpeedupAndEfficiency(amdahlListing, gustafsonListing, column, policy).Success?
    ensures var o := SpeedupAndEfficiency(amdahlListing, gustafsonListing, column, policy).value;
      (!o.NoAmdahlReference? ==> Ascending(o.amdahlSpeedups)) &&
      (o.Complete? ==> SizedAscending(o.gustafsonSpeedups))
  {
    var a := SurveyOf(amdahlListing, column, policy).value;
    var g := SurveyOf(gustafsonListing, column, policy);
    if a.Surveyed? {
      AmdahlListAscending(a.visits, a.t1);
      if g.Success? && g.value.Surveyed? && GustafsonList(g.value.visits, g.value.t1).Success? {
        GustafsonListAscending(g.value.visits, g.value.t1);
      }
    }
  }

  /**
   * With both references found, the Amdahl list holds the point (1, 1.0)
   * and the Gustafson list a point with thread count 1 and speedup 1.0.
   */
  lemma OutcomeReferencePoints(amdahlListing: seq<Entry>, gustafsonListing: seq<Entry>, column: string, policy: ReadPolicy)
    requires SpeedupAndEfficiency(amdahlListing, gustafsonListing, column, policy).Success?
    ensures var o := SpeedupAndEfficiency(amdahlListing, gustafsonListing, column, policy).value;
      (!o.NoAmdahlReference? ==> Point(1, 1.0) in o.amdahlSpeedups) &&
      (o.Complete? ==> exists size :: SizedPoint(1, 1.0, size) in o.gustafsonSpeedups)
  {
    AssembleReferencePoints(SurveyOf(amdahlListing, column, policy), SurveyOf(gustafsonListing, column, policy));
  }

  lemma AssembleReferencePoints(a: Result<Survey, ScriptError>, g: Result<Survey, ScriptError>)
    requires a.Success? && a.value.Surveyed? ==> SurveyFacts(a.value)
    requires g.Success? && g.value.Surveyed? ==> SurveyFacts(g.value)
    requires Assemble(a, g).Success?
    ensures var o := Assemble(a, g).value;
      (!o.NoAmdahlReference? ==> Point(1, 1.0) in o.amdahlSpeedups) &&
      (o.Complete? ==> exists size :: SizedPoint(1, 1.0, size) in o.gustafsonSpeedups)
  {
    if a.value.Surveyed? {
      AmdahlReferencePoint(a.value);
      if g.Success? && g.value.Surveyed? && GustafsonList(g.value.visits, g.value.t1).Success? {
        GustafsonReferencePoint(g.value);
      }
    }
  }

  lemma AmdahlReferencePoint(s: Survey)
    requires s.Surveyed? && SurveyFacts(s) && AmdahlList(s.visits, s.t1).Success?
    ensures Point(1, 1.0) in AmdahlList(s.visits, s.t1).value
  {
    var k :| 0 <= k < |s.visits| && s.visits[k].threads == 1 && s.visits[k].time == Success(Some(s.t1));
    AmdahlAtReference(s.t1);
    assert AmdahlPointOf(s.visits[k], s.t1) == Some(Point(1, 1.0));
    AmdahlListComplete(s.visits, s.t1);
  }

  lemma GustafsonReferencePoint(s: Survey)
    requires s.Surveyed? && SurveyFacts(s) && GustafsonList(s.visits, s.t1).Success?
    ensures exists size :: SizedPoint(1, 1.0, size) in GustafsonList(s.visits, s.t1).value
  {
    var vs := s.visits;
    var j :| 0 <= j < |vs| && vs[j].threads == 1 && vs[j].time == Success(Some(s.t1));
    GustafsonListSucceeds(vs, s.t1);
    GustafsonFlatTime(s.t1, 1);
    assert GustafsonPointOf(vs[j], s.t1) == Some(SizedPoint(1, 1.0, vs[j].size.value));
    GustafsonListComplete(vs, s.t1);
  }

  /** The thread directories of a listing all read without error. */
  predicate ListingReadable(listing: seq<Entry>, column: string) {
    forall e :: e in listing && IsThreadDir(e.name) ==> AllReadable(GlobCsv(e), column)
  }

  lemma VisitsPoliciesAgree(gs: seq<Group>, listing: seq<Entry>, column: string)
    requires ListingReadable(listing, column)
    requires forall g :: g in gs ==> IsThreadDir(g.entry.name) && g.entry in listing
    ensures Visits(gs, column, Strict) == Visits(gs, column, SkipFailures)
    ensures forall i :: 0 <= i < |gs| ==> GroupTime(gs[i], column, Strict) == GroupTime(gs[i], column, SkipFailures)
  {
    forall i | 0 <= i < |gs|
      ensures GroupTime(gs[i], column, Strict) == GroupTime(gs[i], column, SkipFailures)
    {
      assert gs[i] in gs;
      FileTimesPoliciesAgree(GlobCsv(gs[i].entry), column);
    }
    assert forall i :: 0 <= i < |gs| ==> Visits(gs, column, Strict)[i] == Visits(gs, column, SkipFailures)[i];
  }

  /** When every file of every thread directory reads, both scripts survey a directory alike. */
  lemma SurveyPoliciesAgree(listing: seq<Entry>, column: string)
    requires ListingReadable(listing, column)
    ensures SurveyOf(listing, column, Strict) == SurveyOf(listing, column, SkipFailures)
  {
    ThreadDirsSpec(listing);
    if ThreadDirs(listing).Success? {
      var gs := ThreadDirs(listing).value;
      VisitsPoliciesAgree(gs, listing, column);
      assert forall i :: 0 <= i < |gs| ==> gs[i] in gs;
      assert ReferenceTime(gs, column, Strict) == ReferenceTime(gs, column, SkipFailures);
    }
  }

  /** When every file of every thread directory reads, speedup.py and speedup_parallel.py compute the same lists. */
  lemma PoliciesAgree(amdahlListing: seq<Entry>, gustafsonListing: seq<Entry>, column: string)
    requires ListingReadable(amdahlListing, column) && ListingReadable(gustafsonListing, column)
    ensures SpeedupAndEfficiency(amdahlListing, gustafsonListing, column, Strict) ==
            SpeedupAndEfficiency(amdahlListing, gustafsonListing, column, SkipFailures)
  {
    SurveyPoliciesAgree(amdahlListing, column);
    SurveyPoliciesAgree(gustafsonListing, column);
  }

  /**
   * speedup.py lets only ValueError escape: from a thread count or a size
   * that does not parse. A file that fails to read is skipped.
   */
  lemma SkippingRaisesOnlyValueError(amdahlListing: seq<Entry>, gustafsonListing: seq<Entry>, column: string)
    requires SpeedupAndEfficiency(amdahlListing, gustafsonListing, column, SkipFailures).Failure?
    ensures SpeedupAndEfficiency(amdahlListing, gustafsonListing, column, SkipFailures).error == ValueError
  {
    var a := SurveyOf(amdahlListing, column, SkipFailures);
    var g := SurveyOf(gustafsonListing, column, SkipFailures);
    if a.Success? && a.value.Surveyed? {
      AmdahlListSucceeds(a.value.visits, a.value.t1);
      if g.Success? && g.value.Surveyed? && GustafsonList(g.value.visits, g.value.t1).Failure? {
        GustafsonListFailureCause(g.value.visits, g.value.t1);
        var i :| 0 <= i < |g.value.visits| &&
          (g.value.visits[i].size == Failure(GustafsonList(g.value.visits, g.value.t1).error) ||
           g.value.visits[i].time == Failure(GustafsonList(g.value.visits, g.value.t1).error));
        assert g.value.visits[i].time.Success?;
      }
    }
  }

  /**
   * A thread directory with a file that fails to read has a failed
   * visit under speedup_parallel.py.
   */
  lemma StrictVisitFails(listing: seq<Entry>, column: string, e: Entry, k: nat)
    requires e in listing && IsThreadDir(e.name)
    requires k < |GlobCsv(e)| && ColumnMean(GlobCsv(e)[k], column).Failure?
    requires SurveyOf(listing, column, Strict).Success? && SurveyOf(listing, column, Strict).value.Surveyed?
    ensures var vs := SurveyOf(listing, column, Strict).value.visits;
      exists i :: 0 <= i < |vs| && vs[i].time.Failure?
  {
    ThreadDirsSpec(listing);
    var gs := ThreadDirs(listing).value;
    assert SurveyOf(listing, column, Strict).value.visits == Visits(gs, column, Strict);
    StrictGroupFails(gs, column, e, k);
  }

  lemma StrictGroupFails(gs: seq<Group>, column: string, e: Entry, k: nat)
    requires exists g :: g in gs && g.entry == e
    requires k < |GlobCsv(e)| && ColumnMean(GlobCsv(e)[k], column).Failure?
    ensures var vs := Visits(gs, column, Strict);
      exists i :: 0 <= i < |vs| && vs[i].time.Failure?
  {
    var g :| g in gs && g.entry == e;
    var i :| 0 <= i < |gs| && gs[i] == g;
    FileTimesStrictFails(GlobCsv(e), column, k);
    assert Visits(gs, column, Strict)[i].time.Failure?;
  }

  /**
   * Under speedup_parallel.py, a thread directory of the Amdahl benchmark
   * with a file that fails to read makes the computation fail, unless it
   * stops first for lack of a reference.
   */
  lemma StrictAmdahlUnreadable(amdahlListing: seq<Entry>, gustafsonListing: seq<Entry>, column: string, e: Entry, k: nat)
    requires e in amdahlListing && IsThreadDir(e.name)
    requires k < |GlobCsv(e)| && ColumnMean(GlobCsv(e)[k], column).Failure?
    requires SpeedupAndEfficiency(amdahlListing, gustafsonListing, column, Strict).Success?
    ensures SpeedupAndEfficiency(amdahlListing, gustafsonListing, column, Strict).value == NoAmdahlReference
  {
    var a := SurveyOf(amdahlListing, column, Strict).value;
    if a.Surveyed? {
      StrictVisitFails(amdahlListing, column, e, k);
      AmdahlListSucceeds(a.visits, a.t1);
    }
  }

  /**
   * Under speedup_parallel.py, a thread directory of the Gustafson
   * benchmark with a file that fails to read means the Gustafson lists are
   * never returned.
   */
  lemma StrictGustafsonUnreadable(amdahlListing: seq<Entry>, gustafsonListing: seq<Entry>, column: string, e: Entry, k: nat)
    requires e in gustafsonListing && IsThreadDir(e.name)
    requires k < |GlobCsv(e)| && ColumnMean(GlobCsv(e)[k], column).Failure?
    requires SpeedupAndEfficiency(amdahlListing, gustafsonListing, column, Strict).Success?
    ensures !SpeedupAndEfficiency(amdahlListing, gustafsonListing, column, Strict).value.Complete?
  {
    var g := SurveyOf(gustafsonListing, column, Strict);
    if SpeedupAndEfficiency(amdahlListing, gustafsonListing, column, Strict).value.Complete? {
      assert g.Success? && g.value.Surveyed?;
      StrictVisitFails(gustafsonListing, column, e, k);
      GustafsonListSucceeds(g.value.visits, g.value.t1);
    }
  }
}
