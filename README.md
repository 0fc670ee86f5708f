# Forest-fire simulation and its scaling scripts, in Dafny

This project models two parts of a parallel forest-fire simulation.

- **The cellular model** (`projet/src/model.cpp`). The state is a square
  grid of `n` by `n` cells stored row-major. It has two byte maps, the fire
  intensity map and the vegetation map, and a fire front that maps each
  burning cell to its intensity. `Model::update` advances the fire one time
  step. First every front cell's neighbours may catch fire (four calls of
  `check_direction`) and the cell itself burns down to half its intensity.
  At full intensity a draw may keep it at full. The records this produces
  are then applied in order to the fire map and to the next front. The
  vegetation under the new front loses one unit. The constructor allocates
  the maps and lights the start cell. The index conversions and the integer
  part of `pseudo_random` are modelled exactly, including the 64-bit
  wrap-around of `std::size_t` arithmetic.
- **The scaling scripts.**
  - `speedup.py` and `speedup_parallel.py` compute Amdahl and Gustafson
    speedups and efficiencies from the `threads_<p>` directories of two
    benchmark runs. The two scripts differ only in whether a CSV file that
    fails to read is skipped or raises.
  - `speedup_plot.py` computes the same laws from peak times kept in dicts
    keyed by thread count, taking the latest `amdal_*` and `gustafson_*`
    runs.
  - `speedup_sequentiel.py` builds a table of sequential times per version
    through a cascade of CSV layouts, a manual scan of `resultats_temps_v1.csv`
    and fixed default times. It then divides that reference by each thread
    directory's time.

Module layout:

- `Wrappers`: `Option` and `Result`.
- `Text`: the string operations the scripts use. These are `split`,
  `lower`, `strip`, `int`, `float`, `str.isdigit` and string ordering.
- `Grid`: cell addressing and the pseudo-random draw.
- `FireModel`: the specification functions and the `Model` class.
- `CsvData`: directory listings and data frames as values.
- `Scaling`: means, maxima and the two laws.
- `PyDict`: an insertion-ordered dict.
- `ThreadGroups`: thread directory selection, ordering and reading.
- `Speedup`: the two `calculer_speedup_et_efficacite` functions.
- `SpeedupPlot` and `SpeedupSequential`: the other two scripts.

Each loop of the source is a method with invariants. The method is proved
equal to a specification function, and the lemmas beside that function
state what the source promises.

In the fire model, the floating-point comparisons are oracles fixed when the
model is built. `ignites` stands for `tirage < alpha_factor * p1 *
correction` and `keepsFull` for `tirage >= p2`. Both receive the exact
integer draw. The OpenMP schedule only decides the order of the propagation
records. `Update` therefore takes any enumeration `order` of the front's
cells, and the invariant lemmas hold for every such order.

## Model

| member | source | states |
|---|---|---|
| Grid.IndexOf | projet/src/model.cpp:246-249 | `get_index_from_lexicographic_indices`: row times `n` plus column; its inverse on the grid is `CoordOf`, by `CoordIndexRoundTrip` and `IndexCoordRoundTrip` |
| Grid.CoordOf | projet/src/model.cpp:251-257 | `get_lexicographic_from_index`: the quotient and the remainder of the index by `n`; its inverse is `IndexOf`, by the two round-trip lemmas |
| Grid.CoordIndexRoundTrip | projet/src/model.cpp:246-257 | a coordinate inside the grid maps to an index below `n*n`, and converting that index back gives the same coordinate |
| Grid.IndexCoordRoundTrip | projet/src/model.cpp:246-257 | every index below `n*n` maps to a coordinate inside the grid, and converting it back gives the same index |
| Grid.Neighbour | projet/src/model.cpp:85-110 | a step in a direction leaves the grid exactly on the matching border row or column; otherwise it reaches an in-grid cell one step away |
| Grid.Seed | projet/src/model.cpp:115 | the seed argument of a draw, `current_index * random_factor + m_time_step` (and `current_index * 52513 + m_time_step` at line 185), is reduced modulo 2^64 as `size_t` arithmetic is, so it is always below 2^64 |
| Grid.Draw | projet/src/model.cpp:10-15 | the Lehmer draw is below the modulus 2147483647, and a seed index of 0 gives a draw of 0 |
| Grid.AllocatedCellCount | projet/src/model.cpp:31-32 | the size the constructor allocates is the `unsigned` product of the discretization with itself, which stays below 2^32 |
| Grid.AllocationExactBelow65536 | projet/src/model.cpp:31-32 | below 65536 cells per side, the allocated size is exactly `n*n` |
| Grid.AllocationWrapsAt65536 | projet/src/model.cpp:31-39 | at 65536 cells per side, the allocated size wraps to 0, so the write to the start cell is outside both vectors |
| FireModel.FrontMatchesFire | projet/src/model.cpp:199-219 | the invariant of the state: a cell is in the front exactly when its fire-map entry is non-zero, and then both hold the same intensity; established by `InitialStateMatches`, kept by `ApplyKeepsFrontMatchingFire` |
| FireModel.ApplyFire | projet/src/model.cpp:199-216 | the fire map after the records are applied in order, each writing its intensity into its cell (lines 205 and 209); it keeps the map's length, and `ApplyKeepsFrontMatchingFire` relates it to `ApplyFront` |
| FireModel.ApplyFront | projet/src/model.cpp:203-214 | the next front after the records are applied in order: a new fire or a non-zero own record sets the cell's intensity, an own record of 0 erases the cell; `ApplyFrontKeys` bounds its cells |
| FireModel.Keeps | projet/src/model.cpp:183-190 | whether a cell at 255 keeps its intensity: the oracle `keepsFull` applied to the draw seeded with `current_index * 52513 + m_time_step`; `OwnIntensity` states its effect |
| FireModel.Records | projet/src/model.cpp:165-193 | all records of the propagation phase, the cells' records concatenated in enumeration order, every record inside the grid; `RecordsPrefix`, `RecordsWellFormed` and `RecordsOwnAt` state its structure |
| FireModel.InitialStateMatches | projet/src/model.cpp:31-40 | the constructor's fire map (all zero except the start cell at 255) and its single-cell front satisfy the invariant that the front holds exactly the non-zero fire-map cells, with the same intensities |
| FireModel.Burn | projet/src/model.cpp:238-239 | vegetation above 0 loses one unit; vegetation at 0 stays at 0 |
| FireModel.OwnIntensity | projet/src/model.cpp:181-190 | a burning cell's next intensity is half its intensity; a cell at 255 keeps 255 when the draw says so and otherwise drops to 127 |
| FireModel.Spark | projet/src/model.cpp:112-125 | a successful ignition emits exactly one new-fire record at 255 for the neighbour; no ignition emits none |
| FireModel.Ignition | projet/src/model.cpp:112-122 | no ignition happens across the border; an ignited cell is inside the grid and is the neighbour in that direction |
| FireModel.CellRecords | projet/src/model.cpp:172-192 | one front cell emits its neighbour records and then, last, its own record with its next intensity; every record's cell is inside the grid |
| FireModel.RecordsPrefix | projet/src/model.cpp:165-193 | extending the enumerated cells by one appends exactly that cell's records |
| FireModel.RecordsWellFormed | projet/src/model.cpp:165-193 | every record of a step is inside the grid; a new-fire record has intensity 255 and names a grid neighbour of a front cell; any other record names a front cell |
| FireModel.CellRecordsWellFormed | projet/src/model.cpp:172-192 | the same property for the records of a single front cell |
| FireModel.RecordsOwnAt | projet/src/model.cpp:165-193 | when the cells are enumerated without repetition, each front cell gets exactly one own record, carrying its next intensity, and no other cell gets one |
| FireModel.CellRecordsOwnAt | projet/src/model.cpp:172-192 | a cell's records hold exactly one own record, about that cell itself |
| FireModel.SparkHasNoOwn | projet/src/model.cpp:119-121 | the records `check_direction` emits are never own records |
| FireModel.OwnRecordsAtConcat | projet/src/model.cpp:199-216 | the own records of a cell in concatenated record lists are the concatenation of its own records in each |
| FireModel.ApplyKeepsFrontMatchingFire | projet/src/model.cpp:199-216 | applying any record list whose new fires are non-zero keeps the invariant that the front holds the non-zero fire-map cells with the same intensities |
| FireModel.ApplyFrontKeys | projet/src/model.cpp:199-216 | every cell of the next front was already in the front or is the cell of some record |
| FireModel.NextFrontSpreadsToNeighbours | projet/src/model.cpp:128-219 | every cell of the next front was already burning or is a grid neighbour of a burning cell |
| FireModel.Model.constructor | projet/src/model.cpp:23-40 | builds `n*n` vegetation cells at 255 and a fire map that is zero except 255 at the start index; the front holds only the start cell; the time step is 0; the invariant holds |
| FireModel.Model.Create | projet/src/model.cpp:23-40 | fails with a range error exactly when the discretization is 0; otherwise gives the state the constructor builds |
| FireModel.Model.CheckDirection | projet/src/model.cpp:76-126 | returns true exactly when the neighbour ignites; it then appends one new-fire record, otherwise nothing; across the border it never ignites |
| FireModel.Model.PropagateCell | projet/src/model.cpp:168-192 | appends the cell's records: its four directions in order, then its own record |
| FireModel.Model.CollectPropagations | projet/src/model.cpp:165-193 | collects the records of all front cells in the enumeration order |
| FireModel.Model.ApplyPropagations | projet/src/model.cpp:131-216 | the new fire map and the next front are those records applied in order to the old map and the old front |
| FireModel.Model.BurnVegetation | projet/src/model.cpp:222-240 | every cell of the front loses one unit of vegetation, down to 0; every other cell keeps its vegetation |
| FireModel.Model.Update | projet/src/model.cpp:128-244 | increments the time step, applies one step's records to the fire map and the front, burns the vegetation under the new front, keeps the invariant, and returns true exactly when the new front is non-empty |
| CsvData.ColumnNames | projet/speedup_sequentiel.py:62 | the column names in header order |
| CsvData.Lookup | projet/speedup.py:40 | a missing column is absent exactly when no column has that name; otherwise the first column of that name |
| CsvData.ColumnMean | projet/speedup.py:39-40 | an unreadable file fails with a read error and a missing column with a key error; a successful mean is positive |
| CsvData.ColumnPeak | projet/speedup_plot.py:40-41 | the same error cases for the column maximum; a successful maximum is positive |
| CsvData.GlobCsv | projet/speedup.py:34 | lists exactly the visible `.csv` files of a directory, and nothing for a non-directory |
| CsvData.ListCsv | projet/speedup_plot.py:34 | lists exactly the files ending in `.csv`, hidden files included |
| CsvData.Keep | projet/speedup_plot.py:34 | keeps exactly the `.csv` files, with the optional hidden-file filter, and never grows the list |
| Scaling.Mean | projet/speedup.py:46 | `np.mean` of a non-empty list, the left-to-right sum over the length; `MeanPositive`, `MeanConstant` and `MeanBounds` state its properties |
| Scaling.Divide | projet/speedup.py:77 | a speedup divided by a thread count, an IEEE infinity or NaN when the count is 0; `DivideInverts` is its partner |
| Scaling.AmdahlSpeedup | projet/speedup.py:73 | Amdahl's law `t1 / tp`; `AmdahlScalesBack` and `AmdahlAtReference` state its properties |
| Scaling.GustafsonSpeedup | projet/speedup.py:135 | Gustafson's law as written, `t1 / (tp / p)`, 0 for `p = 0`; `GustafsonIsScaledAmdahl` ties it to Amdahl's law |
| Scaling.Efficiencies | projet/speedup.py:77 | `[(p, s/p) for p, s in speedups]`; `EfficienciesMatch` and `EfficienciesSnoc` state its properties |
| Scaling.MeanPositive | projet/speedup.py:46 | the mean of positive times is positive |
| Scaling.MeanConstant | projet/speedup.py:46 | the mean of equal times is that time |
| Scaling.MeanBounds | projet/speedup.py:71 | a mean lies between the smallest and largest bounds of its samples |
| Scaling.Maximum | projet/speedup_plot.py:41 | the maximum is one of the values and no value exceeds it |
| Scaling.DivideInverts | projet/speedup.py:77 | division by a thread count is finite exactly when the count is non-zero, and multiplying back gives the dividend |
| Scaling.AmdahlScalesBack | projet/speedup.py:73 | the Amdahl speedup times the parallel time is the reference time |
| Scaling.AmdahlAtReference | projet/speedup.py:73 | the reference itself has speedup 1 |
| Scaling.GustafsonIsScaledAmdahl | projet/speedup.py:135 | the Gustafson speedup is the thread count times the Amdahl speedup |
| Scaling.GustafsonFlatTime | projet/speedup.py:135 | when the time stays flat, the Gustafson speedup equals the thread count |
| Scaling.EfficienciesMatch | projet/speedup_sequentiel.py:218-219 | one efficiency per speedup, same thread counts, and each efficiency times its thread count is the speedup |
| Scaling.EfficienciesSnoc | projet/speedup_sequentiel.py:218-219 | the efficiency list follows its speedup list element by element |
| Text.Split | projet/speedup.py:26 | `str.split` with a non-empty separator, which always gives at least one piece; `JoinSplit` and `HeadIsPrefix` are its partners |
| Text.Strip | projet/speedup_sequentiel.py:82 | `str.strip`: the string without leading and trailing whitespace; `StripUnspaced` is its partner |
| Text.PyInt | projet/speedup.py:57 | `int(s)`: the decimal value of an optionally signed digit string after `strip`, nothing otherwise; `ParseIntToString` is its round trip |
| Text.PyFloat | projet/speedup_sequentiel.py:104 | `float(s)` after `strip`; `FloatExtendsInt`, `ParseFloatDecimal` and `ParseFloatRejects` state its properties |
| Text.JoinSplit | projet/speedup.py:26 | joining the pieces of `split` with the separator gives back the string |
| Text.HeadIsPrefix | projet/speedup.py:29 | the first piece of `split` is a prefix of the string |
| Text.Field | projet/speedup.py:57 | a piece exists exactly when its position is below the number of pieces |
| Text.Lines | projet/speedup_sequentiel.py:80 | no line holds a newline; joining the lines with newlines, plus a final newline when the text ends with one, gives back the text; there are no lines exactly when the text is empty |
| Text.FloatExtendsInt | projet/speedup_sequentiel.py:104 | `float` accepts every string `int` accepts, with the same value |
| Text.ParseFloatDecimal | projet/speedup_sequentiel.py:104 | `float` of a decimal `a.b` is its positional value |
| Text.ParseFloatRejects | projet/speedup_sequentiel.py:104-107 | `float` raises on a string with no digit |
| Text.ParseIntToString | projet/speedup.py:57 | `int(str(n)) == n` |
| Text.Lower | projet/speedup_sequentiel.py:63 | lowering keeps the length and maps every character through ASCII lowering |
| Text.StripUnspaced | projet/speedup_sequentiel.py:82 | `strip` leaves a string that has no whitespace at either end unchanged |
| Text.LexLessTotal | projet/speedup_plot.py:18-19 | string order is total |
| Text.LexLessTransitive | projet/speedup_plot.py:18-19 | string order is transitive |
| Text.LexLessIrreflexive | projet/speedup_plot.py:18-19 | string order is strict |
| PyDict.Put | projet/speedup_plot.py:44 | `d[k] = v`: the key maps to the value and every other key is unchanged; a new key goes to the end of the key order, an existing one keeps its place |
| PyDict.Values | projet/speedup_sequentiel.py:129 | `d.values()`: one value per key, in key order |
| ThreadGroups.Keyed | projet/speedup.py:25-26 | the `threads_` directories of a listing with their parsed counts, in listing order; it can only fail with a value error, and `KeyedSpec` states its failures, its counts and that its directories are `ThreadEntries` of the listing, in order |
| ThreadGroups.ThreadEntries | projet/speedup.py:25 | the comprehension `[d for d in os.listdir(path) if d.startswith("threads_")]`, in listing order; it is the reference `KeyedSpec` and `ThreadDirsSpec` compare against |
| ThreadGroups.KeyedEntries | projet/speedup.py:25-26 | the keyed directories are the listing's `threads_` entries, in listing order and each as often as it is listed |
| ThreadGroups.ThreadDirs | projet/speedup.py:25-26 | the keyed directories sorted by count; `ThreadDirsSpec` states that it is sorted, a permutation of the listing's `threads_` entries, and stable |
| ThreadGroups.ThreadDirPieces | projet/speedup.py:25-26 | a `threads_` name splits into `threads` followed by the pieces of the rest |
| ThreadGroups.CountField | projet/speedup.py:26 | the thread count field is the first `_`-piece after `threads_` |
| ThreadGroups.CountFieldOne | projet/speedup.py:29 | the reference directory's count field `"1"` parses to 1 |
| ThreadGroups.ThreadCountOfName | projet/speedup.py:25-26 | `threads_<p>` is a thread directory whose count parses back to `p` |
| ThreadGroups.Insert | projet/speedup.py:26 | inserting one directory adds it exactly once |
| ThreadGroups.SortGroups | projet/speedup.py:26 | sorting is a permutation |
| ThreadGroups.SortGroupsSorted | projet/speedup.py:26 | the sort orders directories by thread count |
| ThreadGroups.SortGroupsStable | projet/speedup.py:26 | the sort is stable: directories with equal counts keep their listing order |
| ThreadGroups.InsertEntries | projet/speedup.py:26 | inserting a group adds its directory exactly once to the multiset of directories |
| ThreadGroups.SortEntries | projet/speedup.py:26 | sorting keeps the multiset of directories |
| ThreadGroups.KeyedSpec | projet/speedup.py:25-26 | keying fails exactly when a `threads_` name has a count that does not parse; otherwise every keyed directory carries its parsed count, and the keyed directories are the listing's `threads_` entries in listing order, each as often as it is listed |
| ThreadGroups.ThreadDirsSpec | projet/speedup.py:25-26 | the selection fails with a value error exactly when a count does not parse; otherwise it is sorted by count, each directory carries its parsed count, its directories are a permutation of the listing's `threads_` entries, and the directories of each count keep their listing order (Python's sort is stable) |
| ThreadGroups.Reference | projet/speedup.py:29 | the reference is the first directory whose count field is the string `"1"`, and there is none exactly when no field is `"1"` |
| ThreadGroups.FileTimes | projet/speedup.py:36-43 | the per-file means are positive and at most one per file; skipping failures never raises |
| ThreadGroups.FileTimesPoliciesAgree | projet/speedup_parallel.py:31-34 | when every file reads, the raising and skipping readers give the same list, one mean per file |
| ThreadGroups.FileTimesStrictFails | projet/speedup_parallel.py:32-34 | under the raising reader, one unreadable file makes the whole reading fail |
| ThreadGroups.GroupTime | projet/speedup.py:45-46 | a directory's time, when it has one, is positive |
| ThreadGroups.ReadTimes | projet/speedup.py:36-43 | the reading loop computes the per-file means |
| ThreadGroups.ReadGroupTime | projet/speedup.py:33-46 | the directory reading computes the directory's time |
| Speedup.SizeField | projet/speedup.py:116-118 | the size is absent exactly when the name has at most three pieces; otherwise it is `int` of the fourth piece, and a bad piece raises a value error |
| Speedup.Visits | projet/speedup.py:56-78 | each directory's count, size and time, in sorted order |
| Speedup.ReferenceTime | projet/speedup.py:29-46 | `t1`: the time of the first directory whose count field is `"1"`, nothing when there is none or it has no time; `ReferenceTimeIsOneThread` is its partner |
| Speedup.AmdahlList | projet/speedup.py:56-78 | the Amdahl loop: `t1 / time` for every directory with a time, failing with the first reading error; `AmdahlListSound`, `AmdahlListComplete`, `AmdahlListAscending`, `AmdahlListSucceeds` and `AmdahlListFailureCause` state it |
| Speedup.GustafsonList | projet/speedup.py:115-140 | the Gustafson loop: `t1 / (time / p)` and the size for every directory with a time, the size parsed first; `GustafsonListSound`, `GustafsonListComplete`, `GustafsonListAscending`, `GustafsonListSucceeds` and `GustafsonListFailureCause` state it |
| Speedup.Assemble | projet/speedup.py:20-142 | the four lists in the script's order, stopping without the Amdahl reference and then without the Gustafson one; `OutcomeAscending` and `OutcomeReferencePoints` state its results |
| Speedup.SpeedupAndEfficiency | projet/speedup.py:10-142 | `calculer_speedup_et_efficacite` over the two listings; `PoliciesAgree` and `SkippingRaisesOnlyValueError` relate the two scripts' readings |
| Speedup.SurveyOf | projet/speedup.py:24-50 | with a reference, the reference time is positive and every visit is well formed; when skipping, only a value error can escape and every time reads |
| Speedup.SurveyFactsHold | projet/speedup.py:28-46 | the reference time and the visits satisfy the survey's invariant |
| Speedup.AmdahlListSucceeds | projet/speedup_parallel.py:46-63 | the Amdahl loop succeeds exactly when every directory reads |
| Speedup.AmdahlListSound | projet/speedup.py:56-78 | every Amdahl point comes from a directory with a time: its count and `t1 / time` |
| Speedup.AmdahlListComplete | projet/speedup.py:70-74 | every directory with a time contributes its point |
| Speedup.AmdahlListAscending | projet/speedup.py:26-74 | the Amdahl points come in ascending thread count |
| Speedup.AmdahlListFailureCause | projet/speedup_parallel.py:53-55 | a failure is the error of some directory's reading |
| Speedup.GustafsonListSucceeds | projet/speedup_parallel.py:93-113 | the Gustafson loop succeeds exactly when every size field parses and every directory reads |
| Speedup.GustafsonListSound | projet/speedup.py:115-140 | every Gustafson point comes from a directory with a time: its count, `t1 / (time / p)` and its size |
| Speedup.GustafsonListComplete | projet/speedup.py:132-136 | every directory with a time contributes its point |
| Speedup.GustafsonListAscending | projet/speedup.py:86-136 | the Gustafson points come in ascending thread count |
| Speedup.GustafsonListFailureCause | projet/speedup_parallel.py:94-105 | a failure is the error of some size field or some directory's reading |
| Speedup.SizedEfficienciesMatch | projet/speedup.py:139-140 | one efficiency per speedup, with the same count and size, and each efficiency times its thread count is the speedup |
| Speedup.ReferenceTimeIsOneThread | projet/speedup.py:29-46 | the reference time is the time of a directory with one thread |
| Speedup.OutcomeAscending | projet/speedup.py:20-142 | both speedup lists of a result are in ascending thread count |
| Speedup.OutcomeReferencePoints | projet/speedup.py:20-142 | a result's Amdahl list holds the point (1, 1.0), and a full result's Gustafson list holds a point (1, 1.0) |
| Speedup.PoliciesAgree | projet/speedup_parallel.py:17-115 | when every file reads, speedup.py and speedup_parallel.py return the same result |
| Speedup.SkippingRaisesOnlyValueError | projet/speedup.py:20-142 | the only exception speedup.py lets escape is the value error of an `int` conversion |
| Speedup.StrictVisitFails | projet/speedup_parallel.py:53-55 | under the raising reader, an unreadable file makes its directory's visit fail |
| Speedup.StrictAmdahlUnreadable | projet/speedup_parallel.py:39-55 | an unreadable Amdahl file still allows a non-raising result only when no Amdahl reference is found |
| Speedup.StrictGustafsonUnreadable | projet/speedup_parallel.py:86-105 | an unreadable Gustafson file rules out a full result |
| Speedup.ReadReferenceTime | projet/speedup.py:29-46 | computes the reference time |
| Speedup.AmdahlLaw | projet/speedup.py:53-78 | the loop builds the Amdahl speedup list and its efficiencies |
| Speedup.GustafsonLaw | projet/speedup.py:112-140 | the loop builds the Gustafson speedup list and its efficiencies |
| Speedup.FindReference | projet/speedup.py:24-50 | selects and sorts the directories and finds the reference, as the survey specification says, including its failures |
| Speedup.CalculateSpeedupAndEfficiency | projet/speedup.py:10-142 | computes the function's whole result |
| SpeedupPlot.ListingKey | projet/speedup_plot.py:29 | the sort key `int(x) if x.isdigit() else 0`; `SortedListing` sorts by it |
| SpeedupPlot.AmdahlTimes | projet/speedup_plot.py:28-44 | `temps_pic` after the Amdahl loop, a well-formed dict of positive times; `AmdahlTimesSucceeds`, `AmdahlTimesKeys` and `AmdahlTimesValues` state it fully |
| SpeedupPlot.GustafsonTimes | projet/speedup_plot.py:58-80 | `temps_pic` and `tailles` after the Gustafson loop: same keys in the same order, each size the base size times the count; `GustafsonTimesSucceeds` and `GustafsonAgreesWithAmdahl` relate it to the Amdahl loop |
| SpeedupPlot.AmdahlOutcome | projet/speedup_plot.py:26-52 | `calculer_speedup_amdahl`; `AmdahlOutcomeSpec` states it fully |
| SpeedupPlot.GustafsonOutcome | projet/speedup_plot.py:54-93 | `calculer_speedup_gustafson`; `GustafsonOutcomeSpec` and `GustafsonSpeedupsSpec` relate it to the Amdahl result |
| SpeedupPlot.SortedListing | projet/speedup_plot.py:29 | the listing sorted by the `isdigit` key is a permutation, in key order, and stable |
| SpeedupPlot.IntOf | projet/speedup_plot.py:66 | `int(threads_str)` succeeds exactly when the name parses, and otherwise raises a value error |
| SpeedupPlot.FilePeaks | projet/speedup_plot.py:38-42 | the peaks succeed exactly when every file's peak reads, giving one peak per file |
| SpeedupPlot.PeakMean | projet/speedup_plot.py:38-44 | a directory's mean peak is positive |
| SpeedupPlot.AmdahlSpeedups | projet/speedup_plot.py:50-51 | the speedup dict has the same keys as the times, each `T1 / time` |
| SpeedupPlot.GustafsonSpeedups | projet/speedup_plot.py:86-91 | the speedup dict has the same keys as the times, each `T1 / (time / threads)` |
| SpeedupPlot.Latest | projet/speedup_plot.py:18-21 | the last of the sorted names with the prefix is the greatest such name, and there is one exactly when some name has the prefix |
| SpeedupPlot.BaseSizeField | projet/speedup_plot.py:24 | the base size field is the first `_`-piece after `gustafson_` |
| SpeedupPlot.SelectRuns | projet/speedup_plot.py:10-24 | selecting the runs can fail only with a value error |
| SpeedupPlot.ReadPeaks | projet/speedup_plot.py:38-42 | the loop computes the per-file peaks |
| SpeedupPlot.AddAmdahlDirectory | projet/speedup_plot.py:30-44 | one loop iteration of the Amdahl collection |
| SpeedupPlot.CollectAmdahlPeaks | projet/speedup_plot.py:28-44 | the loop builds the Amdahl times dict |
| SpeedupPlot.CalculateAmdahlSpeedups | projet/speedup_plot.py:26-52 | computes the function's result |
| SpeedupPlot.AddGustafsonDirectory | projet/speedup_plot.py:62-80 | one loop iteration of the Gustafson collection |
| SpeedupPlot.CollectGustafsonPeaks | projet/speedup_plot.py:58-80 | the loop builds the Gustafson times and sizes dicts |
| SpeedupPlot.FillGustafsonSpeedups | projet/speedup_plot.py:86-91 | the loop fills the Gustafson speedup dict |
| SpeedupPlot.CalculateGustafsonSpeedups | projet/speedup_plot.py:54-93 | computes the function's result |
| SpeedupPlot.AmdahlTimesSucceeds | projet/speedup_plot.py:28-44 | the Amdahl collection succeeds exactly when every directory with CSV files reads |
| SpeedupPlot.AmdahlTimesKeys | projet/speedup_plot.py:31-44 | the keys are exactly the counts of the directories that contribute |
| SpeedupPlot.AmdahlTimesValues | projet/speedup_plot.py:44 | each key holds the mean peak of the last directory with that count |
| SpeedupPlot.AmdahlSpeedupsSpec | projet/speedup_plot.py:46-51 | with a one-thread time, one thread has speedup 1; every speedup is `T1` over the last peak of its count |
| SpeedupPlot.AmdahlOutcomeSpec | projet/speedup_plot.py:26-52 | the result is `None` exactly when no directory counts as 1 thread; otherwise its keys are the contributing counts, one thread maps to 1, and each value is `T1` over that count's peak |
| SpeedupPlot.GustafsonTimesSucceeds | projet/speedup_plot.py:61-80 | the Gustafson collection succeeds exactly when every directory's name parses and every directory with CSV files reads |
| SpeedupPlot.GustafsonAgreesWithAmdahl | projet/speedup_plot.py:58-80 | when it succeeds, the Gustafson times dict equals the Amdahl one |
| SpeedupPlot.GustafsonStricter | projet/speedup_plot.py:63-69 | a directory without CSV files whose name is not an integer is skipped by the Amdahl function but makes the Gustafson function raise |
| SpeedupPlot.GustafsonSpeedupsSpec | projet/speedup_plot.py:71-91 | the Gustafson speedups have the same keys as the Amdahl ones and as the sizes; one thread maps to 1; each speedup is the count times the Amdahl speedup; each size is the base size times the count |
| SpeedupPlot.GustafsonOutcomeSpec | projet/speedup_plot.py:54-93 | the Gustafson result is `None` exactly when the Amdahl result over the same directory is, and otherwise both are built from the same times |
| SpeedupPlot.BaseSizeOfName | projet/speedup_plot.py:24 | the base size read from `gustafson_<n>[_...]` is `n` |
| SpeedupPlot.SelectRunsSpec | projet/speedup_plot.py:10-24 | the script stops exactly when one prefix matches no name; otherwise it picks the greatest name of each prefix, and the base size is `int` of the chosen Gustafson name's field |
| SpeedupSequential.SeqFiles | projet/speedup_sequentiel.py:18 | lists exactly the files matching `resultats_temps_v*.csv` |
| SpeedupSequential.Version | projet/speedup_sequentiel.py:25 | the version is the start of the name after `resultats_temps_v` |
| SpeedupSequential.VersionOfName | projet/speedup_sequentiel.py:25 | `resultats_temps_v<d>.csv` has version `d` when `d` has no `_` or `.` |
| SpeedupSequential.TableMean | projet/speedup_sequentiel.py:34-35 | a column mean is positive and is the mean of a column of that name |
| SpeedupSequential.FirstContaining | projet/speedup_sequentiel.py:63-64 | finds the first column whose lowered name contains the word, and none exactly when no name does |
| SpeedupSequential.FirstColumnByName | projet/speedup_sequentiel.py:63-69 | the mean of the column found by keyword is that column's mean |
| SpeedupSequential.PairNamesWords | projet/speedup_sequentiel.py:32-42 | a pair read from named columns takes its means from columns whose names contain `avancement` and `total` |
| SpeedupSequential.FileReading | projet/speedup_sequentiel.py:28-74 | what one file contributes through the column cascade, nothing where the script records nothing or catches an exception; `FileReadingColumns` is its partner |
| SpeedupSequential.FileReadingColumns | projet/speedup_sequentiel.py:28-74 | every pair a file yields is the means of a column naming `avancement` and a column naming `total` of one of its two readings |
| SpeedupSequential.Readings | projet/speedup_sequentiel.py:24-74 | one version and one optional pair per matched file, in glob order |
| SpeedupSequential.VersionTable | projet/speedup_sequentiel.py:24-74 | the version table is a well-formed dict |
| SpeedupSequential.VersionTableKeys | projet/speedup_sequentiel.py:24-74 | the table's versions are exactly those of the files that yield a pair |
| SpeedupSequential.VersionTableValues | projet/speedup_sequentiel.py:24-74 | each version holds the pair of the last file of that version that yields one |
| SpeedupSequential.VersionTableEmpty | projet/speedup_sequentiel.py:76 | the table is empty exactly when no file yields a pair |
| SpeedupSequential.SampleRows | projet/speedup_sequentiel.py:83-85 | the manual scan splits lines 1 to `min(10, len(lines)) - 1` on commas: fewer than 10 rows, each the split of its line |
| SpeedupSequential.LastContaining | projet/speedup_sequentiel.py:89-95 | the index is the last header field whose lowered text contains the word, or -1 |
| SpeedupSequential.Samples | projet/speedup_sequentiel.py:101-105 | one sample per row, read at the two indices |
| SpeedupSequential.Pairs | projet/speedup_sequentiel.py:101-107 | the pairs are exactly those of the rows where both values parse |
| SpeedupSequential.Unzip | projet/speedup_sequentiel.py:99-105 | unzipping keeps each pair's halves at the same position |
| SpeedupSequential.Extracted | projet/speedup_sequentiel.py:99-107 | the two value lists have equal length, and position by position they are the pairs of the rows where both values parse |
| SpeedupSequential.ExtractedAsWritten | projet/speedup_sequentiel.py:99-107 | the extraction as written, where a row whose `total` does not parse still adds its `avancement` value; `AsWrittenAgrees`, `AsWrittenAdvanceLonger` and `AsWrittenMismatch` relate it to `Extracted` |
| SpeedupSequential.AsWrittenAgrees | projet/speedup_sequentiel.py:101-107 | when no long-enough row has a readable `avancement` and an unreadable `total`, the source's extraction equals the paired one |
| SpeedupSequential.AsWrittenAdvanceLonger | projet/speedup_sequentiel.py:104-105 | the source's extraction never gives more `total` values than `avancement` values |
| SpeedupSequential.AsWrittenMismatch | projet/speedup_sequentiel.py:101-113 | for the rows `1,x` and `3,2`, the source collects `[1.0, 3.0]` and `[2.0]`, so its `avancement` mean is 2.0 where the paired extraction gives 3.0 |
| SpeedupSequential.ManualTimes | projet/speedup_sequentiel.py:78-116 | the manual scan of `resultats_temps_v1.csv` with the paired extraction: no times without the file, with at most one line, without both keyword columns or without a value pair; otherwise the means of the paired values (partner: `ExtractManually`, `ManualTimesReadsHead`, `ManualTimesAsWrittenAgrees`) |
| SpeedupSequential.ManualTimesAsWritten | projet/speedup_sequentiel.py:78-116 | the same scan with the extraction as written, where a row whose `total` does not parse still adds its `avancement` value (partner: `ManualTimesAsWrittenAgrees`, `ManualScanMismatch`) |
| SpeedupSequential.ManualTimesAsWrittenAgrees | projet/speedup_sequentiel.py:99-113 | when no long-enough row of the file has a readable `avancement` and an unreadable `total`, the scan as written gives the same times as the paired scan |
| SpeedupSequential.ManualScanMismatch | projet/speedup_sequentiel.py:78-116 | for the file `avancement,total` / `1,x` / `3,2`, the scan reads the samples `(1.0, none)` and `(3.0, 2.0)`; as written it gives the times (2.0, 2.0), the paired scan (3.0, 2.0) |
| SpeedupSequential.SequentialTimesAsWritten | projet/speedup_sequentiel.py:16-121 | the sequential time table built with the scan as written (partner: `SequentialTimesAsWrittenAgrees`, `SequentialTableMismatch`) |
| SpeedupSequential.SequentialTimesAsWrittenAgrees | projet/speedup_sequentiel.py:16-121 | under the same condition on the file, the table as written equals the table of the model |
| SpeedupSequential.SequentialTableMismatch | projet/speedup_sequentiel.py:16-121 | with no file yielding a pair and the file above as `resultats_temps_v1.csv`, the function as written returns `{"1": (2.0, 2.0)}` where the paired scan gives `{"1": (3.0, 2.0)}` |
| SpeedupSequential.ManualTimesReadsHead | projet/speedup_sequentiel.py:80-85 | the manual scan depends only on the first ten lines of the file |
| SpeedupSequential.FallbackKeys | projet/speedup_sequentiel.py:110-119 | the fallback table holds only version `"1"`, with the fallback pair |
| SpeedupSequential.SequentialTimes | projet/speedup_sequentiel.py:16-121 | `corriger_et_obtenir_temps_sequentiels` when `SEQ_DIR` exists: the version table, or version `"1"` with the manual or default times; `TabulatedKeys` and `TabulatedValues` state it |
| SpeedupSequential.SequentialTimesIn | projet/speedup_sequentiel.py:16-22 | the function over `SEQ_DIR`, which raises FileNotFoundError when the directory is missing: the glob then matches nothing and line 22 lists the directory outside any `try`; `SequentialTimesInFails` is its partner |
| SpeedupSequential.SequentialTimesInFails | projet/speedup_sequentiel.py:16-121 | the function raises exactly when `SEQ_DIR` is missing, and then FileNotFoundError; with the directory present and no file recording times, its table holds version `"1"` alone |
| SpeedupSequential.SequentialTimesAsWrittenIn | projet/speedup_sequentiel.py:16-121 | the same over `SEQ_DIR` with the manual scan as written |
| SpeedupSequential.TabulatedKeys | projet/speedup_sequentiel.py:16-121 | the function's table has exactly the versions of the files that yield a pair, or only version `"1"` when none does |
| SpeedupSequential.TabulatedValues | projet/speedup_sequentiel.py:16-121 | each version holds the pair of its last file, or, when no file yields a pair, version `"1"` holds the manual or default times |
| SpeedupSequential.CorrectSequentialTimes | projet/speedup_sequentiel.py:16-121 | computes `SequentialTimesIn`: FileNotFoundError when `SEQ_DIR` is missing, otherwise the file cascade, then the manual scan with the paired extraction of the Findings table, then the defaults |
| SpeedupSequential.ExtractManually | projet/speedup_sequentiel.py:78-116 | computes `ManualTimes`, the manual scan of `resultats_temps_v1.csv` with the paired extraction; the as-written scan is `ManualTimesAsWritten` |
| SpeedupSequential.ReadSampleRows | projet/speedup_sequentiel.py:83-85 | the loop splits the sample lines |
| SpeedupSequential.KeywordIndices | projet/speedup_sequentiel.py:89-95 | the loop finds the last `avancement` and `total` header indices |
| SpeedupSequential.ExtractValues | projet/speedup_sequentiel.py:99-107 | the loop builds `Extracted`, the paired value lists, rather than the lists as written (`ExtractedAsWritten`, see Findings) |
| SpeedupSequential.ReferenceTime | projet/speedup_sequentiel.py:126-129 | `t_seq`: version 1's time when there is a version 1, else the mean over all versions; `ReferenceTimeBounds` and `ReferenceTimeDefault` state its properties |
| SpeedupSequential.ScaledList | projet/speedup_sequentiel.py:165-179 | the Gustafson loop `t_seq / (avg_time / p)`; `ScaledListIsScaledAmdahl` ties it to the Amdahl list |
| SpeedupSequential.ParallelSpeedups | projet/speedup_sequentiel.py:123-181 | `calculer_speedup_parallele` with the paired manual scan (see Findings); `ParallelSpeedupsSucceed`, `ParallelSpeedupsAscending` and `ParallelSpeedupsAsWrittenAgrees` state its properties |
| SpeedupSequential.SpeedupsFrom | projet/speedup_sequentiel.py:124-181 | the two lists once `temps_seq` is computed: a failure of that table first, then `t_seq`, then the Amdahl and the Gustafson loops |
| SpeedupSequential.ParallelSpeedupsAsWritten | projet/speedup_sequentiel.py:123-181 | `calculer_speedup_parallele` with the manual scan as written (partner: `ParallelSpeedupsAsWrittenAgrees`, `ReferenceTimeMismatch`) |
| SpeedupSequential.ParallelSpeedupsAsWrittenAgrees | projet/speedup_sequentiel.py:123-181 | when no long-enough row of `resultats_temps_v1.csv` has a readable `avancement` and an unreadable `total`, the speedups as written equal those of the model |
| SpeedupSequential.ReferenceTimeMismatch | projet/speedup_sequentiel.py:126-129 | on the Findings input, `t_seq` for `T_avancement` is 2.0 as written and 3.0 in the model, so the model's speedups are 3/2 of the script's there |
| SpeedupSequential.ReferenceTimeBounds | projet/speedup_sequentiel.py:126-129 | when every time in the table lies in a range, the reference time lies in it too |
| SpeedupSequential.ReferenceTimeDefault | projet/speedup_sequentiel.py:76-129 | with no file yielding a pair and no manual times, the reference is the default 0.01 or 0.02 |
| SpeedupSequential.ScaledListIsScaledAmdahl | projet/speedup_sequentiel.py:141-179 | the Gustafson list succeeds exactly when the Amdahl list does, has the same length and thread counts, and each value is the count times the Amdahl value |
| SpeedupSequential.SequentialAmdahl | projet/speedup_sequentiel.py:136-155 | the loop builds `t_seq / time` for every directory with a time |
| SpeedupSequential.SequentialGustafson | projet/speedup_sequentiel.py:160-179 | the loop builds `t_seq / (time / p)` for every directory with a time |
| SpeedupSequential.CalculateParallelSpeedups | projet/speedup_sequentiel.py:123-181 | computes `ParallelSpeedups`: the two lists with the paired manual scan, or the first error |
| SpeedupSequential.ParallelSpeedupsSucceed | projet/speedup_sequentiel.py:124-181 | the function returns exactly when `SEQ_DIR` exists, both benchmark directories' counts parse and all their files read |
| SpeedupSequential.ParallelSpeedupsAscending | projet/speedup_sequentiel.py:136-179 | both speedup lists come in ascending thread count |

## Left out

- Plotting, `print` output, directory creation and file writing are not modelled.
  These are the `tracer_*` functions and the module-level `os.makedirs` calls.
- Directory listings and file contents are inputs.
  - A data frame is the table `pd.read_csv` would build, or nothing when it raises.
  - The raw text of `resultats_temps_v1.csv` is a separate optional input.
  - The fixed `amdahl_500` and `gustafson_204` directories appear only as their listings.
  - Every directory a script lists with `os.listdir` is taken to exist, except `SEQ_DIR` of speedup_sequentiel.py. A missing benchmark directory would raise FileNotFoundError, which is not modelled.
- Times are positive reals and every column has at least one sample.
  - Pandas `NaN` and infinite values are not modelled.
  - Floating-point rounding is not modelled: the laws and means are exact real arithmetic.
- `temps_type` is not a free string. It is one of the two columns `T_avancement` and `T_total`.
- The Python built-ins are ASCII-only: `int`, `float`, `isdigit`, `lower` and `strip`.
  - `int` accepts an optional sign and digits, with surrounding whitespace.
  - `float` accepts the same, plus one decimal point.
  - `strip` removes the ASCII whitespace Python recognises: space, `\t` to `\r`, and the separators `\x1c` to `\x1f`.
  - Exponents, `inf`/`nan`, underscores, Unicode digits and non-ASCII whitespace are not modelled.
- `readlines` is modelled on `\n` only, and its lines are given without their newline. Every line the script reads is stripped, which removes it anyway. Universal newlines are not modelled.
- Efficiencies of a thread count of 0 are a distinct "infinite" value rather than a NumPy infinity or a `ZeroDivisionError`.
- speedup_plot.py's `exit()` is the `None` case of `SpeedupPlot.SelectRuns`. The module-level script after it is not modelled.
- The floating-point part of the fire model is oracles.
  - This covers the wind factors, `p1`, `p2`, `log_factor` and the conversion of the draw to a double in `pseudo_random`.
  - `m_length`, `m_distance`, the wind and `m_max_wind` are therefore not modelled.
- OpenMP scheduling is modelled as an arbitrary enumeration order of the front's cells.
  - Records of one cell stay contiguous and in order.
  - Concurrent execution itself is not modelled.
- `FireModel.Model.constructor`: requires a start index `row * n + column` below `n*n`.
  - The source writes to the start index unchecked, which is undefined behaviour past the end of the vectors.
  - A start coordinate outside the grid whose index is below `n*n` is accepted and lights that index, as the source does.
  - `FireModel.Model.Create` models the `t_discretization == 0` exception.
- `FireModel.Model.constructor`: allocates the intended `n*n` cells rather than the wrapped `unsigned` product.
  - The wrap is shown separately by `Grid.AllocationWrapsAt65536`.
- model.hpp and simulation.cpp are not part of this model.
  - These are the class declaration and the simulation driver.
  - `std::uint_fast32_t` is taken as 64 bits wide and `std::size_t` as 64 bits.
- `SpeedupSequential.ExtractValues`, `SpeedupSequential.ExtractManually`, `SpeedupSequential.CorrectSequentialTimes`, `SpeedupSequential.ParallelSpeedups`, `SpeedupSequential.CalculateParallelSpeedups` and the specification functions `ManualTimes`, `SequentialTimes` and `SequentialTimesIn` use the corrected paired extraction.
  - The extraction as written is `SpeedupSequential.ExtractedAsWritten`, the scan as written `SpeedupSequential.ManualTimesAsWritten`, the table as written `SpeedupSequential.SequentialTimesAsWritten` and the speedups as written `SpeedupSequential.ParallelSpeedupsAsWritten`; see Findings.

## Findings

| source | as written | input that shows it | evidently intended | confidence | as-written member | corrected member |
|---|---|---|---|---|---|---|
| projet/src/model.cpp:31-32 | the map sizes are the `unsigned` product `t_discretization * t_discretization`, which wraps modulo 2^32 | `t_discretization = 65536`: both vectors get size 0, and line 39 writes to index `row * 65536 + column` out of bounds | vectors of `n*n` cells | high, not executed | Grid.AllocationWrapsAt65536 | FireModel.Model.constructor |
| projet/speedup_sequentiel.py:101-107 | the `avancement` value is appended before the `total` value is parsed, so a row whose `total` does not parse still adds an `avancement` value | header `avancement,total` with rows `1,x` and `3,2`: `av_values = [1.0, 3.0]`, `tot_values = [2.0]`, and the `avancement` mean is 2.0 | each row adds both values or neither, giving an `avancement` mean of 3.0 | medium, not executed | SpeedupSequential.SequentialTableMismatch | SpeedupSequential.Extracted |
