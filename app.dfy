/**
 * The orchestration in `app.py` once the Tk widgets, threads and dialogs are set
 * aside: choosing a free file name in the resumes folder, classifying each file of
 * a batch and counting the outcomes, loading the sheet into the tree, the search
 * filter, and the column editor's list operations.
 */
module App {
  import opened Wrappers
  import opened Text
  import opened Calendar
  import opened Parser
  import opened Excel

  // ---------------------------------------------------------------------------
  // Destination names (`safe_copy_to_workspace`)

  /** The index of the last '.' in `s`, or -1 when there is none. */
  function LastDot(s: string): (k: int)
    ensures -1 <= k < |s|
    ensures k >= 0 ==> s[k] == '.'
    ensures forall j :: k < j < |s| ==> s[j] != '.'
  {
    if s == [] then -1 else if s[|s| - 1] == '.' then |s| - 1 else LastDot(s[..|s| - 1])
  }

  /** pathlib's rule: a suffix needs a last '.' that is neither the first nor the last character. */
  predicate HasSuffix(name: string) {
    0 < LastDot(name) < |name| - 1
  }

  /** `Path(name).stem`. */
  function Stem(name: string): string {
    if HasSuffix(name) then name[..LastDot(name)] else name
  }

  /** `Path(name).suffix`. */
  function Suffix(name: string): string {
    if HasSuffix(name) then name[LastDot(name)..] else ""
  }

  /** Stem and suffix split the name: together they give it back. */
  lemma StemSuffixSplit(name: string)
    ensures Stem(name) + Suffix(name) == name
    ensures Suffix(name) == [] || (Suffix(name)[0] == '.' && '.' !in Suffix(name)[1..])
  {
    if HasSuffix(name) {
      var k := LastDot(name);
      assert name[..k] + name[k..] == name;
      assert forall j :: 0 <= j < |name[k..]| - 1 ==> name[k..][1..][j] == name[k + 1 + j];
    }
  }

  /** `f"{base}_{i}{ext}"`. */
  function NumberedName(base: string, i: nat, ext: string): string {
    base + "_" + NatToString(i) + ext
  }

  /** Different counters give different numbered names. */
  lemma NumberedNameInjective(base: string, ext: string, i: nat, j: nat)
    requires NumberedName(base, i, ext) == NumberedName(base, j, ext)
    ensures i == j
  {
    var a := NatToString(i);
    var b := NatToString(j);
    var s := NumberedName(base, i, ext);
    assert |a| == |b|;
    assert a == s[|base| + 1..|base| + 1 + |a|];
    assert b == NumberedName(base, j, ext)[|base| + 1..|base| + 1 + |b|];
    NatToStringInjective(i, j);
  }

  /** The `k`-th name the loop tries: the original name, then `base_1+ext`, `base_2+ext`, and so on. */
  function Attempt(name: string, k: nat): string {
    if k == 0 then name else NumberedName(Stem(name), k, Suffix(name))
  }

  /** The loop never tries the same name twice. */
  lemma AttemptsDistinct(name: string, k: nat, m: nat)
    requires k != m
    ensures Attempt(name, k) != Attempt(name, m)
  {
    StemSuffixSplit(name);
    if k != 0 && m != 0 {
      if Attempt(name, k) == Attempt(name, m) {
        NumberedNameInjective(Stem(name), Suffix(name), k, m);
      }
    } else {
      var n := if k == 0 then m else k;
      assert |Attempt(name, n)| > |name|;
    }
  }

  /** The names tried before the `n`-th. */
  ghost function Attempts(name: string, n: nat): set<string> {
    set k | 0 <= k < n :: Attempt(name, k)
  }

  /** The `n`-th attempt is new, and adding it gives the first `n + 1` attempts. */
  lemma AttemptsStep(name: string, n: nat)
    ensures Attempt(name, n) !in Attempts(name, n)
    ensures Attempts(name, n + 1) == Attempts(name, n) + {Attempt(name, n)}
  {
    forall k | 0 <= k < n
      ensures Attempt(name, k) != Attempt(name, n)
    {
      AttemptsDistinct(name, k, n);
    }
  }

  /** Taking one more taken name out of the untried ones leaves fewer. */
  lemma RemainingShrinks(taken: set<string>, tried: set<string>, x: string)
    requires x in taken && x !in tried
    ensures |taken - (tried + {x})| < |taken - tried|
  {
    assert taken - (tried + {x}) == (taken - tried) - {x};
  }

  /**
   * The name under which `safe_copy_to_workspace` copies a file called `name` into a
   * folder already holding `taken`: the name itself when it is free, otherwise the
   * first free `base_i+ext` for i = 1, 2, ...
   */
  method ChooseDestination(name: string, taken: set<string>) returns (dst: string)
    ensures dst !in taken
    ensures name !in taken ==> dst == name
    ensures name in taken ==> exists i :: (i >= 1 && dst == NumberedName(Stem(name), i, Suffix(name))
      && forall j :: 1 <= j < i ==> NumberedName(Stem(name), j, Suffix(name)) in taken)
    ensures exists i: nat :: dst == Attempt(name, i) && forall k :: 0 <= k < i ==> Attempt(name, k) in taken
  {
    dst := name;
    var base := Stem(name);
    var ext := Suffix(name);
    var i := 1;
    while dst in taken
      invariant i >= 1 && dst == Attempt(name, i - 1)
      invariant forall k :: 0 <= k < i - 1 ==> Attempt(name, k) in taken
      invariant Attempts(name, i - 1) <= taken
      decreases |taken - Attempts(name, i - 1)|
    {
      AttemptsStep(name, i - 1);
      RemainingShrinks(taken, Attempts(name, i - 1), dst);
      dst := NumberedName(base, i, ext);
      i := i + 1;
    }
    assert dst == Attempt(name, i - 1);
    if name in taken {
      var n := i - 1;
      assert n >= 1 && dst == NumberedName(Stem(name), n, Suffix(name));
      assert forall j :: 1 <= j < n ==> Attempt(name, j) == NumberedName(Stem(name), j, Suffix(name));
    }
  }

  /** The names of the selected files that are not the active workbook, in order. */
  function AcceptedNames(sources: seq<(string, bool)>): seq<string> {
    if sources == [] then []
    else
      var last := sources[|sources| - 1];
      AcceptedNames(sources[..|sources| - 1]) + (if last.1 then [] else [last.0])
  }

  /** `dst` is the name the loop may give a copy of `src`: `src` itself or one of its numbered variants. */
  ghost predicate CopyNameOf(dst: string, src: string) {
    exists i: nat :: dst == Attempt(src, i)
  }

  /** The resumes folder, as the set of file names in it. */
  class Workspace {
    var files: set<string>

    constructor (files: set<string>)
      ensures this.files == files
    {
      this.files := files;
    }

    /**
     * `safe_copy_to_workspace` for a source called `srcName`; `isActiveExcel` is whether
     * the source resolves to the active workbook, which is refused.
     */
    method SafeCopyToWorkspace(srcName: string, isActiveExcel: bool) returns (dst: Option<string>)
      modifies this
      ensures isActiveExcel ==> dst == None && files == old(files)
      ensures !isActiveExcel ==> dst.Some? && dst.value !in old(files) && files == old(files) + {dst.value}
      ensures !isActiveExcel && srcName !in old(files) ==> dst == Some(srcName)
      ensures !isActiveExcel && srcName in old(files) ==> exists i :: (i >= 1
        && dst == Some(NumberedName(Stem(srcName), i, Suffix(srcName)))
        && forall j :: 1 <= j < i ==> NumberedName(Stem(srcName), j, Suffix(srcName)) in old(files))
      ensures !isActiveExcel ==> dst.Some? && CopyNameOf(dst.value, srcName)
    {
      if isActiveExcel {
        return None;
      }
      var name := ChooseDestination(srcName, files);
      files := files + {name};
      return Some(name);
    }

    /**
     * The copying loop of `on_upload_multiple`. `sources` holds each selected file's
     * name and whether it is the active workbook. Every other source is saved, in
     * order, under its own name or a numbered variant of it; each name was free before
     * the batch and differs from every other name of the batch.
     */
    method UploadMultiple(sources: seq<(string, bool)>) returns (saved: seq<string>)
      modifies this
      ensures files == old(files) + set n | n in saved
      ensures forall n :: n in saved ==> n !in old(files)
      ensures forall a, b :: 0 <= a < b < |saved| ==> saved[a] != saved[b]
      ensures |saved| == |AcceptedNames(sources)|
      ensures forall a :: 0 <= a < |saved| ==> CopyNameOf(saved[a], AcceptedNames(sources)[a])
    {
      saved := [];
      var k := 0;
      while k < |sources|
        invariant 0 <= k <= |sources|
        invariant files == old(files) + set n | n in saved
        invariant forall n :: n in saved ==> n !in old(files)
        invariant forall a, b :: 0 <= a < b < |saved| ==> saved[a] != saved[b]
        invariant |saved| == |AcceptedNames(sources[..k])|
        invariant forall a :: 0 <= a < |saved| ==> CopyNameOf(saved[a], AcceptedNames(sources[..k])[a])
      {
        ghost var before := AcceptedNames(sources[..k]);
        assert sources[..k + 1][..k] == sources[..k];
        assert AcceptedNames(sources[..k + 1]) == before + (if sources[k].1 then [] else [sources[k].0]);
        var dst := SafeCopyToWorkspace(sources[k].0, sources[k].1);
        if dst.Some? {
          saved := saved + [dst.value];
        }
        k := k + 1;
      }
      assert sources[..k] == sources;
      assert AcceptedNames(sources[..k]) == AcceptedNames(sources);
    }
  }

  // ---------------------------------------------------------------------------
  // The batch (`process_files_sequential`)

  /** The outcome recorded for one file. */
  datatype Status = Added | Skipped | Failed | Error

  /**
   * One file of a batch: its name, what `parse_resume` gave (`None` for no data),
   * the clock when it was handled, and whether saving the workbook succeeds.
   */
  datatype FileJob = FileJob(name: string, parsed: Option<Resume>, now: Moment, saveOk: bool)

  /** The duplicate checkbox, and the window spinbox (`None` when it does not hold an integer). */
  datatype BatchConfig = BatchConfig(dupEnabled: bool, days: Option<int>)

  /** The workbook between two files. */
  datatype Sheet = Sheet(present: bool, rows: seq<Row>)

  predicate SheetValid(s: Sheet) {
    s.present || s.rows == []
  }

  /** `int(var_days.get())` raises before the duplicate check can run. */
  predicate DaysUnreadable(cfg: BatchConfig) {
    cfg.dupEnabled && cfg.days.None?
  }

  /** The status one file gets against the workbook as it stands. */
  function JobStatus(job: FileJob, cfg: BatchConfig, sheet: Sheet): Status {
    if job.parsed.None? then Failed
    else if DaysUnreadable(cfg) then Error
    else if cfg.dupEnabled
         && RecentDuplicate(sheet.present, sheet.rows, job.parsed.value.email, cfg.days.value, job.now)
    then Skipped
    else if job.saveOk then Added
    else Error
  }

  /** The workbook after one file: ensured, then with the row appended when it was added. */
  function JobSheet(job: FileJob, cfg: BatchConfig, sheet: Sheet): Sheet {
    var status := JobStatus(job, cfg, sheet);
    if status == Added then
      Sheet(true, AppendedRows(EnsuredRows(sheet.present, sheet.rows, []),
                               AsRecord(job.parsed.value), [], job.now.date))
    else if status == Error && job.parsed.Some? && !DaysUnreadable(cfg) then
      Sheet(true, EnsuredRows(sheet.present, sheet.rows, []))
    else sheet
  }

  /** No file leaves the workbook in a state where rows exist without the file. */
  lemma JobSheetValid(job: FileJob, cfg: BatchConfig, sheet: Sheet)
    requires SheetValid(sheet)
    ensures SheetValid(JobSheet(job, cfg, sheet))
  {
  }

  /** The statuses recorded so far and the state they leave. */
  datatype Trace<T, S> = Trace(statuses: seq<T>, state: S)

  /** A left-to-right pass over `jobs` recording one status per job and threading a state. */
  function Fold<J, T, S>(jobs: seq<J>, status: (J, S) -> T, next: (J, S) -> S, initial: S): (r: Trace<T, S>)
    ensures |r.statuses| == |jobs|
  {
    if jobs == [] then Trace([], initial)
    else
      var before := Fold(jobs[..|jobs| - 1], status, next, initial);
      var j := jobs[|jobs| - 1];
      Trace(before.statuses + [status(j, before.state)], next(j, before.state))
  }

  /** The status at `k` is the status of job `k` against the state its predecessors left. */
  lemma {:induction false} FoldStatuses<J, T, S>(jobs: seq<J>, status: (J, S) -> T, next: (J, S) -> S, initial: S)
    ensures forall k :: 0 <= k < |jobs| ==>
      Fold(jobs, status, next, initial).statuses[k] == status(jobs[k], Fold(jobs[..k], status, next, initial).state)
  {
    if jobs != [] {
      var init := jobs[..|jobs| - 1];
      FoldStatuses(init, status, next, initial);
      forall k | 0 <= k < |init|
        ensures init[..k] == jobs[..k]
      {
      }
    }
  }

  function StatusOf(cfg: BatchConfig): (FileJob, Sheet) -> Status {
    (job: FileJob, sheet: Sheet) => JobStatus(job, cfg, sheet)
  }

  function SheetOf(cfg: BatchConfig): (FileJob, Sheet) -> Sheet {
    (job: FileJob, sheet: Sheet) => JobSheet(job, cfg, sheet)
  }

  /** The statuses of the files so far and the workbook they leave. */
  function Run(jobs: seq<FileJob>, cfg: BatchConfig, initial: Sheet): Trace<Status, Sheet> {
    Fold(jobs, StatusOf(cfg), SheetOf(cfg), initial)
  }

  /** One more file: its status against the workbook so far, and the workbook it leaves. */
  lemma RunStep(jobs: seq<FileJob>, cfg: BatchConfig, initial: Sheet)
    requires jobs != []
    ensures var before := Run(jobs[..|jobs| - 1], cfg, initial);
      var job := jobs[|jobs| - 1];
      Run(jobs, cfg, initial)
        == Trace(before.statuses + [JobStatus(job, cfg, before.state)], JobSheet(job, cfg, before.state))
  {
  }

  /** How many statuses equal `s`. */
  function Count(statuses: seq<Status>, s: Status): nat {
    multiset(statuses)[s]
  }

  /** `sum(1 for r in results if r[1] == s)`: how many results carry status `s`. */
  function Tally(results: seq<(string, Status)>, s: Status): nat {
    if results == [] then 0
    else Tally(results[..|results| - 1], s) + (if results[|results| - 1].1 == s then 1 else 0)
  }

  /** Tallying the results counts their statuses. */
  lemma {:induction false} TallyCounts(results: seq<(string, Status)>, statuses: seq<Status>, s: Status)
    requires |results| == |statuses|
    requires forall k :: 0 <= k < |results| ==> results[k].1 == statuses[k]
    ensures Tally(results, s) == Count(statuses, s)
  {
    if results != [] {
      var init := statuses[..|statuses| - 1];
      TallyCounts(results[..|results| - 1], init, s);
      assert statuses == init + [statuses[|statuses| - 1]];
      assert multiset(statuses) == multiset(init) + multiset{statuses[|statuses| - 1]};
    }
  }

  /** Every file is counted once: added + skipped + failed (Failed or Error) = total. */
  lemma {:induction false} SummaryAddsUp(statuses: seq<Status>)
    ensures Count(statuses, Added) + Count(statuses, Skipped)
          + (Count(statuses, Failed) + Count(statuses, Error)) == |statuses|
  {
    if statuses != [] {
      var init := statuses[..|statuses| - 1];
      var x := statuses[|statuses| - 1];
      SummaryAddsUp(init);
      assert statuses == init + [x];
      assert multiset(statuses) == multiset(init) + multiset{x};
      assert x == Added || x == Skipped || x == Failed || x == Error;
    }
  }

  /** One status per file, each the status of that file against the workbook its predecessors left. */
  lemma RunStatuses(jobs: seq<FileJob>, cfg: BatchConfig, initial: Sheet)
    ensures |Run(jobs, cfg, initial).statuses| == |jobs|
    ensures forall k :: 0 <= k < |jobs| ==>
      Run(jobs, cfg, initial).statuses[k] == JobStatus(jobs[k], cfg, Run(jobs[..k], cfg, initial).state)
  {
    FoldStatuses(jobs, StatusOf(cfg), SheetOf(cfg), initial);
  }

  /**
   * The classification of one file: Failed exactly when there is no data, Skipped
   * exactly when the check is on and finds a recent duplicate, Added exactly when the
   * save goes through otherwise, and Error in the remaining cases.
   */
  lemma JobStatusCases(job: FileJob, cfg: BatchConfig, sheet: Sheet)
    ensures JobStatus(job, cfg, sheet) == Failed <==> job.parsed.None?
    ensures JobStatus(job, cfg, sheet) == Skipped <==>
      job.parsed.Some? && cfg.dupEnabled && cfg.days.Some?
      && RecentDuplicate(sheet.present, sheet.rows, job.parsed.value.email, cfg.days.value, job.now)
    ensures JobStatus(job, cfg, sheet) == Added <==>
      job.parsed.Some? && job.saveOk && !DaysUnreadable(cfg)
      && !(cfg.dupEnabled
           && RecentDuplicate(sheet.present, sheet.rows, job.parsed.value.email, cfg.days.value, job.now))
  {
  }

  /** The outputs of a pass: each job's contribution given its status, concatenated in order. */
  function Concat<J, T, R>(jobs: seq<J>, statuses: seq<T>, contrib: (J, T) -> seq<R>): seq<R>
    requires |statuses| == |jobs|
  {
    if jobs == [] then []
    else Concat(jobs[..|jobs| - 1], statuses[..|statuses| - 1], contrib)
         + contrib(jobs[|jobs| - 1], statuses[|statuses| - 1])
  }

  /** One instance of the step requirement of `FoldAccumulates`. */
  lemma StepInstance<J, T, S, R>(status: (J, S) -> T, next: (J, S) -> S, inv: S -> bool, output: S -> seq<R>,
                                 contrib: (J, T) -> seq<R>, j: J, s: S)
    requires forall j, s :: inv(s) ==> inv(next(j, s)) && output(next(j, s)) == output(s) + contrib(j, status(j, s))
    requires inv(s)
    ensures inv(next(j, s)) && output(next(j, s)) == output(s) + contrib(j, status(j, s))
  {
  }

  /**
   * When each step keeps an invariant and extends an output by the step's
   * contribution, a whole pass keeps the invariant and extends the output by all
   * contributions in order.
   */
  lemma {:induction false} FoldAccumulates<J, T, S, R>(jobs: seq<J>, status: (J, S) -> T, next: (J, S) -> S,
                                                      initial: S, inv: S -> bool, output: S -> seq<R>,
                                                      contrib: (J, T) -> seq<R>)
    requires inv(initial)
    requires forall j, s :: inv(s) ==> inv(next(j, s)) && output(next(j, s)) == output(s) + contrib(j, status(j, s))
    ensures var r := Fold(jobs, status, next, initial);
      inv(r.state) && output(r.state) == output(initial) + Concat(jobs, r.statuses, contrib)
  {
    if jobs != [] {
      var init := jobs[..|jobs| - 1];
      FoldAccumulates(init, status, next, initial, inv, output, contrib);
      var before := Fold(init, status, next, initial);
      var j := jobs[|jobs| - 1];
      var r := Fold(jobs, status, next, initial);
      assert r == Trace(before.statuses + [status(j, before.state)], next(j, before.state));
      assert r.statuses[..|r.statuses| - 1] == before.statuses;
      assert Concat(jobs, r.statuses, contrib) == Concat(init, before.statuses, contrib) + contrib(j, status(j, before.state));
      StepInstance(status, next, inv, output, contrib, j, before.state);
    }
  }

  /** The row one file contributes: its data row when it was added, nothing otherwise. */
  function AddedRow(job: FileJob, status: Status): seq<Row> {
    if status == Added && job.parsed.Some? then [DataRow(AsRecord(job.parsed.value), job.now.date)] else []
  }

  /** The rows the Added files contribute, in batch order. */
  function AddedRowsOf(jobs: seq<FileJob>, statuses: seq<Status>): seq<Row>
    requires |statuses| == |jobs|
  {
    Concat(jobs, statuses, AddedRow)
  }

  /** Every sheet the batch passes through is a valid file state. */
  lemma {:induction false} RunKeepsSheetValid(jobs: seq<FileJob>, cfg: BatchConfig, initial: Sheet)
    requires SheetValid(initial)
    ensures SheetValid(Run(jobs, cfg, initial).state)
  {
    if jobs != [] {
      var init := jobs[..|jobs| - 1];
      RunKeepsSheetValid(init, cfg, initial);
      RunStep(jobs, cfg, initial);
      JobSheetValid(jobs[|jobs| - 1], cfg, Run(init, cfg, initial).state);
    }
  }

  /** An Added file always had data. */
  lemma {:induction false} AddedHadData(jobs: seq<FileJob>, cfg: BatchConfig, initial: Sheet)
    ensures forall k :: 0 <= k < |jobs| && Run(jobs, cfg, initial).statuses[k] == Added ==> jobs[k].parsed.Some?
  {
    RunStatuses(jobs, cfg, initial);
  }

  /** After one file, the data rows read back are the earlier ones plus that file's row when it was added. */
  lemma JobSheetReadBack(job: FileJob, cfg: BatchConfig, sheet: Sheet)
    requires SheetValid(sheet)
    ensures DataRows(JobSheet(job, cfg, sheet).rows) == DataRows(sheet.rows) + AddedRow(job, JobStatus(job, cfg, sheet))
  {
    var ensured := EnsuredRows(sheet.present, sheet.rows, []);
    assert DataRows(ensured) == DataRows(sheet.rows);
    if JobStatus(job, cfg, sheet) == Added {
      AppendThenReadBack(ensured, AsRecord(job.parsed.value), [], job.now.date);
    }
  }

  /**
   * Reading the sheet back after a batch gives its earlier data rows followed by one
   * row per Added file, in order; Skipped, Failed and Error files leave no row.
   */
  lemma BatchRowsReadBack(jobs: seq<FileJob>, cfg: BatchConfig, initial: Sheet)
    requires SheetValid(initial)
    ensures DataRows(Run(jobs, cfg, initial).state.rows)
            == DataRows(initial.rows) + AddedRowsOf(jobs, Run(jobs, cfg, initial).statuses)
  {
    forall job, sheet | SheetValid(sheet)
      ensures SheetValid(JobSheet(job, cfg, sheet))
      ensures DataRows(JobSheet(job, cfg, sheet).rows) == DataRows(sheet.rows) + AddedRow(job, JobStatus(job, cfg, sheet))
    {
      JobSheetValid(job, cfg, sheet);
      JobSheetReadBack(job, cfg, sheet);
    }
    FoldAccumulates(jobs, StatusOf(cfg), SheetOf(cfg), initial, SheetValid, (s: Sheet) => DataRows(s.rows), AddedRow);
  }

  /**
   * Within one batch, a file whose email was just added is skipped when the check is
   * on and it comes no more than `days` days later.
   */
  lemma RepeatedEmailSkipped(first: FileJob, second: FileJob, cfg: BatchConfig, sheet: Sheet)
    requires JobStatus(first, cfg, sheet) == Added
    requires second.parsed.Some? && second.parsed.value.email == first.parsed.value.email
    requires first.parsed.value.email != ""
    requires cfg.dupEnabled && cfg.days.Some?
    requires 0 <= Ordinal(second.now.date) - Ordinal(first.now.date) <= cfg.days.value
    ensures JobStatus(second, cfg, JobSheet(first, cfg, sheet)) == Skipped
  {
    var data := AsRecord(first.parsed.value);
    assert "Email" in data && data["Email"] == first.parsed.value.email;
    SavedEmailIsRecentDuplicate(EnsuredRows(sheet.present, sheet.rows, []), data, [], first.now.date,
                                second.now, cfg.days.value);
  }

  /** The body of the loop of `process_files_sequential` for one file. */
  method ProcessOne(book: ExcelFile, job: FileJob, cfg: BatchConfig) returns (status: Status)
    requires book.Valid()
    modifies book
    ensures book.Valid()
    ensures status == JobStatus(job, cfg, Sheet(old(book.present), old(book.rows)))
    ensures Sheet(book.present, book.rows) == JobSheet(job, cfg, Sheet(old(book.present), old(book.rows)))
  {
    if job.parsed.None? {
      return Failed;
    }
    if cfg.dupEnabled && cfg.days.None? {
      return Error;
    }
    var data := job.parsed.value;
    var dup := false;
    if cfg.dupEnabled {
      dup := book.EmailDuplicateWithinDays(data.email, cfg.days.value, job.now);
    }
    if dup {
      return Skipped;
    }
    book.EnsureExcel([]);
    var ok := book.AppendRow(AsRecord(data), [], job.now.date, job.saveOk);
    status := if ok then Added else Error;
  }

  /** File `i` of the batch extends the run over the files before it by one status. */
  method ProcessNext(book: ExcelFile, jobs: seq<FileJob>, i: nat, cfg: BatchConfig, ghost initial: Sheet,
                     ghost statuses: seq<Status>)
    returns (status: Status)
    requires i < |jobs| && book.Valid()
    requires Run(jobs[..i], cfg, initial) == Trace(statuses, Sheet(book.present, book.rows))
    modifies book
    ensures book.Valid()
    ensures Run(jobs[..i + 1], cfg, initial) == Trace(statuses + [status], Sheet(book.present, book.rows))
  {
    assert jobs[..i + 1][..i] == jobs[..i];
    RunStep(jobs[..i + 1], cfg, initial);
    status := ProcessOne(book, jobs[i], cfg);
  }

  /** The loop of `process_files_sequential`: the results, the statuses behind them and the progress count. */
  method ProcessLoop(book: ExcelFile, jobs: seq<FileJob>, cfg: BatchConfig)
    returns (results: seq<(string, Status)>, statuses: seq<Status>, processed: nat)
    requires book.Valid()
    modifies book
    ensures book.Valid()
    ensures Run(jobs, cfg, Sheet(old(book.present), old(book.rows))) == Trace(statuses, Sheet(book.present, book.rows))
    ensures |results| == |statuses| == |jobs|
    ensures forall k :: 0 <= k < |jobs| ==> results[k] == (jobs[k].name, statuses[k])
    ensures processed == |jobs| + Tally(results, Failed)
  {
    ghost var initial := Sheet(book.present, book.rows);
    statuses := [];
    results := [];
    processed := 0;
    var i := 0;
    while i < |jobs|
      invariant 0 <= i <= |jobs|
      invariant book.Valid()
      invariant Run(jobs[..i], cfg, initial) == Trace(statuses, Sheet(book.present, book.rows))
      invariant |results| == |statuses| == i
      invariant forall k :: 0 <= k < i ==> results[k] == (jobs[k].name, statuses[k])
      invariant processed == i + Tally(results, Failed)
    {
      var status := ProcessNext(book, jobs, i, cfg, initial, statuses);
      if status == Failed {
        processed := processed + 1;
      }
      results := results + [(jobs[i].name, status)];
      statuses := statuses + [status];
      processed := processed + 1;
      i := i + 1;
    }
    assert jobs[..|jobs|] == jobs;
  }

  /**
   * `process_files_sequential` over a workbook: one result per file, the workbook
   * updated as the files go, `processed` advanced once per file and once more for
   * each file without data (the `continue` still runs the `finally`), and the three
   * summary counts.
   */
  method ProcessFilesSequential(book: ExcelFile, jobs: seq<FileJob>, cfg: BatchConfig)
    returns (results: seq<(string, Status)>, processed: nat, added: nat, skipped: nat, failed: nat)
    requires book.Valid()
    modifies book
    ensures book.Valid()
    ensures var run := Run(jobs, cfg, Sheet(old(book.present), old(book.rows)));
      && Sheet(book.present, book.rows) == run.state
      && |results| == |run.statuses| == |jobs|
      && (forall k :: 0 <= k < |jobs| ==> results[k] == (jobs[k].name, run.statuses[k]))
      && processed == |jobs| + Count(run.statuses, Failed)
      && added == Count(run.statuses, Added) && skipped == Count(run.statuses, Skipped)
      && failed == Count(run.statuses, Failed) + Count(run.statuses, Error)
  {
    var statuses;
    results, statuses, processed := ProcessLoop(book, jobs, cfg);
    added := Tally(results, Added);
    skipped := Tally(results, Skipped);
    failed := Tally(results, Failed) + Tally(results, Error);
    TallyCounts(results, statuses, Added);
    TallyCounts(results, statuses, Skipped);
    TallyCounts(results, statuses, Failed);
    TallyCounts(results, statuses, Error);
  }

  // ---------------------------------------------------------------------------
  // The tree (`refresh_tree_from_excel`)

  /** The six values one row shows: its first five cells and the date, or "" without one. */
  function TreeRow(r: Row): (values: seq<Cell>)
    requires |r| >= 5
    ensures |values| == 6 && values[..5] == r[..5]
    ensures values[5] == (if |r| > 5 then r[5] else Str(""))
  {
    r[..5] + [if |r| > 5 then r[5] else Str("")]
  }

  /** The index of the first row with fewer than five cells, where `r[4]` raises. */
  function FirstShortRow(rows: seq<Row>): (k: nat)
    ensures k <= |rows|
    ensures forall j :: 0 <= j < k ==> |rows[j]| >= 5
    ensures k < |rows| ==> |rows[k]| < 5
  {
    if rows == [] || |rows[0]| < 5 then 0 else 1 + FirstShortRow(rows[1..])
  }

  /**
   * Rows read back all have the sheet's width, so `r[4]` raises either on none of
   * them (a sheet at least five columns wide) or already on the first.
   */
  lemma TreeRowsAllOrNothing(rows: seq<Row>)
    ensures SheetWidth(rows) >= 5 ==> FirstShortRow(SheetDataRows(rows)) == |SheetDataRows(rows)|
    ensures SheetWidth(rows) < 5 ==> FirstShortRow(SheetDataRows(rows)) == 0
    ensures |SheetDataRows(rows)| == |DataRows(rows)|
  {
    SheetDataRowsShape(rows);
  }

  /**
   * `refresh_tree_from_excel`: the tree shows one item per data row, in order, up to
   * the first row where `r[4]` raises, which leaves `complete` false. Since rows come
   * back padded to the sheet's width, a sheet at least five columns wide shows every
   * row, and a narrower one shows none.
   */
  method RefreshTreeFromExcel(book: ExcelFile) returns (items: seq<seq<Cell>>, complete: bool)
    requires book.Valid()
    ensures var data := SheetDataRows(book.rows);
      && |items| == FirstShortRow(data)
      && (forall k :: 0 <= k < |items| ==> items[k] == TreeRow(data[k]))
      && (complete <==> |items| == |data|)
    ensures SheetWidth(book.rows) >= 5 ==> complete
    ensures SheetWidth(book.rows) < 5 ==> items == [] && (complete <==> DataRows(book.rows) == [])
  {
    TreeRowsAllOrNothing(book.rows);
    items := [];
    if !book.present {
      return [], true;
    }
    var rows := book.ReadAllRows();
    var i := 0;
    while i < |rows|
      invariant 0 <= i <= FirstShortRow(rows)
      invariant |items| == i && forall k :: 0 <= k < i ==> items[k] == TreeRow(rows[k])
    {
      if |rows[i]| < 5 {
        return items, false;
      }
      items := items + [TreeRow(rows[i])];
      i := i + 1;
    }
    return items, true;
  }

  // ---------------------------------------------------------------------------
  // The search filter (`on_search_change`)

  /** Each value lower-cased. */
  function LowerAll(values: seq<string>): (lowered: seq<string>)
    ensures |lowered| == |values| && forall j :: 0 <= j < |values| ==> lowered[j] == Lower(values[j])
  {
    seq(|values|, j requires 0 <= j < |values| => Lower(values[j]))
  }

  /** `" ".join(str(v).lower() for v in values)`. */
  function Combined(values: seq<string>): string {
    Join(LowerAll(values), " ")
  }

  /** An item stays listed: the normalised query is empty or occurs in its combined values. */
  predicate Matches(values: seq<string>, q: string) {
    q == "" || Contains(Combined(values), q)
  }

  /** The listed items after filtering, in their order. */
  function Visible(items: seq<seq<string>>, q: string): seq<seq<string>> {
    if items == [] then []
    else
      var earlier := Visible(items[..|items| - 1], q);
      if Matches(items[|items| - 1], q) then earlier + [items[|items| - 1]] else earlier
  }

  /** An item is listed afterwards exactly when it was listed and matches the query. */
  lemma {:induction false} VisibleMembers(items: seq<seq<string>>, q: string, v: seq<string>)
    ensures v in Visible(items, q) <==> v in items && Matches(v, q)
  {
    if items != [] {
      var init := items[..|items| - 1];
      VisibleMembers(init, q, v);
      assert items == init + [items[|items| - 1]];
    }
  }

  /** An empty query keeps every item, and filtering twice by one query is filtering once. */
  lemma {:induction false} VisibleEmptyAndIdempotent(items: seq<seq<string>>, q: string)
    ensures Visible(items, "") == items
    ensures Visible(Visible(items, q), q) == Visible(items, q)
  {
    if items != [] {
      var init := items[..|items| - 1];
      var last := items[|items| - 1];
      VisibleEmptyAndIdempotent(init, q);
      assert items == init + [last];
      var once := Visible(items, q);
      if Matches(last, q) {
        assert once[..|once| - 1] == Visible(init, q);
      }
    }
  }

  /** The loop of `on_search_change`: keeps, in order, the items whose values match `q`. */
  method FilterItems(items: seq<seq<string>>, q: string) returns (listed: seq<seq<string>>)
    ensures listed == Visible(items, q)
  {
    listed := [];
    var i := 0;
    while i < |items|
      invariant 0 <= i <= |items|
      invariant listed == Visible(items[..i], q)
    {
      assert items[..i + 1][..i] == items[..i];
      var combined := Join(LowerAll(items[i]), " ");
      if q == "" || Contains(combined, q) {
        listed := listed + [items[i]];
      }
      i := i + 1;
    }
    assert items[..|items|] == items;
  }

  /** The tree as the search sees it: the rows loaded from the sheet and those currently attached. */
  class SearchView {
    var loaded: seq<seq<string>>
    var listed: seq<seq<string>>

    /** `refresh_tree_from_excel` attaches every loaded row. */
    constructor (loaded: seq<seq<string>>)
      ensures this.loaded == loaded && listed == loaded
    {
      this.loaded := loaded;
      listed := loaded;
    }

    /**
     * `on_search_change` as written: `tree.get_children()` yields only the attached
     * items, so each search filters what the previous one left.
     */
    method OnSearchChangeAsWritten(query: string)
      modifies this
      ensures loaded == old(loaded)
      ensures listed == Visible(old(listed), Lower(Strip(query)))
    {
      listed := FilterItems(listed, Lower(Strip(query)));
    }

    /** `on_search_change` as intended: every loaded row is tested again against the query. */
    method OnSearchChange(query: string)
      modifies this
      ensures loaded == old(loaded)
      ensures listed == Visible(loaded, Lower(Strip(query)))
    {
      listed := FilterItems(loaded, Lower(Strip(query)));
    }
  }

  /** The cleared search box normalises to the empty query. */
  lemma EmptyQuery()
    ensures Lower(Strip("")) == ""
  {
    assert Strip("") == "";
  }

  /**
   * As written, a search that hides a row hides it for good: clearing the search
   * afterwards lists only what the search left, so the hidden row stays detached.
   */
  lemma ClearedSearchStaysNarrowed(loaded: seq<seq<string>>, q: string, hidden: seq<string>)
    requires hidden in loaded && !Matches(hidden, q)
    ensures Visible(Visible(loaded, q), Lower(Strip(""))) == Visible(loaded, q)
    ensures hidden !in Visible(Visible(loaded, q), Lower(Strip("")))
    ensures Visible(Visible(loaded, q), Lower(Strip(""))) != loaded
  {
    EmptyQuery();
    VisibleEmptyAndIdempotent(Visible(loaded, q), q);
    VisibleMembers(loaded, q, hidden);
  }

  /** As intended, a cleared search lists every loaded row again, whatever came before. */
  lemma ClearedSearchRestoresAll(loaded: seq<seq<string>>)
    ensures Visible(loaded, Lower(Strip(""))) == loaded
  {
    assert Strip("") == "" && Lower("") == "";
    VisibleEmptyAndIdempotent(loaded, "");
  }

  // ---------------------------------------------------------------------------
  // The column editor (`edit_columns_dialog`)

  /** `s` with the entries at `i` and `j` exchanged. */
  function Swap(s: seq<string>, i: nat, j: nat): (r: seq<string>)
    requires i < |s| && j < |s|
    ensures |r| == |s| && r[i] == s[j] && r[j] == s[i]
    ensures forall k :: 0 <= k < |s| && k != i && k != j ==> r[k] == s[k]
  {
    s[i := s[j]][j := s[i]]
  }

  /** A swap reorders the names and keeps every one of them. */
  lemma SwapPermutes(s: seq<string>, i: nat, j: nat)
    requires i < |s| && j < |s|
    ensures multiset(Swap(s, i, j)) == multiset(s)
  {
    var t := s[i := s[j]];
    assert multiset(t) == multiset(s) - multiset{s[i]} + multiset{s[j]};
    assert multiset(t[j := s[i]]) == multiset(t) - multiset{t[j]} + multiset{s[i]};
  }

  /** Swapping back undoes a swap, so moving a column down after moving it up restores the list. */
  lemma SwapUndone(s: seq<string>, i: nat, j: nat)
    requires i < |s| && j < |s|
    ensures Swap(Swap(s, i, j), i, j) == s
  {
  }

  /** `s` without its entry at `i`. */
  function RemoveAt(s: seq<string>, i: nat): (r: seq<string>)
    requires i < |s|
    ensures |r| == |s| - 1 && multiset(r) == multiset(s) - multiset{s[i]}
    ensures forall k :: 0 <= k < i ==> r[k] == s[k]
    ensures forall k :: i <= k < |r| ==> r[k] == s[k + 1]
  {
    assert s == s[..i] + [s[i]] + s[i + 1..];
    s[..i] + s[i + 1..]
  }

  /** The listbox of column names, its selection, and the entry for a new name. */
  class ColumnEditor {
    var items: seq<string>
    var selection: Option<nat>
    var entry: string

    /** The browse-mode listbox selects at most one existing item. */
    predicate Valid()
      reads this
    {
      selection.Some? ==> selection.value < |items|
    }

    /** The dialog opens on the sheet's headers, or on the defaults when there are none. */
    constructor (headers: seq<string>)
      ensures Valid() && selection == None && entry == ""
      ensures items == (if headers == [] then DefaultColumns else headers)
    {
      items := if headers == [] then DefaultColumns else headers;
      selection := None;
      entry := "";
    }

    /** `add_col`: the stripped entry is appended when non-empty; otherwise a warning and nothing else. */
    method AddCol() returns (warned: bool)
      requires Valid()
      modifies this
      ensures Valid() && selection == old(selection)
      ensures warned <==> Strip(old(entry)) == ""
      ensures warned ==> items == old(items) && entry == old(entry)
      ensures !warned ==> items == old(items) + [Strip(old(entry))] && entry == ""
    {
      var name := Strip(entry);
      if name == "" {
        return true;
      }
      items := items + [name];
      entry := "";
      return false;
    }

    /** `remove_col`: deletes the selected name, if any, and with it the selection. */
    method RemoveCol()
      requires Valid()
      modifies this
      ensures Valid() && entry == old(entry)
      ensures old(selection).None? ==> items == old(items) && selection == None
      ensures old(selection).Some? ==> items == RemoveAt(old(items), old(selection).value) && selection == None
    {
      if selection.None? {
        return;
      }
      var idx := selection.value;
      items := RemoveAt(items, idx);
      selection := None;
    }

    /** `move_up`: swaps the selected name with the one above and follows it; nothing at the top. */
    method MoveUp()
      requires Valid()
      modifies this
      ensures Valid() && entry == old(entry)
      ensures old(selection).None? || old(selection) == Some(0) ==>
        items == old(items) && selection == old(selection)
      ensures old(selection).Some? && old(selection).value > 0 ==>
        items == Swap(old(items), old(selection).value - 1, old(selection).value)
        && selection == Some(old(selection).value - 1)
    {
      if selection.None? {
        return;
      }
      var idx := selection.value;
      if idx == 0 {
        return;
      }
      items := Swap(items, idx - 1, idx);
      selection := Some(idx - 1);
    }

    /** `move_down`: swaps the selected name with the one below and follows it; nothing at the bottom. */
    method MoveDown()
      requires Valid()
      modifies this
      ensures Valid() && entry == old(entry)
      ensures old(selection).None? || old(selection) == Some(|old(items)| - 1) ==>
        items == old(items) && selection == old(selection)
      ensures old(selection).Some? && old(selection).value < |old(items)| - 1 ==>
        items == Swap(old(items), old(selection).value, old(selection).value + 1)
        && selection == Some(old(selection).value + 1)
    {
      if selection.None? {
        return;
      }
      var idx := selection.value;
      if idx == |items| - 1 {
        return;
      }
      items := Swap(items, idx, idx + 1);
      selection := Some(idx + 1);
    }
  }
}
