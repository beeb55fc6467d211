/** The gate over all workflows and registry rows. What starts a backend is not
    decided here: the scanner is any three functions. */
module OffGate {
  import opened Text
  import opened Lists
  import opened WorkflowLines
  import Workflow
  import opened JobTemplate

  /** A file of .github/workflows; None when it cannot be read. */
  datatype WorkflowFile = WorkflowFile(name: string, content: Option<seq<Line>>)

  /** A workflow as the splitter reads it: its jobs and the lines outside `jobs:`. */
  datatype Split = Unread | Read(jobs: seq<Workflow.JobEntry>, region: seq<Line>)

  datatype Parsed = Parsed(name: string, split: Split)

  function ParseFile(f: WorkflowFile): Parsed {
    Parsed(f.name,
           match f.content
           case None => Unread
           case Some(ls) => Read(Workflow.JobsOf(LexAll(ls)), Workflow.WorkflowLevelLines(LexAll(ls))))
  }

  function ParseAll(files: seq<WorkflowFile>): (ps: seq<Parsed>)
    ensures |ps| == |files| && forall i :: 0 <= i < |files| ==> ps[i] == ParseFile(files[i])
  {
    seq(|files|, i requires 0 <= i < |files| => ParseFile(files[i]))
  }

  datatype Row = Row(id: string, tier: string, blocking: bool, workflow: string, job: string)

  /** jobHits is None when a file the job runs cannot be read. */
  datatype Scanner = Scanner(
    jobHits: (string, string, seq<Line>) -> Option<seq<string>>,
    levelHits: (string, seq<Line>) -> seq<string>,
    inputHits: (string, seq<Line>, seq<Line>) -> seq<string>)

  datatype Message =
    | WorkflowUnreadable(workflow: string)
    | NoJobs(workflow: string)
    | InlineJob(workflow: string, job: string)
    | JobHit(workflow: string, job: string, hit: string)
    | JobScanFailed(workflow: string, job: string)
    | LevelHit(workflow: string, hit: string)
    | RegistryUnreadable
    | BlockingRow(row: string, workflow: string, job: string)

  const BLOCKING_TIERS := {"pre-commit", "pre-push", "pre-pr", "ci-heavy"}

  predicate IsLive(j: Workflow.Job) {
    !j.off && j.unreadable == ""
  }

  // ---- What is reported, loop by loop ------------------------------------------

  function HitMessages(w: string, id: string, hits: seq<string>): (ms: seq<Message>)
    ensures |ms| == |hits| && forall i :: 0 <= i < |hits| ==> ms[i] == JobHit(w, id, hits[i])
  {
    seq(|hits|, i requires 0 <= i < |hits| => JobHit(w, id, hits[i]))
  }

  function LevelMessages(w: string, hits: seq<string>): (ms: seq<Message>)
    ensures |ms| == |hits| && forall i :: 0 <= i < |hits| ==> ms[i] == LevelHit(w, hits[i])
  {
    seq(|hits|, i requires 0 <= i < |hits| => LevelHit(w, hits[i]))
  }

  function JobMessages(w: string, e: Workflow.JobEntry, scan: Scanner): seq<Message> {
    if e.value.unreadable != "" then [InlineJob(w, e.key)]
    else if e.value.off then []
    else match scan.jobHits(w, e.key, e.value.numbered)
      case None => [JobScanFailed(w, e.key)]
      case Some(hits) => HitMessages(w, e.key, hits)
  }

  function JobsMessages(w: string, jobs: seq<Workflow.JobEntry>, scan: Scanner): (parts: seq<seq<Message>>)
    ensures |parts| == |jobs| && forall i :: 0 <= i < |jobs| ==> parts[i] == JobMessages(w, jobs[i], scan)
  {
    seq(|jobs|, i requires 0 <= i < |jobs| => JobMessages(w, jobs[i], scan))
  }

  function LiveLines(jobs: seq<Workflow.JobEntry>, n: nat): seq<Line>
    requires n <= |jobs|
  {
    if n == 0 then []
    else LiveLines(jobs, n - 1) + if IsLive(jobs[n - 1].value) then jobs[n - 1].value.numbered else []
  }

  predicate AnyLive(jobs: seq<Workflow.JobEntry>) {
    exists e :: e in jobs && IsLive(e.value)
  }

  function LevelHits(w: string, region: seq<Line>, jobs: seq<Workflow.JobEntry>, scan: Scanner): seq<string> {
    if !AnyLive(jobs) then []
    else scan.levelHits(w, region) + scan.inputHits(w, region, LiveLines(jobs, |jobs|))
  }

  function FileMessages(p: Parsed, scan: Scanner): seq<Message> {
    match p.split
    case Unread => [WorkflowUnreadable(p.name)]
    case Read(jobs, region) =>
      (if jobs == [] then [NoJobs(p.name)] else [])
      + Flat(JobsMessages(p.name, jobs, scan))
      + LevelMessages(p.name, LevelHits(p.name, region, jobs, scan))
  }

  function FilesMessages(ps: seq<Parsed>, scan: Scanner): (parts: seq<seq<Message>>)
    ensures |parts| == |ps| && forall i :: 0 <= i < |ps| ==> parts[i] == FileMessages(ps[i], scan)
  {
    seq(|ps|, i requires 0 <= i < |ps| => FileMessages(ps[i], scan))
  }

  /** The jobs of each readable file of the first `n`, by file name. */
  function JobsByFile(ps: seq<Parsed>, n: nat): map<string, seq<Workflow.JobEntry>>
    requires n <= |ps|
  {
    if n == 0 then map[]
    else match ps[n - 1].split
      case Unread => JobsByFile(ps, n - 1)
      case Read(jobs, _) => JobsByFile(ps, n - 1)[ps[n - 1].name := jobs]
  }

  predicate RowBlocks(row: Row, e: Workflow.JobEntry) {
    && e.value.off && JobMatches(e.key, e.value.name, row.job)
    && (row.blocking || row.tier in BLOCKING_TIERS)
  }

  function RowMessages(row: Row, jobs: seq<Workflow.JobEntry>): (parts: seq<seq<Message>>)
    ensures |parts| == |jobs|
    ensures forall k :: 0 <= k < |jobs| ==>
              parts[k] == if RowBlocks(row, jobs[k]) then [BlockingRow(row.id, row.workflow, jobs[k].key)] else []
  {
    seq(|jobs|, k requires 0 <= k < |jobs| =>
      if RowBlocks(row, jobs[k]) then [BlockingRow(row.id, row.workflow, jobs[k].key)] else [])
  }

  function JobsNamed(workflows: map<string, seq<Workflow.JobEntry>>, w: string): seq<Workflow.JobEntry> {
    if w in workflows then workflows[w] else []
  }

  function RowsMessages(rows: seq<Row>, workflows: map<string, seq<Workflow.JobEntry>>): (parts: seq<seq<Message>>)
    ensures |parts| == |rows|
    ensures forall i :: 0 <= i < |rows| ==>
              parts[i] == Flat(RowMessages(rows[i], JobsNamed(workflows, rows[i].workflow)))
  {
    seq(|rows|, i requires 0 <= i < |rows| => Flat(RowMessages(rows[i], JobsNamed(workflows, rows[i].workflow))))
  }

  function Report(ps: seq<Parsed>, rows: Option<seq<Row>>, scan: Scanner): seq<Message> {
    Flat(FilesMessages(ps, scan))
    + match rows
      case None => [RegistryUnreadable]
      case Some(rs) => Flat(RowsMessages(rs, JobsByFile(ps, |ps|)))
  }

  method CheckJob(w: string, e: Workflow.JobEntry, scan: Scanner) returns (errors: seq<Message>)
    ensures errors == JobMessages(w, e, scan)
  {
    if e.value.unreadable != "" { return [InlineJob(w, e.key)]; }
    if e.value.off { return []; }
    match scan.jobHits(w, e.key, e.value.numbered) {
      case None => errors := [JobScanFailed(w, e.key)];
      case Some(hits) => errors := HitMessages(w, e.key, hits);
    }
  }

  method CheckJobs(w: string, jobs: seq<Workflow.JobEntry>, scan: Scanner) returns (errors: seq<Message>)
    ensures errors == Flat(JobsMessages(w, jobs, scan))
  {
    errors := [];
    ghost var parts := JobsMessages(w, jobs, scan);
    for i := 0 to |jobs|
      invariant errors == Flat(parts[..i])
    {
      FlatGrows(parts, i);
      var found := CheckJob(w, jobs[i], scan);
      errors := errors + found;
    }
    assert parts[..|jobs|] == parts;
  }

  method CheckFile(p: Parsed, scan: Scanner) returns (errors: seq<Message>)
    ensures errors == FileMessages(p, scan)
  {
    if p.split.Unread? { return [WorkflowUnreadable(p.name)]; }
    var jobs := p.split.jobs;
    errors := if jobs == [] then [NoJobs(p.name)] else [];
    var found := CheckJobs(p.name, jobs, scan);
    errors := errors + found;
    errors := errors + LevelMessages(p.name, LevelHits(p.name, p.split.region, jobs, scan));
  }

  method CheckRow(row: Row, jobs: seq<Workflow.JobEntry>) returns (errors: seq<Message>)
    ensures errors == Flat(RowMessages(row, jobs))
  {
    errors := [];
    ghost var parts := RowMessages(row, jobs);
    for k := 0 to |jobs|
      invariant errors == Flat(parts[..k])
    {
      FlatGrows(parts, k);
      var job := jobs[k].value;
      if !job.off || !JobMatches(jobs[k].key, job.name, row.job) { continue; }
      if row.blocking || row.tier in BLOCKING_TIERS {
        errors := errors + [BlockingRow(row.id, row.workflow, jobs[k].key)];
      }
    }
    assert parts[..|jobs|] == parts;
  }

  method CheckFiles(ps: seq<Parsed>, scan: Scanner)
    returns (errors: seq<Message>, workflows: map<string, seq<Workflow.JobEntry>>)
    ensures errors == Flat(FilesMessages(ps, scan)) && workflows == JobsByFile(ps, |ps|)
  {
    errors, workflows := [], map[];
    ghost var parts := FilesMessages(ps, scan);
    for i := 0 to |ps|
      invariant errors == Flat(parts[..i]) && workflows == JobsByFile(ps, i)
    {
      FlatGrows(parts, i);
      var found := CheckFile(ps[i], scan);
      errors := errors + found;
      if ps[i].split.Read? { workflows := workflows[ps[i].name := ps[i].split.jobs]; }
    }
    assert parts[..|ps|] == parts;
  }

  method CheckRows(rows: seq<Row>, workflows: map<string, seq<Workflow.JobEntry>>) returns (errors: seq<Message>)
    ensures errors == Flat(RowsMessages(rows, workflows))
  {
    errors := [];
    ghost var parts := RowsMessages(rows, workflows);
    for i := 0 to |rows|
      invariant errors == Flat(parts[..i])
    {
      FlatGrows(parts, i);
      var found := CheckRow(rows[i], JobsNamed(workflows, rows[i].workflow));
      errors := errors + found;
    }
    assert parts[..|rows|] == parts;
  }

  method CheckAll(ps: seq<Parsed>, rows: Option<seq<Row>>, scan: Scanner) returns (errors: seq<Message>)
    ensures errors == Report(ps, rows, scan)
  {
    var workflows;
    errors, workflows := CheckFiles(ps, scan);
    match rows {
      case None => errors := errors + [RegistryUnreadable];
      case Some(rs) =>
        var found := CheckRows(rs, workflows);
        errors := errors + found;
    }
  }

  method ReadFile(f: WorkflowFile) returns (p: Parsed)
    ensures p == ParseFile(f)
  {
    match f.content {
      case None => p := Parsed(f.name, Unread);
      case Some(ls) =>
        var jobs := Workflow.WorkflowJobs(LexAll(ls));
        p := Parsed(f.name, Read(jobs, Workflow.WorkflowLevelLines(LexAll(ls))));
    }
  }

  method ReadFiles(files: seq<WorkflowFile>) returns (ps: seq<Parsed>)
    ensures ps == ParseAll(files)
  {
    ps := [];
    for i := 0 to |files|
      invariant |ps| == i && forall k :: 0 <= k < i ==> ps[k] == ParseFile(files[k])
    {
      var p := ReadFile(files[i]);
      ps := ps + [p];
    }
  }

  /** check: split every workflow with the one-pass splitter and report on the lot. */
  method Check(files: seq<WorkflowFile>, rows: Option<seq<Row>>, scan: Scanner) returns (errors: seq<Message>)
    ensures errors == Report(ParseAll(files), rows, scan)
    ensures DistinctNames(ParseAll(files)) ==> (errors == [] <==> GateHolds(ParseAll(files), rows, scan))
  {
    var ps := ReadFiles(files);
    errors := CheckAll(ps, rows, scan);
    if DistinctNames(ps) { GateExact(ps, rows, scan); }
  }

  // ---- What it means to pass -----------------------------------------------------

  ghost predicate JobPasses(w: string, e: Workflow.JobEntry, scan: Scanner) {
    e.value.unreadable == "" && (!e.value.off ==> scan.jobHits(w, e.key, e.value.numbered) == Some([]))
  }

  /** A readable workflow with jobs, all of them readable, none live with a hit,
      and no hit at its level if one is live. */
  ghost predicate FilePasses(p: Parsed, scan: Scanner) {
    && p.split.Read? && p.split.jobs != []
    && (forall e :: e in p.split.jobs ==> JobPasses(p.name, e, scan))
    && ((exists e :: e in p.split.jobs && !e.value.off && e.value.unreadable == "") ==>
          && scan.levelHits(p.name, p.split.region) == []
          && scan.inputHits(p.name, p.split.region, LiveLines(p.split.jobs, |p.split.jobs|)) == [])
  }

  /** `e` is an off job of the readable file the row names, and the row is about it. */
  ghost predicate IsAbout(row: Row, ps: seq<Parsed>, e: Workflow.JobEntry) {
    && (exists p :: p in ps && p.name == row.workflow && p.split.Read? && e in p.split.jobs)
    && e.value.off && JobMatches(e.key, e.value.name, row.job)
  }

  /** A row matching an off job is non-blocking and outside the four blocking tiers. */
  ghost predicate RowPasses(row: Row, ps: seq<Parsed>) {
    forall e :: IsAbout(row, ps, e) ==> Allowed(row)
  }

  predicate Allowed(row: Row) {
    && !row.blocking
    && row.tier != "pre-commit" && row.tier != "pre-push" && row.tier != "pre-pr" && row.tier != "ci-heavy"
  }

  ghost predicate GateHolds(ps: seq<Parsed>, rows: Option<seq<Row>>, scan: Scanner) {
    && (forall p :: p in ps ==> FilePasses(p, scan))
    && rows.Some? && forall row :: row in rows.value ==> RowPasses(row, ps)
  }

  /** Files of one directory have distinct names. */
  ghost predicate DistinctNames(ps: seq<Parsed>) {
    forall i, j :: 0 <= i < j < |ps| ==> ps[i].name != ps[j].name
  }

  /** The lines searched for a read input are the live jobs' lines, job by job. */
  lemma {:induction false} LiveLinesAre(jobs: seq<Workflow.JobEntry>, n: nat)
    requires n <= |jobs|
    ensures LiveLines(jobs, n) == Flat(LiveParts(jobs)[..n])
    decreases n
  {
    if n > 0 {
      LiveLinesAre(jobs, n - 1);
      FlatGrows(LiveParts(jobs), n - 1);
    }
  }

  function LiveParts(jobs: seq<Workflow.JobEntry>): (parts: seq<seq<Line>>)
    ensures |parts| == |jobs|
    ensures forall i :: 0 <= i < |jobs| ==>
              parts[i] == if !jobs[i].value.off && jobs[i].value.unreadable == "" then jobs[i].value.numbered else []
  {
    seq(|jobs|, i requires 0 <= i < |jobs| =>
      if !jobs[i].value.off && jobs[i].value.unreadable == "" then jobs[i].value.numbered else [])
  }

  lemma JobSilentIff(w: string, e: Workflow.JobEntry, scan: Scanner)
    ensures JobMessages(w, e, scan) == [] <==> JobPasses(w, e, scan)
  {
  }

  lemma JobsSilentIff(w: string, jobs: seq<Workflow.JobEntry>, scan: Scanner)
    ensures Flat(JobsMessages(w, jobs, scan)) == [] <==> forall e :: e in jobs ==> JobPasses(w, e, scan)
  {
    FlatEmptyIff(JobsMessages(w, jobs, scan));
    forall i | 0 <= i < |jobs| ensures JobMessages(w, jobs[i], scan) == [] <==> JobPasses(w, jobs[i], scan) {
      JobSilentIff(w, jobs[i], scan);
    }
  }

  lemma FileSilentIff(p: Parsed, scan: Scanner)
    ensures FileMessages(p, scan) == [] <==> FilePasses(p, scan)
  {
    if p.split.Read? {
      var jobs := p.split.jobs;
      JobsSilentIff(p.name, jobs, scan);
      var hits := LevelHits(p.name, p.split.region, jobs, scan);
      assert |LevelMessages(p.name, hits)| == |hits|;
    }
  }

  lemma FilesSilentIff(ps: seq<Parsed>, scan: Scanner)
    ensures Flat(FilesMessages(ps, scan)) == [] <==> forall p :: p in ps ==> FilePasses(p, scan)
  {
    FlatEmptyIff(FilesMessages(ps, scan));
    forall i | 0 <= i < |ps| ensures FileMessages(ps[i], scan) == [] <==> FilePasses(ps[i], scan) {
      FileSilentIff(ps[i], scan);
    }
  }

  lemma {:induction false} FileFound(ps: seq<Parsed>, n: nat, i: nat)
    requires i < n <= |ps| && DistinctNames(ps) && ps[i].split.Read?
    ensures JobsNamed(JobsByFile(ps, n), ps[i].name) == ps[i].split.jobs
    decreases n
  {
    if i < n - 1 { FileFound(ps, n - 1, i); }
  }

  lemma {:induction false} OnlyFilesFound(ps: seq<Parsed>, n: nat, w: string)
    requires n <= |ps| && w in JobsByFile(ps, n)
    ensures exists i :: 0 <= i < n && ps[i].name == w && ps[i].split.Read?
    decreases n
  {
    if n > 0 && w in JobsByFile(ps, n - 1) { OnlyFilesFound(ps, n - 1, w); }
  }

  /** The jobs a row is matched with are those of the readable file it names, if there is one. */
  lemma NamedJobs(ps: seq<Parsed>, w: string)
    requires DistinctNames(ps)
    ensures forall p :: p in ps && p.name == w && p.split.Read? ==> JobsNamed(JobsByFile(ps, |ps|), w) == p.split.jobs
    ensures JobsNamed(JobsByFile(ps, |ps|), w) != [] ==> exists p :: p in ps && p.name == w && p.split.Read?
  {
    forall p | p in ps && p.name == w && p.split.Read? ensures JobsNamed(JobsByFile(ps, |ps|), w) == p.split.jobs {
      var i :| 0 <= i < |ps| && ps[i] == p;
      FileFound(ps, |ps|, i);
    }
    if w in JobsByFile(ps, |ps|) { OnlyFilesFound(ps, |ps|, w); }
  }

  lemma RowQuietIff(row: Row, jobs: seq<Workflow.JobEntry>)
    ensures Flat(RowMessages(row, jobs)) == [] <==> forall e :: e in jobs ==> !RowBlocks(row, e)
  {
    FlatEmptyIff(RowMessages(row, jobs));
    forall k | 0 <= k < |jobs| ensures RowMessages(row, jobs)[k] == [] <==> !RowBlocks(row, jobs[k]) {}
  }

  lemma BlocksIff(row: Row, e: Workflow.JobEntry)
    ensures RowBlocks(row, e) <==> e.value.off && JobMatches(e.key, e.value.name, row.job) && !Allowed(row)
  {
  }

  lemma RowPassesIff(row: Row, ps: seq<Parsed>)
    requires DistinctNames(ps)
    ensures Flat(RowMessages(row, JobsNamed(JobsByFile(ps, |ps|), row.workflow))) == [] <==> RowPasses(row, ps)
  {
    var jobs := JobsNamed(JobsByFile(ps, |ps|), row.workflow);
    NamedJobs(ps, row.workflow);
    RowQuietIff(row, jobs);
    forall e ensures e in jobs && RowBlocks(row, e) <==> IsAbout(row, ps, e) && !Allowed(row) { BlocksIff(row, e); }
  }

  lemma RowsSilentIff(rows: seq<Row>, ps: seq<Parsed>)
    requires DistinctNames(ps)
    ensures Flat(RowsMessages(rows, JobsByFile(ps, |ps|))) == [] <==> forall row :: row in rows ==> RowPasses(row, ps)
  {
    var parts := RowsMessages(rows, JobsByFile(ps, |ps|));
    FlatEmptyIff(parts);
    forall i | 0 <= i < |rows| ensures parts[i] == [] <==> RowPasses(rows[i], ps) {
      RowPassesIff(rows[i], ps);
    }
  }

  /** The gate is silent exactly when both invariants hold and everything could be read. */
  lemma GateExact(ps: seq<Parsed>, rows: Option<seq<Row>>, scan: Scanner)
    requires DistinctNames(ps)
    ensures Report(ps, rows, scan) == [] <==> GateHolds(ps, rows, scan)
  {
    FilesSilentIff(ps, scan);
    if rows.Some? { RowsSilentIff(rows.value, ps); }
  }
}
