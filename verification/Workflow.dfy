/** Splitting a workflow file into its `jobs:` block and the block into jobs, by indentation. */
module Workflow {
  import opened Text
  import opened WorkflowLines
  import opened Dicts
  import opened Runs

  /** `top` is the file's outer indent; lines start..end are the block under `jobs:`. */
  datatype Span = Span(top: nat, start: nat, end: nat)

  /** `numbered` also stands for the record's `lines`, which are its texts. */
  datatype Job = Job(numbered: seq<Line>, name: string, off: bool, unreadable: string)

  type JobEntry = Entry<string, Job>

  function LinesOf(ts: seq<Token>): (ls: seq<Line>)
    ensures |ls| == |ts| && forall i :: 0 <= i < |ts| ==> ls[i] == ts[i].line
  {
    seq(|ts|, i requires 0 <= i < |ts| => ts[i].line)
  }

  // ---- The block under jobs: ------------------------------------------------

  ghost predicate LeastIndent(ts: seq<Token>, n: nat) {
    && (forall t :: t in ts ==> n <= t.indent)
    && (if ts == [] then n == 0 else exists t :: t in ts && t.indent == n)
  }

  /** The least indent of the file, 0 for an empty one. */
  function TopIndent(ts: seq<Token>): (top: nat)
    ensures LeastIndent(ts, top)
  {
    if ts == [] then 0
    else
      var first, rest := ts[0].indent, TopIndent(ts[1..]);
      assert forall t :: t in ts <==> t == ts[0] || t in ts[1..];
      if |ts| == 1 || first < rest then first else rest
  }

  predicate IsHeader(t: Token, top: nat) {
    t.header && t.indent == top
  }

  /** The first header at or after line `i`, or |ts|. */
  function HeaderFrom(ts: seq<Token>, top: nat, i: nat): (h: nat)
    requires i <= |ts|
    ensures i <= h <= |ts| && (h < |ts| ==> IsHeader(ts[h], top))
    ensures forall j :: i <= j < h ==> !IsHeader(ts[j], top)
    decreases |ts| - i
  {
    if i == |ts| || IsHeader(ts[i], top) then i else HeaderFrom(ts, top, i + 1)
  }

  /** The first line at or after `i` that is not deeper than `top`, or |ts|. */
  function BlockEnd(ts: seq<Token>, top: nat, i: nat): (e: nat)
    requires i <= |ts|
    ensures i <= e <= |ts| && (e < |ts| ==> ts[e].indent <= top)
    ensures forall j :: i <= j < e ==> ts[j].indent > top
    decreases |ts| - i
  {
    if i == |ts| || ts[i].indent <= top then i else BlockEnd(ts, top, i + 1)
  }

  /** The block of the first `jobs:` line at the least indent: every line after it, up to the first at that indent. */
  ghost predicate IsSpan(ts: seq<Token>, s: Span) {
    && 0 < s.start <= s.end <= |ts| && LeastIndent(ts, s.top)
    && IsHeader(ts[s.start - 1], s.top)
    && (forall j :: 0 <= j < s.start - 1 ==> !IsHeader(ts[j], s.top))
    && (forall j :: s.start <= j < s.end ==> ts[j].indent > s.top)
    && (s.end < |ts| ==> ts[s.end].indent == s.top)
  }

  function JobsSpan(ts: seq<Token>): (s: Option<Span>)
    ensures s.Some? ==> IsSpan(ts, s.value)
    ensures s == None ==> forall t :: t in ts ==> !IsHeader(t, TopIndent(ts))
  {
    var top := TopIndent(ts);
    var h := HeaderFrom(ts, top, 0);
    if h == |ts| then None else Some(Span(top, h + 1, BlockEnd(ts, top, h + 1)))
  }

  function Around(ts: seq<Token>, i: nat, j: nat): seq<Line>
    requires i <= j <= |ts|
  {
    LinesOf(ts[..i] + ts[j..])
  }

  function WorkflowLevelLines(ts: seq<Token>): seq<Line> {
    match JobsSpan(ts)
    case None => []
    case Some(s) => Around(ts, s.start - 1, s.end)
  }

  lemma LevelParts(ts: seq<Token>, s: Span)
    requires JobsSpan(ts) == Some(s)
    ensures WorkflowLevelLines(ts) == Around(ts, s.start - 1, s.end)
    ensures |WorkflowLevelLines(ts)| == s.start - 1 + |ts| - s.end && IsHeader(ts[s.start - 1], s.top)
  {
  }

  // ---- What the jobs of a block are ------------------------------------------

  /** A job key line and the lines up to the next one. */
  datatype Segment = Segment(line: Line, key: Key, body: seq<Token>)

  datatype Split = Split(before: seq<Token>, segs: seq<Segment>)

  /** Job keys sit at the indent of the block's first line. */
  predicate IsJobKey(t: Token, jobIndent: nat) {
    t.indent == jobIndent && t.key.Some?
  }

  function JobIndent(block: seq<Token>): nat {
    if block == [] then 0 else block[0].indent
  }

  function AddLine(s: Split, t: Token, jobIndent: nat): Split {
    var n := |s.segs|;
    if IsJobKey(t, jobIndent) then s.(segs := s.segs + [Segment(t.line, t.key.value, [])])
    else if n == 0 then s.(before := s.before + [t])
    else s.(segs := s.segs[..n - 1] + [s.segs[n - 1].(body := s.segs[n - 1].body + [t])])
  }

  function Adder(jobIndent: nat): (Split, Token) -> Split {
    (s, t) => AddLine(s, t, jobIndent)
  }

  /** The first `n` lines of a block, split. */
  function SplitTo(block: seq<Token>, jobIndent: nat, n: nat): Split
    requires n <= |block|
  {
    After(Adder(jobIndent), Split([], []), block, n)
  }

  /** A line at the indent of the job's first body line. */
  predicate AtKeyIndent(body: seq<Token>, i: nat)
    requires i < |body|
  {
    body[i].indent == body[0].indent
  }

  predicate DeclaredOff(body: seq<Token>) {
    exists i :: 0 <= i < |body| && AtKeyIndent(body, i) && body[i].off
  }

  /** The last `name:` among the first `n` body lines, else the job id. */
  function DeclaredName(id: string, body: seq<Token>, n: nat): string
    requires n <= |body|
  {
    if n == 0 then id
    else if AtKeyIndent(body, n - 1) && body[n - 1].name.Some? then body[n - 1].name.value
    else DeclaredName(id, body, n - 1)
  }

  function Owned(g: Segment): seq<Line> {
    (if g.key.inline != "" then [g.line] else []) + LinesOf(g.body)
  }

  function JobOf(g: Segment): Job {
    Job(Owned(g), DeclaredName(g.key.id, g.body, |g.body|), DeclaredOff(g.body), g.key.unreadable)
  }

  /** The assignments to the jobs dict, one a segment. */
  function Items(segs: seq<Segment>): (items: seq<JobEntry>)
    ensures |items| == |segs| && forall i :: 0 <= i < |segs| ==> items[i] == Entry(segs[i].key.id, JobOf(segs[i]))
  {
    seq(|segs|, i requires 0 <= i < |segs| => Entry(segs[i].key.id, JobOf(segs[i])))
  }

  /** The lines under `jobs:`; none without one. */
  function Block(ts: seq<Token>): seq<Token> {
    match JobsSpan(ts)
    case None => []
    case Some(s) => ts[s.start..s.end]
  }

  function SplitOf(ts: seq<Token>): Split {
    SplitTo(Block(ts), JobIndent(Block(ts)), |Block(ts)|)
  }

  /** The jobs of a workflow, by what its lines declare. */
  function JobsOf(ts: seq<Token>): seq<JobEntry> {
    FromItems(Items(SplitOf(ts).segs))
  }

  // ---- The one-pass splitter --------------------------------------------------

  lemma {:induction false} NameOfPrefix(id: string, body: seq<Token>, body': seq<Token>, n: nat)
    requires n <= |body| && body <= body'
    ensures DeclaredName(id, body', n) == DeclaredName(id, body, n)
    decreases n
  {
    if n > 0 { NameOfPrefix(id, body, body', n - 1); }
  }

  /** What one more body line makes of a job. */
  function Taken(was: Job, keyIndent: Option<nat>, t: Token): Job {
    var atKey := keyIndent.GetOr(t.indent) == t.indent;
    Job(was.numbered + [t.line],
        if atKey && !t.off && t.name.Some? then t.name.value else was.name,
        was.off || (atKey && t.off), was.unreadable)
  }

  function KeyIndentOf(body: seq<Token>): Option<nat> {
    if body == [] then None else Some(body[0].indent)
  }

  lemma OffGrows(body: seq<Token>, t: Token)
    ensures DeclaredOff(body + [t]) <==> DeclaredOff(body) || (KeyIndentOf(body).GetOr(t.indent) == t.indent && t.off)
  {
    var body' := body + [t];
    if i :| 0 <= i < |body| && AtKeyIndent(body, i) && body[i].off {
      assert AtKeyIndent(body', i) && body'[i].off;
    }
    if KeyIndentOf(body).GetOr(t.indent) == t.indent && t.off {
      assert AtKeyIndent(body', |body|) && body'[|body|].off;
    }
    if i :| 0 <= i < |body'| && AtKeyIndent(body', i) && body'[i].off {
      if i < |body| { assert AtKeyIndent(body, i) && body[i].off; }
    }
  }

  lemma BodyGrows(g: Segment, t: Token)
    requires !(t.off && t.name.Some?)
    ensures JobOf(g.(body := g.body + [t])) == Taken(JobOf(g), KeyIndentOf(g.body), t)
  {
    var body' := g.body + [t];
    OffGrows(g.body, t);
    NameOfPrefix(g.key.id, g.body, body', |g.body|);
    assert AtKeyIndent(body', |g.body|) <==> KeyIndentOf(g.body).GetOr(t.indent) == t.indent;
    assert LinesOf(body') == LinesOf(g.body) + [t.line];
    assert Owned(g.(body := body')) == Owned(g) + [t.line];
  }

  /** The loop's variables. */
  datatype Progress = Progress(jobs: seq<JobEntry>, current: Option<JobEntry>, keyIndent: Option<nat>)

  /** What they say about the segments read so far. */
  function ProgressOf(segs: seq<Segment>): Progress {
    if segs == [] then Progress([], None, None)
    else
      var g := segs[|segs| - 1];
      Progress(FromItems(Items(segs)), Some(Entry(g.key.id, JobOf(g))), KeyIndentOf(g.body))
  }

  /** The record a job key line starts. */
  function FreshJob(t: Token): Job
    requires t.key.Some?
  {
    Job(if t.key.value.inline != "" then [t.line] else [], t.key.value.id, false, t.key.value.unreadable)
  }

  /** One line of the pass. */
  function Advance(p: Progress, t: Token, jobIndent: nat): Progress {
    if IsJobKey(t, jobIndent) then
      var id, job := t.key.value.id, FreshJob(t);
      Progress(Put(p.jobs, id, job), Some(Entry(id, job)), None)
    else if p.current.None? then p
    else
      var id, job := p.current.value.key, Taken(p.current.value.value, p.keyIndent, t);
      Progress(Put(p.jobs, id, job), Some(Entry(id, job)), Some(p.keyIndent.GetOr(t.indent)))
  }

  function Advancer(jobIndent: nat): (Progress, Token) -> Progress {
    (p, t) => Advance(p, t, jobIndent)
  }

  const AT_START := Progress([], None, None)

  function AdvanceTo(block: seq<Token>, jobIndent: nat, n: nat): Progress
    requires n <= |block|
  {
    After(Advancer(jobIndent), AT_START, block, n)
  }

  lemma ProgressAtKey(split: Split, t: Token, jobIndent: nat)
    requires IsJobKey(t, jobIndent)
    ensures ProgressOf(AddLine(split, t, jobIndent).segs) == Advance(ProgressOf(split.segs), t, jobIndent)
  {
    var segs := AddLine(split, t, jobIndent).segs;
    var g := segs[|segs| - 1];
    assert Owned(g) == FreshJob(t).numbered;
    assert Items(segs) == Items(split.segs) + [Entry(g.key.id, JobOf(g))];
    FromItemsSnoc(Items(split.segs), Entry(g.key.id, JobOf(g)));
  }

  /** Growing the last segment changes the dict at its id only. */
  lemma LastSegmentPut(prior: seq<Segment>, g: Segment, g': Segment)
    requires g'.key == g.key
    ensures FromItems(Items(prior + [g'])) == Put(FromItems(Items(prior + [g])), g.key.id, JobOf(g'))
  {
    var before, e, e' := Items(prior), Entry(g.key.id, JobOf(g)), Entry(g.key.id, JobOf(g'));
    assert Items(prior + [g]) == before + [e] && Items(prior + [g']) == before + [e'];
    FromItemsSnoc(before, e);
    FromItemsSnoc(before, e');
    PutTwice(FromItems(before), g.key.id, e.value, e'.value);
  }

  lemma ProgressOfLast(prior: seq<Segment>, g: Segment)
    ensures ProgressOf(prior + [g])
            == Progress(FromItems(Items(prior + [g])), Some(Entry(g.key.id, JobOf(g))), KeyIndentOf(g.body))
  {
  }

  /** A body line changes the last segment's job, in the dict and as the current one. */
  lemma ProgressGrows(prior: seq<Segment>, g: Segment, t: Token, jobIndent: nat)
    requires !IsJobKey(t, jobIndent) && !(t.off && t.name.Some?)
    ensures ProgressOf(prior + [g.(body := g.body + [t])]) == Advance(ProgressOf(prior + [g]), t, jobIndent)
  {
    var g' := g.(body := g.body + [t]);
    BodyGrows(g, t);
    LastSegmentPut(prior, g, g');
    ProgressOfLast(prior, g);
    ProgressOfLast(prior, g');
    assert KeyIndentOf(g'.body) == Some(KeyIndentOf(g.body).GetOr(t.indent));
  }

  lemma LastSegment(segs: seq<Segment>)
    requires segs != []
    ensures segs[..|segs| - 1] + [segs[|segs| - 1]] == segs
  {
  }

  lemma ProgressAtBody(split: Split, t: Token, jobIndent: nat)
    requires !IsJobKey(t, jobIndent) && !(t.off && t.name.Some?)
    ensures ProgressOf(AddLine(split, t, jobIndent).segs) == Advance(ProgressOf(split.segs), t, jobIndent)
  {
    if split.segs != [] {
      var n := |split.segs| - 1;
      LastSegment(split.segs);
      ProgressGrows(split.segs[..n], split.segs[n], t, jobIndent);
    }
  }

  lemma ProgressAtLine(split: Split, t: Token, jobIndent: nat)
    requires !(t.off && t.name.Some?)
    ensures ProgressOf(AddLine(split, t, jobIndent).segs) == Advance(ProgressOf(split.segs), t, jobIndent)
  {
    if IsJobKey(t, jobIndent) { ProgressAtKey(split, t, jobIndent); } else { ProgressAtBody(split, t, jobIndent); }
  }

  /** After `k` lines the one-pass state is what `s` says. */
  ghost predicate Agrees(block: seq<Token>, jobIndent: nat, s: Split, k: nat) {
    k <= |block| && ProgressOf(s.segs) == AdvanceTo(block, jobIndent, k)
  }

  lemma AgreesNext(block: seq<Token>, jobIndent: nat, s: Split, k: nat)
    requires k < |block| && !(block[k].off && block[k].name.Some?) && Agrees(block, jobIndent, s, k)
    ensures Agrees(block, jobIndent, AddLine(s, block[k], jobIndent), k + 1)
  {
    ProgressAtLine(s, block[k], jobIndent);
    assert AdvanceTo(block, jobIndent, k + 1) == Advance(AdvanceTo(block, jobIndent, k), block[k], jobIndent);
  }

  /** The one-pass state is that of the segments: one pass computes what the lines declare. */
  lemma AdvanceIsSplit(block: seq<Token>, jobIndent: nat, n: nat)
    requires n <= |block| && forall t :: t in block ==> !(t.off && t.name.Some?)
    ensures AdvanceTo(block, jobIndent, n) == ProgressOf(SplitTo(block, jobIndent, n).segs)
  {
    var inv := (s: Split, k: nat) => Agrees(block, jobIndent, s, k);
    forall k: nat | k < |block| && inv(SplitTo(block, jobIndent, k), k)
      ensures inv(Adder(jobIndent)(SplitTo(block, jobIndent, k), block[k]), k + 1)
    {
      AgreesNext(block, jobIndent, SplitTo(block, jobIndent, k), k);
    }
    InvariantAt(Adder(jobIndent), inv, Split([], []), block, n);
  }

  /** One line under `jobs:`: it starts a job, or goes to the current one if there is one. */
  method ReadLine(was: Progress, t: Token, jobIndent: nat)
    returns (jobs: seq<JobEntry>, current: Option<JobEntry>, keyIndent: Option<nat>)
    ensures Progress(jobs, current, keyIndent) == Advance(was, t, jobIndent)
  {
    jobs, current, keyIndent := was.jobs, was.current, was.keyIndent;
    if t.indent == jobIndent && t.key.Some? {
      var job := FreshJob(t);
      jobs := Put(jobs, t.key.value.id, job);
      current, keyIndent := Some(Entry(t.key.value.id, job)), None;
      return;
    }
    if current.None? { return; }
    var id, job := current.value.key, current.value.value;
    job := job.(numbered := job.numbered + [t.line]);
    if keyIndent.None? { keyIndent := Some(t.indent); }
    if t.indent == keyIndent.value {
      if t.off {
        job := job.(off := true);
      } else if t.name.Some? {
        job := job.(name := t.name.value);
      }
    }
    current := Some(Entry(id, job));
    jobs := Put(jobs, id, job);
  }

  /** The pass over the lines after the header, breaking off at the first that is not under `jobs:`. */
  method WalkBlock(ts: seq<Token>, span: Span) returns (jobs: seq<JobEntry>)
    requires IsSpan(ts, span)
    ensures var block := ts[span.start..span.end]; jobs == AdvanceTo(block, JobIndent(block), |block|).jobs
  {
    jobs := [];
    var current: Option<JobEntry> := None;
    var jobIndent: Option<nat> := None;
    var keyIndent: Option<nat> := None;
    ghost var block := ts[span.start..span.end];
    var i := span.start;
    while i < |ts|
      invariant span.start <= i <= span.end
      invariant jobIndent == if i == span.start then None else Some(JobIndent(block))
      invariant Progress(jobs, current, keyIndent) == AdvanceTo(block, JobIndent(block), i - span.start)
    {
      if ts[i].indent <= span.top { break; }
      assert ts[i] == block[i - span.start];
      if jobIndent.None? { jobIndent := Some(ts[i].indent); }
      jobs, current, keyIndent := ReadLine(Progress(jobs, current, keyIndent), ts[i], jobIndent.value);
      i := i + 1;
    }
  }

  method WorkflowJobs(ts: seq<Token>) returns (jobs: seq<JobEntry>)
    requires forall t :: t in ts ==> !(t.off && t.name.Some?)
    ensures jobs == JobsOf(ts)
  {
    jobs := [];
    var span := JobsSpan(ts);
    if span.Some? {
      AdvanceIsSplit(Block(ts), JobIndent(Block(ts)), |Block(ts)|);
      jobs := WalkBlock(ts, span.value);
    }
  }
}
