/** Re-indenting a workflow: only the order of its indents matters to the splitter. */
module WorkflowReindent {
  import opened Text
  import opened Dicts
  import opened Runs
  import opened WorkflowLines
  import opened Workflow

  ghost predicate Ordered(f: nat -> nat, a: nat, b: nat) {
    a < b ==> f(a) < f(b)
  }

  ghost predicate StrictlyIncreasing(f: nat -> nat) {
    forall a: nat, b: nat :: Ordered(f, a, b)
  }

  lemma Compare(f: nat -> nat, a: nat, b: nat)
    requires StrictlyIncreasing(f)
    ensures (f(a) < f(b) <==> a < b) && (f(a) == f(b) <==> a == b)
  {
    assert Ordered(f, a, b) && Ordered(f, b, a);
  }

  /** The line with its leading spaces replaced. */
  function Reindent(f: nat -> nat, l: Line): Line {
    Line(l.number, Spaces(f(IndentOf(l.text))) + l.text[IndentOf(l.text)..])
  }

  function ReindentLines(f: nat -> nat, ls: seq<Line>): (ls': seq<Line>)
    ensures |ls'| == |ls| && forall i :: 0 <= i < |ls| ==> ls'[i] == Reindent(f, ls[i])
  {
    seq(|ls|, i requires 0 <= i < |ls| => Reindent(f, ls[i]))
  }

  function ReindentToken(f: nat -> nat, t: Token): Token {
    t.(line := Reindent(f, t.line), indent := f(t.indent))
  }

  function ReindentAll(f: nat -> nat, ts: seq<Token>): (ts': seq<Token>)
    ensures |ts'| == |ts| && forall i :: 0 <= i < |ts| ==> ts'[i] == ReindentToken(f, ts[i])
  {
    seq(|ts|, i requires 0 <= i < |ts| => ReindentToken(f, ts[i]))
  }

  // ---- One line ------------------------------------------------------------

  /** Every test but the indent gives the same answer on the re-indented line. */
  lemma LexReindents(f: nat -> nat, l: Line)
    ensures Lex(Reindent(f, l)) == ReindentToken(f, Lex(l))
  {
    var n := IndentOf(l.text);
    var rest := l.text[n..];
    assert l.text == Spaces(n) + rest;
    LeadingSpaces(n, rest);
    LeadingSpaces(f(n), rest);
  }

  // ---- The span --------------------------------------------------------------

  lemma {:induction false} TopReindents(f: nat -> nat, ts: seq<Token>)
    requires StrictlyIncreasing(f) && ts != []
    ensures TopIndent(ReindentAll(f, ts)) == f(TopIndent(ts))
    decreases |ts|
  {
    if |ts| > 1 {
      assert ReindentAll(f, ts)[1..] == ReindentAll(f, ts[1..]);
      TopReindents(f, ts[1..]);
      Compare(f, ts[0].indent, TopIndent(ts[1..]));
    }
  }

  lemma {:induction false} HeaderReindents(f: nat -> nat, ts: seq<Token>, top: nat, i: nat)
    requires StrictlyIncreasing(f) && i <= |ts|
    ensures HeaderFrom(ReindentAll(f, ts), f(top), i) == HeaderFrom(ts, top, i)
    decreases |ts| - i
  {
    if i < |ts| {
      Compare(f, ts[i].indent, top);
      HeaderReindents(f, ts, top, i + 1);
    }
  }

  lemma {:induction false} EndReindents(f: nat -> nat, ts: seq<Token>, top: nat, i: nat)
    requires StrictlyIncreasing(f) && i <= |ts|
    ensures BlockEnd(ReindentAll(f, ts), f(top), i) == BlockEnd(ts, top, i)
    decreases |ts| - i
  {
    if i < |ts| {
      Compare(f, ts[i].indent, top);
      EndReindents(f, ts, top, i + 1);
    }
  }

  /** The three searches for the span, on the re-indented file. */
  lemma SearchesReindent(f: nat -> nat, ts: seq<Token>, top: nat, h: nat)
    requires StrictlyIncreasing(f) && ts != [] && top == TopIndent(ts) && h == HeaderFrom(ts, top, 0)
    ensures TopIndent(ReindentAll(f, ts)) == f(top) && HeaderFrom(ReindentAll(f, ts), f(top), 0) == h
    ensures h < |ts| ==> BlockEnd(ReindentAll(f, ts), f(top), h + 1) == BlockEnd(ts, top, h + 1)
  {
    TopReindents(f, ts);
    HeaderReindents(f, ts, top, 0);
    if h < |ts| { EndReindents(f, ts, top, h + 1); }
  }

  lemma SpanReindents(f: nat -> nat, ts: seq<Token>)
    requires StrictlyIncreasing(f)
    ensures JobsSpan(ReindentAll(f, ts)) ==
            match JobsSpan(ts)
            case None => None
            case Some(s) => Some(Span(f(s.top), s.start, s.end))
  {
    if ts != [] { SearchesReindent(f, ts, TopIndent(ts), HeaderFrom(ts, TopIndent(ts), 0)); }
  }

  // ---- The jobs ----------------------------------------------------------------

  function ReindentSegment(f: nat -> nat, g: Segment): Segment {
    Segment(Reindent(f, g.line), g.key, ReindentAll(f, g.body))
  }

  function ReindentSegments(f: nat -> nat, segs: seq<Segment>): (segs': seq<Segment>)
    ensures |segs'| == |segs| && forall i :: 0 <= i < |segs| ==> segs'[i] == ReindentSegment(f, segs[i])
  {
    seq(|segs|, i requires 0 <= i < |segs| => ReindentSegment(f, segs[i]))
  }

  function ReindentSplit(f: nat -> nat, s: Split): Split {
    Split(ReindentAll(f, s.before), ReindentSegments(f, s.segs))
  }

  function ReindentJob(f: nat -> nat, j: Job): Job {
    j.(numbered := ReindentLines(f, j.numbered))
  }

  function ReindentJobs(f: nat -> nat, d: seq<JobEntry>): (d': seq<JobEntry>)
    ensures |d'| == |d| && forall i :: 0 <= i < |d| ==> d'[i] == Entry(d[i].key, ReindentJob(f, d[i].value))
  {
    seq(|d|, i requires 0 <= i < |d| => Entry(d[i].key, ReindentJob(f, d[i].value)))
  }

  lemma AddLineReindents(f: nat -> nat, s: Split, t: Token, jobIndent: nat)
    requires StrictlyIncreasing(f)
    ensures AddLine(ReindentSplit(f, s), ReindentToken(f, t), f(jobIndent))
            == ReindentSplit(f, AddLine(s, t, jobIndent))
  {
    var n := |s.segs|;
    var s', t' := ReindentSplit(f, s), ReindentToken(f, t);
    Compare(f, t.indent, jobIndent);
    if !IsJobKey(t, jobIndent) && n > 0 {
      var g := s.segs[n - 1];
      assert ReindentAll(f, g.body + [t]) == ReindentAll(f, g.body) + [t'];
      assert ReindentSegments(f, s.segs[..n - 1]) == s'.segs[..n - 1];
    }
  }

  /** After `k` re-indented lines the split is `s`, re-indented. */
  ghost predicate SplitAgrees(f: nat -> nat, block: seq<Token>, jobIndent: nat, s: Split, k: nat) {
    k <= |block| && SplitTo(ReindentAll(f, block), f(jobIndent), k) == ReindentSplit(f, s)
  }

  lemma SplitAgreesNext(f: nat -> nat, block: seq<Token>, jobIndent: nat, s: Split, k: nat)
    requires StrictlyIncreasing(f) && k < |block| && SplitAgrees(f, block, jobIndent, s, k)
    ensures SplitAgrees(f, block, jobIndent, AddLine(s, block[k], jobIndent), k + 1)
  {
    var block' := ReindentAll(f, block);
    AddLineReindents(f, s, block[k], jobIndent);
    assert SplitTo(block', f(jobIndent), k + 1) == AddLine(SplitTo(block', f(jobIndent), k), block'[k], f(jobIndent));
  }

  lemma SplitReindents(f: nat -> nat, block: seq<Token>, jobIndent: nat, n: nat)
    requires StrictlyIncreasing(f) && n <= |block|
    ensures SplitTo(ReindentAll(f, block), f(jobIndent), n) == ReindentSplit(f, SplitTo(block, jobIndent, n))
  {
    var inv := (s: Split, k: nat) => SplitAgrees(f, block, jobIndent, s, k);
    assert ReindentSplit(f, Split([], [])) == Split([], []);
    forall k: nat | k < |block| && inv(SplitTo(block, jobIndent, k), k)
      ensures inv(Adder(jobIndent)(SplitTo(block, jobIndent, k), block[k]), k + 1)
    {
      SplitAgreesNext(f, block, jobIndent, SplitTo(block, jobIndent, k), k);
    }
    InvariantAt(Adder(jobIndent), inv, Split([], []), block, n);
  }

  lemma AtKeyReindents(f: nat -> nat, body: seq<Token>, i: nat)
    requires StrictlyIncreasing(f) && i < |body|
    ensures AtKeyIndent(ReindentAll(f, body), i) <==> AtKeyIndent(body, i)
  {
    Compare(f, body[i].indent, body[0].indent);
  }

  lemma OffReindents(f: nat -> nat, body: seq<Token>)
    requires StrictlyIncreasing(f)
    ensures DeclaredOff(ReindentAll(f, body)) <==> DeclaredOff(body)
  {
    var body' := ReindentAll(f, body);
    forall i | 0 <= i < |body| ensures AtKeyIndent(body', i) <==> AtKeyIndent(body, i) { AtKeyReindents(f, body, i); }
    if i :| 0 <= i < |body| && AtKeyIndent(body, i) && body[i].off { assert AtKeyIndent(body', i) && body'[i].off; }
    if i :| 0 <= i < |body'| && AtKeyIndent(body', i) && body'[i].off { assert AtKeyIndent(body, i) && body[i].off; }
  }

  lemma {:induction false} NameReindents(f: nat -> nat, id: string, body: seq<Token>, n: nat)
    requires StrictlyIncreasing(f) && n <= |body|
    ensures DeclaredName(id, ReindentAll(f, body), n) == DeclaredName(id, body, n)
    decreases n
  {
    if n > 0 {
      AtKeyReindents(f, body, n - 1);
      NameReindents(f, id, body, n - 1);
    }
  }

  lemma JobReindents(f: nat -> nat, g: Segment)
    requires StrictlyIncreasing(f)
    ensures JobOf(ReindentSegment(f, g)) == ReindentJob(f, JobOf(g))
  {
    OffReindents(f, g.body);
    NameReindents(f, g.key.id, g.body, |g.body|);
    OwnedReindents(f, g);
  }

  lemma OwnedReindents(f: nat -> nat, g: Segment)
    ensures Owned(ReindentSegment(f, g)) == ReindentLines(f, Owned(g))
  {
    assert LinesOf(ReindentAll(f, g.body)) == ReindentLines(f, LinesOf(g.body));
  }

  lemma ItemsReindent(f: nat -> nat, segs: seq<Segment>)
    requires StrictlyIncreasing(f)
    ensures Items(ReindentSegments(f, segs)) == ReindentJobs(f, Items(segs))
  {
    forall i | 0 <= i < |segs| ensures Items(ReindentSegments(f, segs))[i] == ReindentJobs(f, Items(segs))[i] {
      JobReindents(f, segs[i]);
    }
  }

  lemma {:induction false} PutReindents(f: nat -> nat, d: seq<JobEntry>, id: string, j: Job)
    ensures Put(ReindentJobs(f, d), id, ReindentJob(f, j)) == ReindentJobs(f, Put(d, id, j))
    decreases |d|
  {
    if d != [] {
      assert ReindentJobs(f, d)[1..] == ReindentJobs(f, d[1..]);
      if d[0].key != id { PutReindents(f, d[1..], id, j); }
    }
  }

  lemma {:induction false} FromItemsReindents(f: nat -> nat, items: seq<JobEntry>)
    ensures FromItems(ReindentJobs(f, items)) == ReindentJobs(f, FromItems(items))
    decreases |items|
  {
    if items != [] {
      var n := |items| - 1;
      FromItemsReindents(f, items[..n]);
      assert ReindentJobs(f, items)[..n] == ReindentJobs(f, items[..n]);
      PutReindents(f, FromItems(items[..n]), items[n].key, items[n].value);
    }
  }

  lemma SliceReindents(f: nat -> nat, ts: seq<Token>, i: nat, j: nat)
    requires i <= j <= |ts|
    ensures ReindentAll(f, ts)[i..j] == ReindentAll(f, ts[i..j])
  {
  }

  lemma BlockReindents(f: nat -> nat, ts: seq<Token>)
    requires StrictlyIncreasing(f)
    ensures Block(ReindentAll(f, ts)) == ReindentAll(f, Block(ts))
  {
    SpanReindents(f, ts);
    match JobsSpan(ts)
    case None =>
    case Some(s) => SliceReindents(f, ts, s.start, s.end);
  }

  lemma JobsReindent(f: nat -> nat, ts: seq<Token>)
    requires StrictlyIncreasing(f)
    ensures JobsOf(ReindentAll(f, ts)) == ReindentJobs(f, JobsOf(ts))
  {
    var block, segs := Block(ts), SplitOf(ts).segs;
    BlockReindents(f, ts);
    if block == [] {
      assert SplitOf(ReindentAll(f, ts)).segs == [] == segs;
    } else {
      SplitReindents(f, block, JobIndent(block), |block|);
      assert SplitOf(ReindentAll(f, ts)).segs == ReindentSegments(f, segs);
    }
    ItemsReindent(f, segs);
    FromItemsReindents(f, Items(segs));
  }

  lemma AroundReindents(f: nat -> nat, ts: seq<Token>, i: nat, j: nat)
    requires i <= j <= |ts|
    ensures Around(ReindentAll(f, ts), i, j) == ReindentLines(f, Around(ts, i, j))
  {
    var ts' := ReindentAll(f, ts);
    assert ts'[..i] + ts'[j..] == ReindentAll(f, ts[..i] + ts[j..]);
  }

  lemma LevelOfSpan(f: nat -> nat, ts: seq<Token>, ts': seq<Token>, s: Span, s': Span)
    requires JobsSpan(ts) == Some(s) && JobsSpan(ts') == Some(s') && s'.start == s.start && s'.end == s.end
    requires Around(ts', s.start - 1, s.end) == ReindentLines(f, Around(ts, s.start - 1, s.end))
    ensures WorkflowLevelLines(ts') == ReindentLines(f, WorkflowLevelLines(ts))
  {
    LevelParts(ts, s);
    LevelParts(ts', s');
  }

  lemma NoLevelReindents(f: nat -> nat, ts: seq<Token>)
    requires StrictlyIncreasing(f) && JobsSpan(ts) == None
    ensures WorkflowLevelLines(ReindentAll(f, ts)) == [] == WorkflowLevelLines(ts)
  {
    SpanReindents(f, ts);
  }

  lemma SomeLevelReindents(f: nat -> nat, ts: seq<Token>, s: Span)
    requires StrictlyIncreasing(f) && JobsSpan(ts) == Some(s)
    ensures WorkflowLevelLines(ReindentAll(f, ts)) == ReindentLines(f, WorkflowLevelLines(ts))
  {
    SpanReindents(f, ts);
    AroundReindents(f, ts, s.start - 1, s.end);
    LevelOfSpan(f, ts, ReindentAll(f, ts), s, Span(f(s.top), s.start, s.end));
  }

  lemma LevelReindents(f: nat -> nat, ts: seq<Token>)
    requires StrictlyIncreasing(f)
    ensures WorkflowLevelLines(ReindentAll(f, ts)) == ReindentLines(f, WorkflowLevelLines(ts))
  {
    match JobsSpan(ts)
    case None => NoLevelReindents(f, ts);
    case Some(s) => SomeLevelReindents(f, ts, s);
  }

  /** Indentation equivariance, from the text up: a whole-file shift, or two
      spaces turned into four, moves no line to another owner and changes no id,
      name, off or unreadable flag. */
  lemma OnlyIndentOrderMatters(f: nat -> nat, ls: seq<Line>)
    requires StrictlyIncreasing(f)
    ensures var ts, ts' := LexAll(ls), LexAll(ReindentLines(f, ls));
            && JobsOf(ts') == ReindentJobs(f, JobsOf(ts))
            && WorkflowLevelLines(ts') == ReindentLines(f, WorkflowLevelLines(ts))
            && JobsSpan(ts').Some? == JobsSpan(ts).Some?
            && (JobsSpan(ts).Some? ==> JobsSpan(ts').value.start == JobsSpan(ts).value.start
                                       && JobsSpan(ts').value.end == JobsSpan(ts).value.end)
  {
    var ts := LexAll(ls);
    forall i | 0 <= i < |ls|
      ensures LexAll(ReindentLines(f, ls))[i] == ReindentAll(f, ts)[i]
    {
      LexReindents(f, ls[i]);
    }
    assert LexAll(ReindentLines(f, ls)) == ReindentAll(f, ts);
    SpanReindents(f, ts);
    JobsReindent(f, ts);
    LevelReindents(f, ts);
  }
}
