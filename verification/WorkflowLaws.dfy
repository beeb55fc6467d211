/** What the splitter never does: lose a line, read a flag from the wrong depth,
    or depend on how wide the file's indents are. */
module WorkflowLaws {
  import opened Text
  import opened Lists
  import opened WorkflowLines
  import opened Dicts
  import opened Runs
  import opened Workflow

  // ---- No lost line ----------------------------------------------------------

  /** The segments' lines, key lines first, in order. */
  function Flatten(segs: seq<Segment>): seq<Line> {
    if segs == [] then []
    else Flatten(segs[..|segs| - 1]) + [segs[|segs| - 1].line] + LinesOf(segs[|segs| - 1].body)
  }

  lemma LinesOfConcat(a: seq<Token>, b: seq<Token>)
    ensures LinesOf(a + b) == LinesOf(a) + LinesOf(b)
  {
  }

  lemma AddLineKeepsAll(s: Split, t: Token, jobIndent: nat)
    ensures var s' := AddLine(s, t, jobIndent);
            LinesOf(s'.before) + Flatten(s'.segs) == LinesOf(s.before) + Flatten(s.segs) + [t.line]
  {
    var s' := AddLine(s, t, jobIndent);
    var n := |s.segs|;
    if IsJobKey(t, jobIndent) {
      assert s'.segs[..n] == s.segs;
    } else if n == 0 {
      LinesOfConcat(s.before, [t]);
    } else {
      assert s'.segs[..n - 1] == s.segs[..n - 1];
      LinesOfConcat(s.segs[n - 1].body, [t]);
    }
  }

  lemma OneLineMore(block: seq<Token>, k: nat)
    requires k < |block|
    ensures LinesOf(block[..k + 1]) == LinesOf(block[..k]) + [block[k].line]
  {
  }

  /** The lines of a split, put back together. */
  function Rejoined(s: Split): seq<Line> {
    LinesOf(s.before) + Flatten(s.segs)
  }

  lemma SplitKeepsAll(block: seq<Token>, jobIndent: nat, n: nat)
    requires n <= |block|
    ensures Rejoined(SplitTo(block, jobIndent, n)) == LinesOf(block[..n])
  {
    var inv := (s: Split, k: nat) => k <= |block| && Rejoined(s) == LinesOf(block[..k]);
    forall s, k: nat | k < |block| && inv(s, k) ensures inv(Adder(jobIndent)(s, block[k]), k + 1) {
      AddLineKeepsAll(s, block[k], jobIndent);
      OneLineMore(block, k);
    }
    InvariantAt(Adder(jobIndent), inv, Split([], []), block, n);
  }

  /** Key lines that are no job's own line, and the jobs' lines, in order. */
  function Accounted(segs: seq<Segment>, jobs: seq<JobEntry>): seq<Line>
    requires |segs| == |jobs|
  {
    if segs == [] then []
    else
      var n := |segs| - 1;
      Accounted(segs[..n], jobs[..n])
      + (if segs[n].key.inline == "" then [segs[n].line] else []) + jobs[n].value.numbered
  }

  lemma ItemsPrefix(segs: seq<Segment>, n: nat)
    requires n <= |segs|
    ensures Items(segs)[..n] == Items(segs[..n])
  {
  }

  lemma BareAndOwned(g: Segment)
    ensures (if g.key.inline == "" then [g.line] else []) + Owned(g) == [g.line] + LinesOf(g.body)
  {
  }

  lemma Regroup(a: seq<Line>, b: seq<Line>, c: seq<Line>)
    ensures (a + b) + c == a + (b + c)
  {
  }

  lemma {:induction false} AccountedIsFlatten(segs: seq<Segment>)
    ensures Accounted(segs, Items(segs)) == Flatten(segs)
    decreases |segs|
  {
    if segs != [] {
      var n := |segs| - 1;
      var prior, g, jobs := segs[..n], segs[n], Items(segs);
      ItemsPrefix(segs, n);
      AccountedIsFlatten(prior);
      BareAndOwned(g);
      var bare := if g.key.inline == "" then [g.line] else [];
      assert jobs[n].value.numbered == Owned(g);
      assert Accounted(segs, jobs) == Accounted(prior, jobs[..n]) + bare + Owned(g);
      Regroup(Flatten(prior), bare, Owned(g));
      Regroup(Flatten(prior), [g.line], LinesOf(g.body));
    }
  }

  /** The block under `jobs:` is the lines before the first job key, then each
      job's key line (when bare) and own lines, in order. */
  lemma BlockAccounted(ts: seq<Token>, s: Span)
    requires JobsSpan(ts) == Some(s) && NoRepeats(Keys(Items(SplitOf(ts).segs)))
    ensures var split, jobs := SplitOf(ts), JobsOf(ts);
            && |split.segs| == |jobs|
            && LinesOf(ts[s.start..s.end]) == LinesOf(split.before) + Accounted(split.segs, jobs)
  {
    var segs := SplitOf(ts).segs;
    SizeIffDistinct(Items(segs));
    AccountedIsFlatten(segs);
    SplitKeepsAll(Block(ts), JobIndent(Block(ts)), |Block(ts)|);
    assert Block(ts)[..|Block(ts)|] == Block(ts);
  }

  /** With distinct ids the whole file is: lines above, the `jobs:` header, the
      block as its jobs account for it, lines below. */
  lemma NoLostLine(ts: seq<Token>, s: Span)
    requires JobsSpan(ts) == Some(s) && NoRepeats(Keys(Items(SplitOf(ts).segs)))
    ensures |SplitOf(ts).segs| == |JobsOf(ts)| && s.start - 1 <= |WorkflowLevelLines(ts)|
    ensures IsHeader(ts[s.start - 1], s.top)
    ensures LinesOf(ts) == WorkflowLevelLines(ts)[..s.start - 1] + [ts[s.start - 1].line]
                           + LinesOf(SplitOf(ts).before) + Accounted(SplitOf(ts).segs, JobsOf(ts))
                           + WorkflowLevelLines(ts)[s.start - 1..]
  {
    BlockAccounted(ts, s);
    LevelParts(ts, s);
    Reassembled(ts, s, LinesOf(SplitOf(ts).before), Accounted(SplitOf(ts).segs, JobsOf(ts)));
  }

  lemma Reassembled(ts: seq<Token>, s: Span, before: seq<Line>, rest: seq<Line>)
    requires JobsSpan(ts) == Some(s) && LinesOf(ts[s.start..s.end]) == before + rest
    ensures s.start - 1 <= |WorkflowLevelLines(ts)|
    ensures LinesOf(ts) == WorkflowLevelLines(ts)[..s.start - 1] + [ts[s.start - 1].line]
                           + before + rest + WorkflowLevelLines(ts)[s.start - 1..]
  {
    var level := WorkflowLevelLines(ts);
    LevelParts(ts, s);
    FourParts(ts, s.start, s.end);
    Regroup(level[..s.start - 1] + [ts[s.start - 1].line], before, rest);
  }

  lemma FourParts(ts: seq<Token>, start: nat, end: nat)
    requires 0 < start <= end <= |ts|
    ensures var level := Around(ts, start - 1, end);
            LinesOf(ts) == level[..start - 1] + [ts[start - 1].line] + LinesOf(ts[start..end]) + level[start - 1..]
  {
  }

  /** Every job key line keeps its own job iff no id is written twice. */
  lemma JobPerKeyLineIff(ts: seq<Token>)
    ensures |JobsOf(ts)| == |SplitOf(ts).segs| <==> NoRepeats(Keys(Items(SplitOf(ts).segs)))
  {
    SizeIffDistinct(Items(SplitOf(ts).segs));
  }

  /** Of two jobs with one id only the last is kept. */
  lemma LastJobWins(ts: seq<Token>, id: string)
    ensures Get(JobsOf(ts), id) == LastValue(Items(SplitOf(ts).segs), id)
  {
    LastItemWins(Items(SplitOf(ts).segs), id);
  }

  // ---- Flags -------------------------------------------------------------------

  /** A job's name is the last `name:` at the indent of its first body line, else its id. */
  lemma {:induction false} NameIsLastAtKeyIndent(id: string, body: seq<Token>, n: nat)
    requires n <= |body|
    ensures || (DeclaredName(id, body, n) == id
                && forall i :: 0 <= i < n ==> !(AtKeyIndent(body, i) && body[i].name.Some?))
            || (exists i :: (0 <= i < n && AtKeyIndent(body, i) && body[i].name == Some(DeclaredName(id, body, n))
                             && forall j :: i < j < n ==> !(AtKeyIndent(body, j) && body[j].name.Some?)))
    decreases n
  {
    if n > 0 { NameIsLastAtKeyIndent(id, body, n - 1); }
  }

  /** A job of the file is off iff one of its own lines, at the indent of its
      first body line, is the false condition; deeper conditions do not count. */
  lemma OffOnlyAtKeyIndent(ts: seq<Token>, e: JobEntry)
    requires e in JobsOf(ts)
    ensures exists g :: g in SplitOf(ts).segs && IsJobOf(e, g)
  {
    var segs := SplitOf(ts).segs;
    FromItemsEntry(Items(segs), e);
    var k :| 0 <= k < |segs| && Items(segs)[k] == e;
    SegmentIsJob(segs[k]);
  }

  ghost predicate IsJobOf(e: JobEntry, g: Segment) {
    && e.key == g.key.id
    && e.value.numbered == (if g.key.inline != "" then [g.line] else []) + LinesOf(g.body)
    && (e.value.off <==> exists i :: 0 <= i < |g.body| && g.body[i].indent == g.body[0].indent && g.body[i].off)
    && e.value.name == DeclaredName(e.key, g.body, |g.body|)
  }

  lemma SegmentIsJob(g: Segment)
    ensures IsJobOf(Entry(g.key.id, JobOf(g)), g)
  {
    if i :| 0 <= i < |g.body| && g.body[i].indent == g.body[0].indent && g.body[i].off {
      assert AtKeyIndent(g.body, i);
    }
  }
}
