/** What the splitter's tests say about a line as it is written, and so what a
    job of a file is in terms of the file's text. */
module WorkflowText {
  import opened Text
  import opened TextLaws
  import opened Runs
  import opened Dicts
  import opened WorkflowLines
  import opened Workflow
  import opened WorkflowLaws

  /** `text` is white space, the key `p`, white space, the value `v`, white space. */
  ghost predicate IsKeyed(text: string, p: string, v: string) {
    IsTrim(v) && exists lead, gap, tail :: KeyedBy(text, p, v, lead, gap, tail)
  }

  ghost predicate KeyedBy(text: string, p: string, v: string, lead: string, gap: string, tail: string) {
    IsBlank(lead) && IsBlank(gap) && IsBlank(tail) && text == lead + (p + (gap + v)) + tail
  }

  /** The stripped line begins with `p`; `v` is the stripped rest. */
  predicate ReadsAs(text: string, p: string, v: string) {
    p <= Strip(text) && Strip(Strip(text)[|p|..]) == v
  }

  lemma KeyedIsRead(text: string, p: string, v: string, lead: string, gap: string, tail: string)
    requires IsTrim(p) && p != "" && IsTrim(v) && KeyedBy(text, p, v, lead, gap, tail)
    ensures ReadsAs(text, p, v)
  {
    if v == "" {
      assert text == lead + p + (gap + tail);
      StripIs(lead, p, gap + tail);
      StripIs("", "", "");
      assert "" + "" + "" == "" && p[|p|..] == "";
    } else {
      var core := p + (gap + v);
      assert core[0] == p[0] && core[|core| - 1] == v[|v| - 1];
      StripIs(lead, core, tail);
      assert core[|p|..] == gap + v + "";
      StripIs(gap, v, "");
    }
  }

  lemma BlanksJoin(a: string, b: string)
    requires IsBlank(a) && IsBlank(b)
    ensures IsBlank(a + b)
  {
  }

  lemma Regrouped(lead: string, p: string, gap: string, v: string, more: string, tail: string)
    ensures lead + (p + (gap + v + more)) + tail == lead + (p + (gap + v)) + (more + tail)
  {
  }

  lemma ReadIsKeyed(text: string, p: string, v: string)
    requires ReadsAs(text, p, v)
    ensures IsKeyed(text, p, v)
  {
    var s := Strip(text);
    var rest := s[|p|..];
    StripIff(text, s);
    StripIff(rest, v);
    var lead, tail :| IsBlank(lead) && IsBlank(tail) && text == lead + s + tail;
    var gap, more :| IsBlank(gap) && IsBlank(more) && rest == gap + v + more;
    PrefixSplits(p, s);
    Regrouped(lead, p, gap, v, more, tail);
    BlanksJoin(more, tail);
    assert KeyedBy(text, p, v, lead, gap, more + tail);
  }

  lemma ReadsIffKeyed(text: string, p: string, v: string)
    requires IsTrim(p) && p != ""
    ensures ReadsAs(text, p, v) <==> IsKeyed(text, p, v)
  {
    if ReadsAs(text, p, v) { ReadIsKeyed(text, p, v); }
    if IsKeyed(text, p, v) {
      var lead, gap, tail :| KeyedBy(text, p, v, lead, gap, tail);
      KeyedIsRead(text, p, v, lead, gap, tail);
    }
  }

  // ---- The false condition -----------------------------------------------------

  /** `false`, or `${{`, white space, `false`, white space, `}}`. */
  ghost predicate SpellsFalse(v: string) {
    v == "false" || exists b, c :: IsBlank(b) && IsBlank(c) && v == "${{" + (b + "false" + c) + "}}"
  }

  lemma FalseIff(v: string)
    ensures IsOffValue(v) <==> SpellsFalse(v)
  {
    if |v| >= 5 && v[..3] == "${{" && v[|v| - 2..] == "}}" {
      var inner := v[3..|v| - 2];
      assert v == "${{" + inner + "}}";
      StripIff(inner, "false");
    }
    if b, c :| IsBlank(b) && IsBlank(c) && v == "${{" + (b + "false" + c) + "}}" {
      assert v[3..|v| - 2] == b + "false" + c;
      StripIff(v[3..|v| - 2], "false");
    }
  }

  ghost predicate SpellsOff(text: string) {
    exists v :: SpellsFalse(v) && IsKeyed(text, "if:", v)
  }

  /** A line switches its job off iff it is written `if:` and the literal false. */
  lemma OffIff(text: string)
    ensures IsOff(LStrip(text)) <==> SpellsOff(text)
  {
    if "if:" <= Strip(text) {
      var v := Strip(Strip(text)[3..]);
      FalseIff(v);
      ReadsIffKeyed(text, "if:", v);
    }
    if v :| SpellsFalse(v) && IsKeyed(text, "if:", v) {
      ReadsIffKeyed(text, "if:", v);
      FalseIff(v);
    }
  }

  // ---- The name, the header, an inline job -----------------------------------------

  /** `name:` and `n`, which neither begins nor ends with a quote, between quotes of either kind or none. */
  ghost predicate SpellsName(text: string, n: string) {
    IsBare(n) && exists a, b :: IsQuotes(a) && IsQuotes(b) && IsKeyed(text, "name:", a + n + b)
  }

  lemma NameIff(text: string, n: string)
    ensures NameOf(LStrip(text)) == Some(n) <==> SpellsName(text, n)
  {
    if NameOf(LStrip(text)) == Some(n) {
      var v := Strip(Strip(text)[5..]);
      ReadsIffKeyed(text, "name:", v);
      UnquoteIff(v, n);
    }
    if SpellsName(text, n) {
      var a, b :| IsQuotes(a) && IsQuotes(b) && IsKeyed(text, "name:", a + n + b);
      ReadsIffKeyed(text, "name:", a + n + b);
      UnquoteIs(a, n, b);
    }
  }

  ghost predicate SpellsHeader(text: string) {
    exists lead, tail :: IsBlank(lead) && IsBlank(tail) && text == lead + "jobs:" + tail
  }

  /** The header is `jobs:` alone on its line. */
  lemma HeaderIff(text: string)
    ensures IsJobsHeader(LStrip(text))
            <==> SpellsHeader(text)
  {
    StripIff(text, "jobs:");
  }

  ghost predicate MentionsUses(inline: string) {
    exists i: nat :: OccursAt(inline, "uses:", i)
  }

  /** A job is unreadable iff it is written inline and calls no workflow; it is reported by its line. */
  lemma UnreadableIff(text: string)
    requires KeyOf(LStrip(text)).Some?
    ensures var k := KeyOf(LStrip(text)).value;
            && (k.unreadable == "" <==> k.inline == "" || MentionsUses(k.inline))
            && (k.unreadable != "" ==> k.unreadable == Strip(text))
  {
    var t := LStrip(text);
    ContainsIff(KeyOf(t).value.inline, "uses:");
    var q, n := ReadKeyIsSpelled(t);
    var a := LStripSplits(text);
    var b := RStripSplits(t);
    assert t != "" && !IsSpace(t[0]);
  }

  /** The characters of a job id, by their codes: letters, digits, and `_`, `.`, `-`. */
  lemma IdCharIff(c: char)
    ensures var n := c as int;
            IsIdChar(c) <==> 65 <= n <= 90 || 97 <= n <= 122 || 48 <= n <= 57 || n == 95 || n == 46 || n == 45
  {
  }

  /** The id in matching quotes or none, a colon, and the inline part, after the line's white space. */
  ghost predicate SpellsKey(text: string, id: string, inline: string) {
    exists q, n :: Spells(LStrip(text), q, id, n, inline)
  }

  lemma KeyIsSpelled(text: string)
    requires KeyOf(LStrip(text)).Some?
    ensures SpellsKey(text, KeyOf(LStrip(text)).value.id, KeyOf(LStrip(text)).value.inline)
  {
    var q, n := ReadKeyIsSpelled(LStrip(text));
  }

  lemma SpelledIsKey(text: string, id: string, inline: string)
    requires SpellsKey(text, id, inline)
    ensures KeyOf(LStrip(text)).Some?
    ensures KeyOf(LStrip(text)).value.id == id && KeyOf(LStrip(text)).value.inline == inline
  {
    var q, n :| Spells(LStrip(text), q, id, n, inline);
    SpelledKeyIsRead(LStrip(text), q, id, n, inline);
  }

  /** The block, in the text: it begins below the first line that is `jobs:` alone
      at the least indent, and ends before the next line at that indent. */
  lemma SpanInText(ls: seq<Line>, s: Span)
    requires JobsSpan(LexAll(ls)) == Some(s)
    ensures 0 < s.start <= s.end <= |ls|
    ensures forall i :: 0 <= i < |ls| ==> s.top <= IndentOf(ls[i].text)
    ensures IndentOf(ls[s.start - 1].text) == s.top && SpellsHeader(ls[s.start - 1].text)
    ensures forall i :: 0 <= i < s.start - 1 ==> !(IndentOf(ls[i].text) == s.top && SpellsHeader(ls[i].text))
    ensures forall i :: s.start <= i < s.end ==> s.top < IndentOf(ls[i].text)
    ensures s.end < |ls| ==> IndentOf(ls[s.end].text) == s.top
  {
    var ts := LexAll(ls);
    forall i | 0 <= i < |ls|
      ensures ts[i] in ts && ts[i].indent == IndentOf(ls[i].text)
      ensures IsHeader(ts[i], s.top) <==> IndentOf(ls[i].text) == s.top && SpellsHeader(ls[i].text)
    {
      HeaderIff(ls[i].text);
    }
  }

  /** There is no block exactly if no line at the least indent is `jobs:` alone. */
  lemma NoSpanInText(ls: seq<Line>)
    ensures JobsSpan(LexAll(ls)) == None <==>
            forall i :: 0 <= i < |ls| && SpellsHeader(ls[i].text) ==> exists j :: 0 <= j < |ls| && Shallower(ls, j, i)
  {
    var ts := LexAll(ls);
    var top := TopIndent(ts);
    forall i | 0 <= i < |ls|
      ensures ts[i] in ts && ts[i].header <==> SpellsHeader(ls[i].text)
      ensures ts[i].indent == top <==> forall j :: 0 <= j < |ls| ==> !Shallower(ls, j, i)
    {
      HeaderIff(ls[i].text);
      LeastAt(ls, i);
    }
    if JobsSpan(ts).Some? { assert IsHeader(ts[JobsSpan(ts).value.start - 1], top); }
  }

  /** Line `j` has a smaller indent than line `i`. */
  predicate Shallower(ls: seq<Line>, j: nat, i: nat)
    requires i < |ls| && j < |ls|
  {
    IndentOf(ls[j].text) < IndentOf(ls[i].text)
  }

  lemma LeastAt(ls: seq<Line>, i: nat)
    requires i < |ls|
    ensures LexAll(ls)[i].indent == TopIndent(LexAll(ls)) <==> forall j :: 0 <= j < |ls| ==> !Shallower(ls, j, i)
  {
    var ts := LexAll(ls);
    assert ts[i] in ts;
    forall j | 0 <= j < |ls| ensures TopIndent(ts) <= ts[j].indent { assert ts[j] in ts; }
    var t :| t in ts && t.indent == TopIndent(ts);
    var k :| 0 <= k < |ts| && ts[k] == t;
    assert Shallower(ls, k, i) <==> TopIndent(ts) < ts[i].indent;
  }

  // ---- Which lines start a job ------------------------------------------------------

  datatype Head = Head(line: Line, key: Key)

  /** The key lines among the first `n` of a block. */
  function KeyLines(block: seq<Token>, jobIndent: nat, n: nat): seq<Head>
    requires n <= |block|
  {
    if n == 0 then []
    else
      var before, t := KeyLines(block, jobIndent, n - 1), block[n - 1];
      if IsJobKey(t, jobIndent) then before + [Head(t.line, t.key.value)] else before
  }

  function Heads(segs: seq<Segment>): (hs: seq<Head>)
    ensures |hs| == |segs| && forall i :: 0 <= i < |segs| ==> hs[i] == Head(segs[i].line, segs[i].key)
  {
    seq(|segs|, i requires 0 <= i < |segs| => Head(segs[i].line, segs[i].key))
  }

  lemma AddLineHeads(s: Split, t: Token, jobIndent: nat)
    ensures Heads(AddLine(s, t, jobIndent).segs)
            == if IsJobKey(t, jobIndent) then Heads(s.segs) + [Head(t.line, t.key.value)] else Heads(s.segs)
  {
  }

  ghost predicate HeadsAgree(block: seq<Token>, jobIndent: nat, s: Split, k: nat) {
    k <= |block| && Heads(s.segs) == KeyLines(block, jobIndent, k)
  }

  /** The segments of a block are its key lines, in order: no other line starts one, and each of these does. */
  lemma SegmentsAreKeyLines(block: seq<Token>, jobIndent: nat, n: nat)
    requires n <= |block|
    ensures Heads(SplitTo(block, jobIndent, n).segs) == KeyLines(block, jobIndent, n)
  {
    var inv := (s: Split, k: nat) => HeadsAgree(block, jobIndent, s, k);
    forall k: nat | k < |block| && inv(SplitTo(block, jobIndent, k), k)
      ensures inv(Adder(jobIndent)(SplitTo(block, jobIndent, k), block[k]), k + 1)
    {
      AddLineHeads(SplitTo(block, jobIndent, k), block[k], jobIndent);
    }
    assert Heads([]) == [];
    InvariantAt(Adder(jobIndent), inv, Split([], []), block, n);
  }

  /** A key line, as it is written: at the indent of the first line under `jobs:`, and spelling a key. */
  lemma KeyLineInText(l: Line, jobIndent: nat)
    ensures IsJobKey(Lex(l), jobIndent) <==>
            IndentOf(l.text) == jobIndent && exists id, inline :: SpellsKey(l.text, id, inline)
    ensures IsJobKey(Lex(l), jobIndent) ==> SpellsKey(l.text, Lex(l).key.value.id, Lex(l).key.value.inline)
  {
    if KeyOf(LStrip(l.text)).Some? { KeyIsSpelled(l.text); }
    if id, inline :| SpellsKey(l.text, id, inline) { SpelledIsKey(l.text, id, inline); }
  }

  // ---- The jobs of a file ---------------------------------------------------------------

  /** Token and segment are what their lines say. */
  predicate IsLexed(t: Token) {
    t == Lex(t.line)
  }

  predicate IsLexedSegment(g: Segment) {
    Lex(g.line).key == Some(g.key) && forall i :: 0 <= i < |g.body| ==> IsLexed(g.body[i])
  }

  predicate IsLexedSplit(s: Split) {
    forall k :: 0 <= k < |s.segs| ==> IsLexedSegment(s.segs[k])
  }

  lemma GrownIsLexed(g: Segment, t: Token)
    requires IsLexedSegment(g) && IsLexed(t)
    ensures IsLexedSegment(g.(body := g.body + [t]))
  {
  }

  lemma LastGrownIsLexed(segs: seq<Segment>, g: Segment)
    requires (forall k :: 0 <= k < |segs| ==> IsLexedSegment(segs[k])) && IsLexedSegment(g)
    ensures forall k :: 0 <= k < |segs| + 1 ==> IsLexedSegment((segs + [g])[k])
  {
  }

  lemma AddLineLexed(s: Split, t: Token, jobIndent: nat)
    requires IsLexedSplit(s) && IsLexed(t)
    ensures IsLexedSplit(AddLine(s, t, jobIndent))
  {
    var n := |s.segs|;
    if IsJobKey(t, jobIndent) {
      LastGrownIsLexed(s.segs, Segment(t.line, t.key.value, []));
    } else if n > 0 {
      GrownIsLexed(s.segs[n - 1], t);
      LastGrownIsLexed(s.segs[..n - 1], s.segs[n - 1].(body := s.segs[n - 1].body + [t]));
    }
  }

  predicate BringsLexed(s: Split, t: Token) {
    IsLexed(t)
  }

  lemma LexedBlock(ls: seq<Line>, n: nat)
    requires n < |Block(LexAll(ls))|
    ensures IsLexed(Block(LexAll(ls))[n])
  {
    assert Block(LexAll(ls))[n] in LexAll(ls);
  }

  lemma SplitLexed(ls: seq<Line>)
    ensures IsLexedSplit(SplitOf(LexAll(ls)))
  {
    var block := Block(LexAll(ls));
    var add := Adder(JobIndent(block));
    forall s, t | IsLexedSplit(s) && BringsLexed(s, t) ensures IsLexedSplit(add(s, t)) {
      AddLineLexed(s, t, JobIndent(block));
    }
    forall n | 0 <= n < |block|
      ensures BringsLexed(After(add, Split([], []), block, n), block[n])
    {
      LexedBlock(ls, n);
    }
    InvariantUpTo(add, IsLexedSplit, BringsLexed, Split([], []), block, |block|);
  }

  /** Line `i` of the body has the indent of the body's first line. */
  predicate AtFirstIndent(body: seq<Token>, i: nat)
    requires i < |body|
  {
    IndentOf(body[i].line.text) == IndentOf(body[0].line.text)
  }

  ghost predicate OffInText(body: seq<Token>) {
    exists i :: 0 <= i < |body| && AtFirstIndent(body, i) && SpellsOff(body[i].line.text)
  }

  ghost predicate NamedAt(body: seq<Token>, i: nat, n: string)
    requires i < |body|
  {
    AtFirstIndent(body, i) && SpellsName(body[i].line.text, n)
  }

  /** `n` is the last name written at the first line's indent, else the id. */
  ghost predicate NameInText(id: string, body: seq<Token>, n: string) {
    || (n == id && forall i, m :: 0 <= i < |body| ==> !NamedAt(body, i, m))
    || exists i :: 0 <= i < |body| && NamedAt(body, i, n)
                   && forall j, m :: i < j < |body| ==> !NamedAt(body, j, m)
  }

  /** What the record says, in the text of the lines that make it. */
  ghost predicate IsJobText(e: JobEntry, g: Segment) {
    && SpellsKey(g.line.text, e.key, g.key.inline)
    && e.value.numbered == (if g.key.inline != "" then [g.line] else []) + LinesOf(g.body)
    && (e.value.off <==> OffInText(g.body))
    && NameInText(e.key, g.body, e.value.name)
    && (e.value.unreadable == "" <==> g.key.inline == "" || MentionsUses(g.key.inline))
    && (e.value.unreadable != "" ==> e.value.unreadable == Strip(g.line.text))
  }

  lemma BodyOff(g: Segment)
    requires IsLexedSegment(g)
    ensures DeclaredOff(g.body) <==> OffInText(g.body)
  {
    forall i | 0 <= i < |g.body|
      ensures AtFirstIndent(g.body, i) <==> AtKeyIndent(g.body, i)
      ensures SpellsOff(g.body[i].line.text) <==> g.body[i].off
    {
      assert IsLexed(g.body[i]) && IsLexed(g.body[0]);
      OffIff(g.body[i].line.text);
    }
    if i :| 0 <= i < |g.body| && AtKeyIndent(g.body, i) && g.body[i].off {
      assert AtFirstIndent(g.body, i) && SpellsOff(g.body[i].line.text);
    }
    if i :| 0 <= i < |g.body| && AtFirstIndent(g.body, i) && SpellsOff(g.body[i].line.text) {
      assert AtKeyIndent(g.body, i) && g.body[i].off;
    }
  }

  lemma NameAt(g: Segment, i: nat)
    requires IsLexedSegment(g) && i < |g.body|
    ensures AtFirstIndent(g.body, i) <==> AtKeyIndent(g.body, i)
    ensures forall n :: g.body[i].name == Some(n) <==> SpellsName(g.body[i].line.text, n)
    ensures AtKeyIndent(g.body, i) && g.body[i].name.Some? <==> exists m :: NamedAt(g.body, i, m)
  {
    assert IsLexed(g.body[i]) && IsLexed(g.body[0]);
    var text := g.body[i].line.text;
    forall n ensures g.body[i].name == Some(n) <==> SpellsName(text, n) { NameIff(text, n); }
    if AtKeyIndent(g.body, i) && g.body[i].name.Some? { assert NamedAt(g.body, i, g.body[i].name.value); }
  }

  lemma BodyName(g: Segment, id: string)
    requires IsLexedSegment(g)
    ensures NameInText(id, g.body, DeclaredName(id, g.body, |g.body|))
  {
    var n := DeclaredName(id, g.body, |g.body|);
    NameIsLastAtKeyIndent(id, g.body, |g.body|);
    forall i | 0 <= i < |g.body|
      ensures AtKeyIndent(g.body, i) && g.body[i].name.Some? <==> exists m :: NamedAt(g.body, i, m)
      ensures AtKeyIndent(g.body, i) && g.body[i].name == Some(n) ==> NamedAt(g.body, i, n)
    {
      NameAt(g, i);
    }
  }

  /** Every job of a file is what the lines of one of its segments say, as they are written. */
  lemma JobsInText(ls: seq<Line>, e: JobEntry)
    requires e in JobsOf(LexAll(ls))
    ensures exists g :: g in SplitOf(LexAll(ls)).segs && IsJobText(e, g)
  {
    var segs := SplitOf(LexAll(ls)).segs;
    FromItemsEntry(Items(segs), e);
    var k :| 0 <= k < |segs| && Items(segs)[k] == e;
    var g := segs[k];
    SplitLexed(ls);
    assert IsLexedSegment(g);
    BodyOff(g);
    BodyName(g, g.key.id);
    KeyIsSpelled(g.line.text);
    UnreadableIff(g.line.text);
    assert e.value == JobOf(g);
    assert IsJobText(e, g);
  }
}
