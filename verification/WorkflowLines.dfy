/** What the workflow splitter asks of one line of text. */
module WorkflowLines {
  import opened Text

  /** One active line: comments and blank lines are already gone. */
  datatype Line = Line(number: nat, text: string)

  /** `unreadable` is the stripped line of an inline job that is not a reusable-workflow call, else "". */
  datatype Key = Key(id: string, inline: string, unreadable: string)

  /** A line with the answers to the splitter's tests. */
  datatype Token = Token(line: Line, indent: nat, header: bool, key: Option<Key>, off: bool, name: Option<string>)

  function IndentOf(text: string): (n: nat)
    ensures n <= |text| && (n < |text| ==> text[n] != ' ') && forall i :: 0 <= i < n ==> text[i] == ' '
  {
    if text != "" && text[0] == ' ' then 1 + IndentOf(text[1..]) else 0
  }

  predicate IsIdChar(c: char) {
    'A' <= c <= 'Z' || 'a' <= c <= 'z' || '0' <= c <= '9' || c in "_.-"
  }

  function IdRun(s: string): (n: nat)
    ensures n <= |s|
  {
    if s != "" && IsIdChar(s[0]) then 1 + IdRun(s[1..]) else 0
  }

  // The tests below take a line without its leading white space.

  function QuoteOf(t: string): string {
    if t != "" && t[0] in "\"'" then t[..1] else ""
  }

  datatype KeyLine = KeyLine(id: string, inline: string)

  /** What follows the quote and the id: the quote again, a colon, spaces and the rest. */
  function InlineOf(rest: string, quote: string): Option<string> {
    if quote + ":" <= rest then
      var after := rest[|quote| + 1..];
      Some(after[IndentOf(after)..])
    else None
  }

  /** An id, quoted or not, a colon, and whatever follows on the line. */
  function SplitKey(t: string): Option<KeyLine> {
    var quote := QuoteOf(t);
    var n := IdRun(t[|quote|..]);
    if n == 0 then None
    else match InlineOf(t[|quote| + n..], quote)
      case None => None
      case Some(inline) => Some(KeyLine(t[|quote|..|quote| + n], inline))
  }

  /** A job key; of inline jobs only a reusable-workflow call can be read. */
  function KeyOf(t: string): Option<Key> {
    match SplitKey(t)
    case None => None
    case Some(k) =>
      Some(Key(k.id, k.inline, if k.inline != "" && !Contains(k.inline, "uses:") then RStrip(t) else ""))
  }

  /** The literal false, bare or as an expression. */
  predicate IsOffValue(v: string) {
    || v == "false"
    || (|v| >= 5 && v[..3] == "${{" && v[|v| - 2..] == "}}" && Strip(v[3..|v| - 2]) == "false")
  }

  /** The literal false condition. */
  predicate IsOff(t: string) {
    var s := RStrip(t);
    "if:" <= s && IsOffValue(Strip(s[3..]))
  }

  /** The value of a `name:` line, without its quotes. */
  function NameOf(t: string): Option<string> {
    var s := RStrip(t);
    if "name:" <= s then Some(Unquote(Strip(s[5..]))) else None
  }

  predicate IsJobsHeader(t: string) {
    RStrip(t) == "jobs:"
  }

  lemma OffIsNotName(t: string)
    ensures !(IsOff(t) && NameOf(t).Some?)
  {
    if IsOff(t) { assert RStrip(t)[0] == 'i'; }
  }

  function Lex(l: Line): (t: Token)
    ensures t.line == l && t.indent == IndentOf(l.text)
    ensures !(t.off && t.name.Some?)
  {
    var t := LStrip(l.text);
    OffIsNotName(t);
    Token(l, IndentOf(l.text), IsJobsHeader(t), KeyOf(t), IsOff(t), NameOf(t))
  }

  function LexAll(ls: seq<Line>): (ts: seq<Token>)
    ensures |ts| == |ls| && forall i :: 0 <= i < |ls| ==> ts[i] == Lex(ls[i])
  {
    seq(|ls|, i requires 0 <= i < |ls| => Lex(ls[i]))
  }

  // ---- What a job key is ------------------------------------------------------

  function Spaces(n: nat): (s: string)
    ensures |s| == n && forall i :: 0 <= i < n ==> s[i] == ' '
  {
    seq(n, i => ' ')
  }

  lemma {:induction false} LeadingSpaces(n: nat, rest: string)
    requires rest == "" || rest[0] != ' '
    ensures IndentOf(Spaces(n) + rest) == n
    ensures LStrip(Spaces(n) + rest) == LStrip(rest)
    decreases n
  {
    if n == 0 {
      assert Spaces(0) + rest == rest;
    } else {
      assert (Spaces(n) + rest)[1..] == Spaces(n - 1) + rest;
      LeadingSpaces(n - 1, rest);
    }
  }

  predicate IsId(s: string) {
    s != "" && forall i :: 0 <= i < |s| ==> IsIdChar(s[i])
  }

  predicate IsQuote(q: string) {
    q == "" || q == "'" || q == "\""
  }

  /** `t` is an id in matching quotes or none, a colon, `n` spaces and the rest of the line. */
  ghost predicate Spells(t: string, q: string, id: string, n: nat, inline: string) {
    && IsQuote(q) && IsId(id) && (inline == "" || inline[0] != ' ')
    && t == q + (id + ((q + ":") + (Spaces(n) + inline)))
  }

  lemma {:induction false} IdRunIs(id: string, rest: string)
    requires forall i :: 0 <= i < |id| ==> IsIdChar(id[i])
    requires rest == "" || !IsIdChar(rest[0])
    ensures IdRun(id + rest) == |id|
    decreases |id|
  {
    if id == "" {
      assert id + rest == rest;
    } else {
      assert (id + rest)[1..] == id[1..] + rest;
      IdRunIs(id[1..], rest);
    }
  }

  lemma {:induction false} IdRunChars(s: string)
    ensures forall i :: 0 <= i < IdRun(s) ==> IsIdChar(s[i])
    decreases |s|
  {
    if s != "" && IsIdChar(s[0]) { IdRunChars(s[1..]); }
  }

  lemma Pieces(a: string, b: string, c: string)
    ensures var t := a + (b + c);
            t[|a|..] == b + c && t[|a|..|a| + |b|] == b && t[|a| + |b|..] == c
    ensures a <= a + b && (a + b)[|a|..] == b
  {
  }

  lemma QuoteIs(q: string, id: string, rest: string)
    requires IsQuote(q) && IsId(id)
    ensures QuoteOf(q + (id + rest)) == q
  {
    assert (q + (id + rest))[0] == if q == "" then id[0] else q[0];
    assert IsIdChar(id[0]);
  }

  lemma InlineIs(q: string, n: nat, inline: string)
    requires inline == "" || inline[0] != ' '
    ensures InlineOf((q + ":") + (Spaces(n) + inline), q) == Some(inline)
  {
    Pieces(q + ":", Spaces(n) + inline, "");
    Pieces(Spaces(n), inline, "");
    LeadingSpaces(n, inline);
  }

  lemma InlineSplits(rest: string, q: string)
    requires InlineOf(rest, q).Some?
    ensures var inline, n := InlineOf(rest, q).value, IndentOf(rest[|q| + 1..]);
            rest == (q + ":") + (Spaces(n) + inline) && (inline == "" || inline[0] != ' ')
  {
    PrefixSplits(q + ":", rest);
    IndentSplits(rest[|q| + 1..]);
  }

  lemma IdEnds(q: string, id: string, after: string)
    requires IsQuote(q) && IsId(id)
    ensures IdRun(id + ((q + ":") + after)) == |id|
  {
    var rest := (q + ":") + after;
    assert rest[0] == if q == "" then ':' else q[0];
    IdRunIs(id, rest);
  }

  lemma SplitKeyParts(q: string, id: string, rest: string)
    requires QuoteOf(q + (id + rest)) == q && IdRun(id + rest) == |id| > 0
    ensures SplitKey(q + (id + rest)) ==
            match InlineOf(rest, q) case None => None case Some(inline) => Some(KeyLine(id, inline))
  {
    Pieces(q, id, rest);
  }

  /** A line that spells a key is read as that key. */
  lemma SpelledKeyIsRead(t: string, q: string, id: string, n: nat, inline: string)
    requires Spells(t, q, id, n, inline)
    ensures SplitKey(t) == Some(KeyLine(id, inline))
  {
    var rest := (q + ":") + (Spaces(n) + inline);
    QuoteIs(q, id, rest);
    IdEnds(q, id, Spaces(n) + inline);
    InlineIs(q, n, inline);
    SplitKeyParts(q, id, rest);
  }

  lemma IndentSplits(s: string)
    ensures s == Spaces(IndentOf(s)) + s[IndentOf(s)..]
  {
  }

  lemma Rejoin(t: string, i: nat, j: nat)
    requires i <= j <= |t|
    ensures t == t[..i] + (t[i..j] + t[j..])
  {
  }

  lemma PrefixSplits(p: string, s: string)
    requires p <= s
    ensures s == p + s[|p|..]
  {
  }

  /** The three parts the reader cuts a line into. */
  lemma CutLine(t: string)
    ensures var q := QuoteOf(t);
            && IsQuote(q) && |q| <= |t|
            && var k := IdRun(t[|q|..]);
            && |q| + k <= |t| && t == q + (t[|q|..|q| + k] + t[|q| + k..])
            && (k > 0 ==> IsId(t[|q|..|q| + k]))
  {
    var q := QuoteOf(t);
    var k := IdRun(t[|q|..]);
    IdRunChars(t[|q|..]);
    Rejoin(t, |q|, |q| + k);
    assert t[..|q|] == q;
    assert t[|q|..|q| + k] == t[|q|..][..k];
  }

  lemma SplitKeyIs(t: string, q: string, k: nat)
    requires SplitKey(t).Some? && q == QuoteOf(t) && k == IdRun(t[|q|..])
    ensures k > 0 && |q| + k <= |t| && SplitKey(t).value.id == t[|q|..|q| + k]
    ensures InlineOf(t[|q| + k..], q) == Some(SplitKey(t).value.inline)
  {
  }

  /** A line read as a key spells it. */
  lemma ReadKeyIsSpelled(t: string) returns (q: string, n: nat)
    requires SplitKey(t).Some?
    ensures Spells(t, q, SplitKey(t).value.id, n, SplitKey(t).value.inline)
  {
    q := QuoteOf(t);
    CutLine(t);
    var k := IdRun(t[|q|..]);
    SplitKeyIs(t, q, k);
    var rest := t[|q| + k..];
    InlineSplits(rest, q);
    n := IndentOf(rest[|q| + 1..]);
  }

  /** The job key test, exactly: a line is read as a key iff it spells it. */
  lemma KeyLineIff(t: string, id: string, inline: string)
    ensures SplitKey(t) == Some(KeyLine(id, inline)) <==> exists q, n :: Spells(t, q, id, n, inline)
  {
    if q, n :| Spells(t, q, id, n, inline) { SpelledKeyIsRead(t, q, id, n, inline); }
    if SplitKey(t) == Some(KeyLine(id, inline)) {
      var q, n := ReadKeyIsSpelled(t);
    }
  }
}
