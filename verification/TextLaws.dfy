/** What stripping, unquoting and searching do, in terms of the text itself. */
module TextLaws {
  import opened Text

  predicate IsBlank(s: string) {
    forall i :: 0 <= i < |s| ==> IsSpace(s[i])
  }

  /** Neither begins nor ends with white space. */
  predicate IsTrim(s: string) {
    s == "" || (!IsSpace(s[0]) && !IsSpace(s[|s| - 1]))
  }

  predicate IsQuote(c: char) {
    c == '"' || c == '\''
  }

  predicate IsQuotes(s: string) {
    forall i :: 0 <= i < |s| ==> IsQuote(s[i])
  }

  /** Neither begins nor ends with a quote. */
  predicate IsBare(s: string) {
    s == "" || (!IsQuote(s[0]) && !IsQuote(s[|s| - 1]))
  }

  /** Of the ASCII characters, tab to carriage return, the four separators and space are white space. */
  lemma AsciiSpaces(c: char)
    requires c as int < 128
    ensures IsSpace(c) <==> c in "\t\n\U{0b}\U{0c}\r\U{1c}\U{1d}\U{1e}\U{1f} "
  {
  }

  // ---- Stripping -------------------------------------------------------------

  lemma {:induction false} LStripIs(a: string, s: string)
    requires IsBlank(a) && (s == "" || !IsSpace(s[0]))
    ensures LStrip(a + s) == s
    decreases |a|
  {
    if a == "" {
      assert a + s == s;
    } else {
      assert (a + s)[1..] == a[1..] + s;
      LStripIs(a[1..], s);
    }
  }

  lemma Reassociated(x: string, y: string, z: string, yz: string)
    requires yz == y + z
    ensures (x + y) + z == x + yz
  {
  }

  lemma {:induction false} LStripSplits(s: string) returns (a: string)
    ensures IsBlank(a) && s == a + LStrip(s) && (LStrip(s) == "" || !IsSpace(LStrip(s)[0]))
    decreases |s|
  {
    if s != "" && IsSpace(s[0]) {
      var rest := LStripSplits(s[1..]);
      a := [s[0]] + rest;
      Reassociated([s[0]], rest, LStrip(s[1..]), s[1..]);
      assert [s[0]] + s[1..] == s;
    } else {
      a := "";
    }
  }

  lemma {:induction false} RStripIs(s: string, b: string)
    requires IsBlank(b) && (s == "" || !IsSpace(s[|s| - 1]))
    ensures RStrip(s + b) == s
    decreases |b|
  {
    if b == "" {
      assert s + b == s;
    } else {
      var n := |b| - 1;
      assert (s + b)[..|s| + n] == s + b[..n] && (s + b)[|s| + n] == b[n];
      RStripIs(s, b[..n]);
    }
  }

  lemma {:induction false} RStripEnds(s: string)
    ensures RStrip(s) == "" || !IsSpace(RStrip(s)[|RStrip(s)| - 1])
    decreases |s|
  {
    if s != "" && IsSpace(s[|s| - 1]) { RStripEnds(s[..|s| - 1]); }
  }

  lemma {:induction false} RStripSplits(s: string) returns (b: string)
    ensures IsBlank(b) && s == RStrip(s) + b
    decreases |s|
  {
    if s != "" && IsSpace(s[|s| - 1]) {
      var front, last := s[..|s| - 1], [s[|s| - 1]];
      var rest := RStripSplits(front);
      b := rest + last;
      Reassociated(RStrip(front), rest, last, b);
      assert front + last == s;
    } else {
      b := "";
    }
  }

  /** Stripping takes white space off both ends and nothing else. */
  lemma StripIff(s: string, t: string)
    ensures Strip(s) == t <==> IsTrim(t) && exists a, b :: IsBlank(a) && IsBlank(b) && s == a + t + b
  {
    var a := LStripSplits(s);
    var l := LStrip(s);
    RStripEnds(l);
    var b := RStripSplits(l);
    assert s == a + RStrip(l) + b;
    assert RStrip(l) != "" ==> RStrip(l)[0] == l[0];
    if IsTrim(t) {
      if x, y :| IsBlank(x) && IsBlank(y) && s == x + t + y { StripIs(x, t, y); }
    }
  }

  lemma StripIs(a: string, t: string, b: string)
    requires IsBlank(a) && IsBlank(b) && IsTrim(t)
    ensures Strip(a + t + b) == t
  {
    if t == "" {
      assert a + t + b == (a + b) + "";
      LStripIs(a + b, "");
    } else {
      assert a + t + b == a + (t + b) && (t + b)[0] == t[0];
      LStripIs(a, t + b);
      RStripIs(t, b);
    }
  }

  // ---- Unquoting ---------------------------------------------------------------

  lemma Sides(c: char, a: string, t: string, b: string, d: char)
    ensures [c] + (a + t + b) == ([c] + a) + t + b
    ensures (a + t + b) + [d] == a + t + (b + [d])
    ensures IsQuotes([c] + a) <==> IsQuote(c) && IsQuotes(a)
    ensures IsQuotes(b + [d]) <==> IsQuotes(b) && IsQuote(d)
  {
    assert ([c] + a)[0] == c && forall i :: 0 <= i < |a| ==> ([c] + a)[i + 1] == a[i];
    assert (b + [d])[|b|] == d && forall i :: 0 <= i < |b| ==> (b + [d])[i] == b[i];
  }

  lemma Ends(s: string)
    requires s != ""
    ensures s == [s[0]] + s[1..] == s[..|s| - 1] + [s[|s| - 1]]
  {
  }

  lemma QuoteChars(c: char)
    ensures c in "\"'" <==> IsQuote(c)
  {
  }

  lemma {:induction false} UnquoteSplits(s: string) returns (a: string, b: string)
    ensures IsQuotes(a) && IsQuotes(b) && s == a + Unquote(s) + b && IsBare(Unquote(s))
    decreases |s|
  {
    if s == "" { return "", ""; }
    Ends(s);
    var first, last := s[0], s[|s| - 1];
    QuoteChars(first);
    QuoteChars(last);
    if IsQuote(first) {
      a, b := UnquoteSplits(s[1..]);
      Sides(first, a, Unquote(s[1..]), b, last);
      a := [first] + a;
    } else if IsQuote(last) {
      a, b := UnquoteSplits(s[..|s| - 1]);
      Sides(first, a, Unquote(s[..|s| - 1]), b, last);
      b := b + [last];
    } else {
      a, b := "", "";
    }
  }

  lemma {:induction false} AllQuotes(s: string)
    requires IsQuotes(s)
    ensures Unquote(s) == ""
    decreases |s|
  {
    if s != "" {
      QuoteChars(s[0]);
      AllQuotes(s[1..]);
    }
  }

  lemma {:induction false} UnquoteEnd(t: string, b: string)
    requires IsQuotes(b) && IsBare(t) && t != ""
    ensures Unquote(t + b) == t
    decreases |b|
  {
    var s := t + b;
    QuoteChars(s[0]);
    QuoteChars(s[|s| - 1]);
    if b != "" {
      var n := |b| - 1;
      assert s[..|s| - 1] == t + b[..n];
      UnquoteEnd(t, b[..n]);
    } else {
      assert s == t;
    }
  }

  lemma {:induction false} UnquoteIs(a: string, t: string, b: string)
    requires IsQuotes(a) && IsQuotes(b) && IsBare(t)
    ensures Unquote(a + t + b) == t
    decreases |a|
  {
    var s := a + t + b;
    if t == "" {
      AllQuotes(s);
    } else if a == "" {
      assert s == t + b;
      UnquoteEnd(t, b);
    } else {
      QuoteChars(s[0]);
      assert s[1..] == a[1..] + t + b;
      UnquoteIs(a[1..], t, b);
    }
  }

  /** Unquoting takes quotes of either kind off both ends and nothing else. */
  lemma UnquoteIff(s: string, t: string)
    ensures Unquote(s) == t <==> IsBare(t) && exists a, b :: IsQuotes(a) && IsQuotes(b) && s == a + t + b
  {
    var a, b := UnquoteSplits(s);
    if IsBare(t) {
      if x, y :| IsQuotes(x) && IsQuotes(y) && s == x + t + y { UnquoteIs(x, t, y); }
    }
  }

  // ---- Searching -----------------------------------------------------------------

  predicate OccursAt(s: string, part: string, i: nat) {
    i + |part| <= |s| && s[i..i + |part|] == part
  }

  lemma OneLater(s: string, part: string, i: nat)
    requires s != ""
    ensures OccursAt(s, part, i + 1) <==> OccursAt(s[1..], part, i)
  {
    if i + 1 + |part| <= |s| { assert s[1..][i..i + |part|] == s[i + 1..i + 1 + |part|]; }
  }

  /** Containing is having it somewhere. */
  lemma {:induction false} ContainsIff(s: string, part: string)
    ensures Contains(s, part) <==> exists i: nat :: OccursAt(s, part, i)
    decreases |s|
  {
    assert part <= s <==> OccursAt(s, part, 0);
    if s != "" {
      ContainsIff(s[1..], part);
      if i: nat :| OccursAt(s[1..], part, i) { OneLater(s, part, i); }
      if i: nat :| OccursAt(s, part, i) && i > 0 { OneLater(s, part, i - 1); }
    }
  }
}
