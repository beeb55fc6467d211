/** Matching a registry job against a workflow job name that may hold `${{ }}` expressions.

    The pattern is the name with each expression replaced by `.+`; everything
    else in it stands for itself. */
module JobTemplate {
  import opened Text
  import opened TextLaws

  datatype Piece = Lit(c: char) | Hole

  /** Where the first "}}" starts, unless the line ends before it. */
  function CloseAt(s: string): Option<nat> {
    if |s| < 2 || s[0] == '\n' then None
    else if s[0] == '}' && s[1] == '}' then Some(0)
    else match CloseAt(s[1..]) case None => None case Some(k) => Some(k + 1)
  }

  lemma {:induction false} CloseInside(s: string)
    ensures CloseAt(s).Some? ==> CloseAt(s).value + 2 <= |s|
  {
    if |s| >= 2 { CloseInside(s[1..]); }
  }

  /** "}}" first occurs at `k`, and no line ends before it. */
  ghost predicate ClosesAt(s: string, k: nat) {
    OccursAt(s, "}}", k) && '\n' !in s[..k] && forall i: nat :: i < k ==> !OccursAt(s, "}}", i)
  }

  lemma OccursIs(s: string, k: nat)
    ensures OccursAt(s, "}}", k) <==> k + 1 < |s| && s[k] == s[k + 1] == '}'
  {
    if k + 2 <= |s| { assert s[k..k + 2] == [s[k], s[k + 1]]; }
  }

  lemma ClosesLater(s: string, k: nat)
    requires |s| >= 2 && !OccursAt(s, "}}", 0)
    ensures ClosesAt(s, k + 1) <==> s[0] != '\n' && ClosesAt(s[1..], k)
  {
    forall i: nat ensures OccursAt(s, "}}", i + 1) <==> OccursAt(s[1..], "}}", i) { OneLater(s, "}}", i); }
    if k < |s| { assert s[..k + 1] == [s[0]] + s[1..][..k]; }
    if ClosesAt(s[1..], k) {
      forall i: nat | i < k + 1 ensures !OccursAt(s, "}}", i) {
        if i > 0 { OneLater(s, "}}", i - 1); }
      }
    }
  }

  /** An expression ends at the first "}}" after it, on its own line. */
  lemma {:induction false} CloseIff(s: string, k: nat)
    ensures CloseAt(s) == Some(k) <==> ClosesAt(s, k)
    decreases |s|
  {
    OccursIs(s, 0);
    if |s| < 2 {
      OccursIs(s, k);
    } else if !OccursAt(s, "}}", 0) && k > 0 {
      ClosesLater(s, k - 1);
      CloseIff(s[1..], k - 1);
    }
  }

  /** The pattern of a name, expressions found left to right, each as short as possible. */
  function Parse(s: string): seq<Piece>
    decreases |s|
  {
    if s == "" then []
    else if "${{" <= s && CloseAt(s[3..]).Some? then
      CloseInside(s[3..]);
      [Hole] + Parse(s[3 + CloseAt(s[3..]).value + 2..])
    else [Lit(s[0])] + Parse(s[1..])
  }

  /** Whether the pattern matches the whole of `w`; a hole takes one or more characters of one line. */
  predicate FullMatch(ps: seq<Piece>, w: string) {
    if ps == [] then w == ""
    else match ps[0]
      case Lit(c) => w != "" && w[0] == c && FullMatch(ps[1..], w[1..])
      case Hole => exists k :: 1 <= k <= |w| && '\n' !in w[..k] && FullMatch(ps[1..], w[k..])
  }

  predicate JobMatches(id: string, name: string, wanted: string) {
    wanted == id || wanted == name || FullMatch(Parse(name), wanted)
  }

  // ---- Any number of holes ---------------------------------------------------

  function Holes(ps: seq<Piece>): nat {
    if ps == [] then 0 else (if ps[0] == Hole then 1 else 0) + Holes(ps[1..])
  }

  function Fill(ps: seq<Piece>, xs: seq<string>): string
    requires |xs| == Holes(ps)
  {
    if ps == [] then ""
    else match ps[0]
      case Lit(c) => [c] + Fill(ps[1..], xs)
      case Hole => xs[0] + Fill(ps[1..], xs[1..])
  }

  predicate IsFiller(x: string) {
    x != "" && '\n' !in x
  }

  predicate Fillers(xs: seq<string>) {
    forall x :: x in xs ==> IsFiller(x)
  }

  ghost predicate IsInstance(ps: seq<Piece>, w: string) {
    exists xs :: |xs| == Holes(ps) && Fillers(xs) && Fill(ps, xs) == w
  }

  lemma {:induction false} InstanceMatches(ps: seq<Piece>, xs: seq<string>)
    requires |xs| == Holes(ps) && Fillers(xs)
    ensures FullMatch(ps, Fill(ps, xs))
    decreases |ps|
  {
    if ps != [] {
      if ps[0].Lit? {
        InstanceMatches(ps[1..], xs);
      } else {
        var w := Fill(ps, xs);
        FillersSplit(xs[0], xs[1..]);
        assert xs == [xs[0]] + xs[1..];
        InstanceMatches(ps[1..], xs[1..]);
        assert w[..|xs[0]|] == xs[0] && w[|xs[0]|..] == Fill(ps[1..], xs[1..]);
      }
    }
  }

  lemma FillersSplit(x: string, xs: seq<string>)
    ensures Fillers([x] + xs) <==> IsFiller(x) && Fillers(xs)
  {
    assert x in [x] + xs && forall y :: y in [x] + xs <==> y == x || y in xs;
  }

  lemma FillHole(ps: seq<Piece>, x: string, xs: seq<string>)
    requires ps != [] && ps[0].Hole? && |xs| == Holes(ps[1..])
    ensures |[x] + xs| == Holes(ps) && Fill(ps, [x] + xs) == x + Fill(ps[1..], xs)
  {
    assert ([x] + xs)[1..] == xs;
  }

  lemma {:induction false} MatchIsInstance(ps: seq<Piece>, w: string) returns (xs: seq<string>)
    requires FullMatch(ps, w)
    ensures |xs| == Holes(ps) && Fillers(xs) && Fill(ps, xs) == w
    decreases |ps|
  {
    if ps == [] {
      xs := [];
    } else if ps[0].Lit? {
      xs := MatchIsInstance(ps[1..], w[1..]);
    } else {
      var k :| 1 <= k <= |w| && '\n' !in w[..k] && FullMatch(ps[1..], w[k..]);
      var rest := MatchIsInstance(ps[1..], w[k..]);
      xs := [w[..k]] + rest;
      FillHole(ps, w[..k], rest);
      FillersSplit(w[..k], rest);
    }
  }

  lemma {:induction false} NoHolesFill(s: string)
    requires Holes(Parse(s)) == 0
    ensures Fill(Parse(s), []) == s
    decreases |s|
  {
    if s != "" {
      assert Parse(s)[0].Lit?;
      assert Parse(s) == [Lit(s[0])] + Parse(s[1..]);
      assert Parse(s)[1..] == Parse(s[1..]);
      NoHolesFill(s[1..]);
    }
  }

  /** A job accepts its id, its name, and exactly the instances of its name with
      non-empty one-line fillers; a name without holes has no other instance. */
  lemma JobMatchesInstances(id: string, name: string, wanted: string)
    ensures JobMatches(id, name, wanted) <==> wanted == id || wanted == name || IsInstance(Parse(name), wanted)
    ensures Holes(Parse(name)) == 0 ==> (JobMatches(id, name, wanted) <==> wanted == id || wanted == name)
  {
    var ps := Parse(name);
    if FullMatch(ps, wanted) { var xs := MatchIsInstance(ps, wanted); }
    if xs :| |xs| == Holes(ps) && Fillers(xs) && Fill(ps, xs) == wanted {
      InstanceMatches(ps, xs);
      if Holes(ps) == 0 {
        NoHolesFill(name);
        assert xs == [];
      }
    }
  }

  // ---- Reading back a written template -----------------------------------------

  /** A name as its author writes it: literal text and the insides of `${{ }}`. */
  datatype Template = End(lit: string) | More(lit: string, hole: string, rest: Template)

  function Render(t: Template): string {
    match t
    case End(lit) => lit
    case More(lit, hole, rest) => lit + ("${{" + (hole + ("}}" + Render(rest))))
  }

  /** Literals open no expression; an expression closes at its own braces, on its own line. */
  predicate WellFormed(t: Template) {
    && !Contains(t.lit, "${{")
    && (t.More? ==> CloseAt(t.hole + "}}") == Some(|t.hole|) && WellFormed(t.rest))
  }

  function Lits(s: string): (ps: seq<Piece>)
    ensures |ps| == |s|
  {
    if s == "" then [] else [Lit(s[0])] + Lits(s[1..])
  }

  function Pieces(t: Template): seq<Piece> {
    match t
    case End(lit) => Lits(lit)
    case More(lit, _, rest) => Lits(lit) + ([Hole] + Pieces(rest))
  }

  lemma {:induction false} CloseIgnoresTail(hole: string, tail: string)
    requires CloseAt(hole + "}}") == Some(|hole|)
    ensures CloseAt(hole + ("}}" + tail)) == Some(|hole|)
    decreases |hole|
  {
    var s, s' := hole + "}}", hole + ("}}" + tail);
    assert s <= s';
    if hole != "" {
      assert s[1..] == hole[1..] + "}}" && s'[1..] == hole[1..] + ("}}" + tail);
      CloseIgnoresTail(hole[1..], tail);
    }
  }

  lemma NoOpening(lit: string, tail: string)
    requires lit != "" && !Contains(lit, "${{") && (tail == "" || tail[0] == '$')
    ensures !("${{" <= lit + tail)
  {
    var s := lit + tail;
    if |lit| >= 3 {
      assert s[0] == lit[0] && s[1] == lit[1] && s[2] == lit[2];
      assert !("${{" <= lit);
    } else if tail != "" {
      assert s[|lit|] == '$';
    }
  }

  lemma ParseOne(c: char, rest: string)
    requires !("${{" <= [c] + rest)
    ensures Parse([c] + rest) == [Lit(c)] + Parse(rest)
  {
    assert ([c] + rest)[1..] == rest;
  }

  lemma LitsOne(lit: string, tail: string)
    requires lit != ""
    ensures lit + tail == [lit[0]] + (lit[1..] + tail) && Lits(lit) == [Lit(lit[0])] + Lits(lit[1..])
  {
  }

  lemma ShorterLit(lit: string)
    requires lit != "" && !Contains(lit, "${{")
    ensures !Contains(lit[1..], "${{")
  {
  }

  lemma {:induction false} ParseLits(lit: string, tail: string)
    requires !Contains(lit, "${{") && (tail == "" || tail[0] == '$')
    ensures Parse(lit + tail) == Lits(lit) + Parse(tail)
    decreases |lit|
  {
    if lit == "" {
      assert lit + tail == tail;
    } else {
      NoOpening(lit, tail);
      LitsOne(lit, tail);
      ShorterLit(lit);
      ParseOne(lit[0], lit[1..] + tail);
      ParseLits(lit[1..], tail);
    }
  }

  /** Parsing recovers the template that was written. */
  lemma {:induction false} ParseRender(t: Template)
    requires WellFormed(t)
    ensures Parse(Render(t)) == Pieces(t)
    decreases t
  {
    match t
    case End(lit) =>
      ParseLits(lit, "");
      assert lit + "" == lit;
    case More(lit, hole, rest) =>
      var inner := hole + ("}}" + Render(rest));
      var tail := "${{" + inner;
      ParseLits(lit, tail);
      CloseIgnoresTail(hole, Render(rest));
      assert tail[3..] == inner && tail[3 + |hole| + 2..] == Render(rest);
      ParseRender(rest);
  }

  /** What opens an expression but never closes on its line stands for itself. */
  lemma {:induction false} UnclosedIsLiteral(s: string)
    requires forall i: nat :: OccursAt(s, "${{", i) ==> CloseAt(s[i + 3..]) == None
    ensures Parse(s) == Lits(s)
    decreases |s|
  {
    if s != "" {
      if "${{" <= s { assert OccursAt(s, "${{", 0); }
      forall i: nat | OccursAt(s[1..], "${{", i) ensures CloseAt(s[1..][i + 3..]) == None {
        OneLater(s, "${{", i);
        assert s[1..][i + 3..] == s[i + 1 + 3..];
      }
      UnclosedIsLiteral(s[1..]);
    }
  }

  function HolesOf(t: Template): nat {
    if t.End? then 0 else 1 + HolesOf(t.rest)
  }

  /** The template with its expressions replaced. */
  function Instantiate(t: Template, xs: seq<string>): string
    requires |xs| == HolesOf(t)
  {
    match t
    case End(lit) => lit
    case More(lit, _, rest) => lit + (xs[0] + Instantiate(rest, xs[1..]))
  }

  lemma {:induction false} FillLits(lit: string, ps: seq<Piece>, xs: seq<string>)
    requires |xs| == Holes(ps)
    ensures Holes(Lits(lit) + ps) == |xs| && Fill(Lits(lit) + ps, xs) == lit + Fill(ps, xs)
    decreases |lit|
  {
    if lit == "" {
      assert Lits(lit) + ps == ps;
    } else {
      var rest := Lits(lit[1..]) + ps;
      FillLits(lit[1..], ps, xs);
      assert Lits(lit) + ps == [Lit(lit[0])] + rest;
      assert ([Lit(lit[0])] + rest)[1..] == rest;
    }
  }

  lemma {:induction false} FillPieces(t: Template, xs: seq<string>)
    requires |xs| == HolesOf(t)
    ensures Holes(Pieces(t)) == |xs| && Fill(Pieces(t), xs) == Instantiate(t, xs)
    decreases t
  {
    match t
    case End(lit) =>
      FillLits(lit, [], xs);
      assert Lits(lit) + [] == Lits(lit);
    case More(lit, _, rest) =>
      FillPieces(rest, xs[1..]);
      assert ([Hole] + Pieces(rest))[1..] == Pieces(rest);
      FillLits(lit, [Hole] + Pieces(rest), xs);
  }

  /** A written template matches exactly its id, its own text, and its instances. */
  lemma TemplateMatches(id: string, t: Template, wanted: string)
    requires WellFormed(t)
    ensures JobMatches(id, Render(t), wanted) <==>
            wanted == id || wanted == Render(t)
            || exists xs :: |xs| == HolesOf(t) && Fillers(xs) && Instantiate(t, xs) == wanted
  {
    ParseRender(t);
    JobMatchesInstances(id, Render(t), wanted);
    forall xs | |xs| == HolesOf(t) ensures Holes(Pieces(t)) == |xs| && Fill(Pieces(t), xs) == Instantiate(t, xs) {
      FillPieces(t, xs);
    }
    FillPieces(t, seq(HolesOf(t), i => "x"));
    if IsInstance(Pieces(t), wanted) {
      var xs :| |xs| == Holes(Pieces(t)) && Fillers(xs) && Fill(Pieces(t), xs) == wanted;
      assert Instantiate(t, xs) == wanted;
    }
  }
}
