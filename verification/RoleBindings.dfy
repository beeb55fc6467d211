/** Writing the rendered bindings, and checking them, over one file tree. */
module RoleBindings {
  import opened Text
  import opened Lists

  type Path = string

  datatype Kind = Codex | Claude | OpenCode | Cursor | Muse

  const KINDS := [Codex, Claude, OpenCode, Cursor, Muse]

  /** `content` is None where rendering the text raises, as for a role without a description. */
  datatype Binding = Binding(path: Path, content: Option<string>)

  function Dir(k: Kind): string {
    match k
    case Codex => ".codex/agents"
    case Claude => ".claude/agents"
    case OpenCode => ".opencode/agent"
    case Cursor => ".cursor/agents"
    case Muse => ".agents/agents"
  }

  function Extension(k: Kind): string {
    if k == Codex then ".toml" else ".md"
  }

  function PathOf(k: Kind, name: string): Path {
    Dir(k) + ("/" + (name + Extension(k)))
  }

  /** The bindings of each role in turn, one a harness; `render` is the text. */
  function Bindings(names: seq<string>, render: (Kind, string) -> Option<string>): (bs: seq<Binding>)
    ensures |bs| == 5 * |names|
    ensures forall i :: 0 <= i < |bs| ==> bs[i] == BindingAt(names, render, i)
  {
    seq(5 * |names|, i requires 0 <= i < 5 * |names| => BindingAt(names, render, i))
  }

  function BindingAt(names: seq<string>, render: (Kind, string) -> Option<string>, i: nat): Binding
    requires i < 5 * |names|
  {
    var k, name := KINDS[i % 5], names[i / 5];
    Binding(PathOf(k, name), render(k, name))
  }

  // ---- Reading text back -----------------------------------------------------

  /** What reading a file as text makes of its line ends. */
  function Normalize(s: string): string
    decreases |s|
  {
    if s == "" then ""
    else if s[0] == '\r' then "\n" + Normalize(if |s| > 1 && s[1] == '\n' then s[2..] else s[1..])
    else [s[0]] + Normalize(s[1..])
  }

  lemma {:induction false} NoReturnAfterRead(s: string)
    ensures '\r' !in Normalize(s)
    decreases |s|
  {
    if s != "" {
      if s[0] == '\r' { NoReturnAfterRead(if |s| > 1 && s[1] == '\n' then s[2..] else s[1..]); }
      else { NoReturnAfterRead(s[1..]); }
    }
  }

  lemma {:induction false} ReadsBackIff(s: string)
    ensures Normalize(s) == s <==> '\r' !in s
    decreases |s|
  {
    NoReturnAfterRead(s);
    if s != "" && '\r' !in s {
      ReadsBackIff(s[1..]);
      assert '\r' !in s[1..];
    }
  }

  /** The newline, the carriage return with one, and the lone carriage return. */
  ghost predicate IsLineEnd(end: string, rest: string) {
    end == "\n" || end == "\r\n" || (end == "\r" && (rest == "" || rest[0] != '\n'))
  }

  lemma EndReadsBack(end: string, rest: string)
    requires IsLineEnd(end, rest)
    ensures Normalize(end + rest) == "\n" + Normalize(rest)
  {
    if end == "\r\n" {
      assert (end + rest)[0] == '\r' && (end + rest)[1] == '\n' && (end + rest)[2..] == rest;
    } else {
      assert (end + rest)[0] == end[0] && (end + rest)[1..] == rest;
    }
  }

  lemma PlainReadsBack(c: char, rest: string)
    requires c != '\r'
    ensures Normalize([c] + rest) == [c] + Normalize(rest)
  {
    assert ([c] + rest)[0] == c && ([c] + rest)[1..] == rest;
  }

  /** Reading goes line by line: each of the three line ends becomes one newline. */
  lemma {:induction false} LinesReadBack(line: string, end: string, rest: string)
    requires '\r' !in line && '\n' !in line && IsLineEnd(end, rest)
    ensures Normalize(line + (end + rest)) == line + ("\n" + Normalize(rest))
    decreases |line|
  {
    var read := "\n" + Normalize(rest);
    EndReadsBack(end, rest);
    if line == "" {
      assert line + (end + rest) == end + rest && line + read == read;
    } else {
      LinesReadBack(line[1..], end, rest);
      PlainReadsBack(line[0], line[1..] + (end + rest));
      assert line + (end + rest) == [line[0]] + (line[1..] + (end + rest));
      assert line + read == [line[0]] + (line[1..] + read);
    }
  }

  // ---- What each role is given ------------------------------------------------------

  lemma PathIs(k: Kind, n: string, dir: string, ext: string)
    requires Dir(k) + "/" == dir && Extension(k) == ext
    ensures PathOf(k, n) == dir + (n + ext)
  {
  }

  /** Where each harness looks for a role. */
  lemma PathsAre(n: string)
    ensures PathOf(Codex, n) == ".codex/agents/" + (n + ".toml")
    ensures PathOf(Claude, n) == ".claude/agents/" + (n + ".md")
    ensures PathOf(OpenCode, n) == ".opencode/agent/" + (n + ".md")
    ensures PathOf(Cursor, n) == ".cursor/agents/" + (n + ".md")
    ensures PathOf(Muse, n) == ".agents/agents/" + (n + ".md")
  {
    PathIs(Codex, n, ".codex/agents/", ".toml");
    PathIs(Claude, n, ".claude/agents/", ".md");
    PathIs(OpenCode, n, ".opencode/agent/", ".md");
    PathIs(Cursor, n, ".cursor/agents/", ".md");
    PathIs(Muse, n, ".agents/agents/", ".md");
  }

  lemma CellOf(i: nat, j: nat)
    requires j < 5
    ensures (5 * i + j) / 5 == i && (5 * i + j) % 5 == j
  {
  }

  lemma BindingIs(names: seq<string>, render: (Kind, string) -> Option<string>, i: nat, j: nat, k: Kind)
    requires i < |names| && j < 5 && KINDS[j] == k
    ensures 5 * i + j < |Bindings(names, render)|
    ensures Bindings(names, render)[5 * i + j] == Binding(PathOf(k, names[i]), render(k, names[i]))
  {
    CellOf(i, j);
  }

  /** The order of the harnesses within a role's five bindings. */
  function Place(k: Kind): nat {
    match k
    case Codex => 0
    case Claude => 1
    case OpenCode => 2
    case Cursor => 3
    case Muse => 4
  }

  /** Each role in turn gets five bindings: at each harness's place, the path and
      the text of that harness and that role. */
  lemma BindingsAre(names: seq<string>, render: (Kind, string) -> Option<string>, i: nat, k: Kind)
    requires i < |names|
    ensures |Bindings(names, render)| == 5 * |names| && Place(k) < 5
    ensures Bindings(names, render)[5 * i + Place(k)] == Binding(PathOf(k, names[i]), render(k, names[i]))
  {
    BindingIs(names, render, i, Place(k), k);
  }

  // ---- Generate and check -------------------------------------------------------

  /** What is at a path: text, or something read_text raises on (bytes that do
      not decode, a directory, a file it may not open). */
  datatype Content = Holds(text: string) | Unreadable

  type Files = map<Path, Content>

  predicate Readable(files: Files, p: Path) {
    p !in files || files[p].Holds?
  }

  predicate UpToDate(files: Files, b: Binding) {
    && b.content.Some? && b.path in files && files[b.path].Holds?
    && Normalize(files[b.path].text) == b.content.value
  }

  /** The binding renders, and what is at its path can be compared with it. */
  predicate Comparable(files: Files, b: Binding) {
    b.content.Some? && Readable(files, b.path)
  }

  /** `raised`: an exception ended the run after what is listed. */
  datatype Checked = Checked(stale: seq<Path>, raised: bool)

  function CheckOne(files: Files, c: Checked, b: Binding): Checked {
    if c.raised || UpToDate(files, b) then c
    else if !Comparable(files, b) then c.(raised := true)
    else c.(stale := c.stale + [b.path])
  }

  /** What check has found over the first `n` bindings. */
  function CheckTo(files: Files, bs: seq<Binding>, n: nat): Checked
    requires n <= |bs|
  {
    if n == 0 then Checked([], false) else CheckOne(files, CheckTo(files, bs, n - 1), bs[n - 1])
  }

  datatype Generated = Generated(files: Files, wrote: seq<Path>, raised: bool)

  /** `refuses`: the paths that cannot be written; they are left as they are. */
  function GenerateOne(refuses: Path -> bool, g: Generated, b: Binding): Generated {
    if g.raised || UpToDate(g.files, b) then g
    else if !Comparable(g.files, b) || refuses(b.path) then g.(raised := true)
    else Generated(g.files[b.path := Holds(b.content.value)], g.wrote + [b.path], false)
  }

  /** What generate has done after the first `n` bindings. */
  function GenerateTo(files: Files, refuses: Path -> bool, bs: seq<Binding>, n: nat): Generated
    requires n <= |bs|
  {
    if n == 0 then Generated(files, [], false)
    else GenerateOne(refuses, GenerateTo(files, refuses, bs, n - 1), bs[n - 1])
  }

  class Tree {
    var files: Files
    const refuses: Path -> bool

    constructor (files: Files, refuses: Path -> bool)
      ensures this.files == files && this.refuses == refuses
    {
      this.files, this.refuses := files, refuses;
    }

    /** `listed` is what gets printed: the stale paths, or the ones written;
        `code` is the exit code, or nothing when an exception ends the run. */
    method GenerateOrCheck(bs: seq<Binding>, check: bool) returns (code: Option<int>, listed: seq<Path>)
      modifies this
      ensures check ==>
                var c := CheckTo(files, bs, |bs|);
                && files == old(files) && (code == None <==> c.raised)
                && (c.raised ==> listed == [])
                && (!c.raised ==> listed == c.stale && (code == Some(0) <==> listed == []))
      ensures !check ==>
                var g := GenerateTo(old(files), refuses, bs, |bs|);
                files == g.files && listed == g.wrote && code == if g.raised then None else Some(0)
    {
      var stale: seq<Path> := [];
      var wrote: seq<Path> := [];
      ghost var before := files;
      for i := 0 to |bs|
        invariant check ==> files == before && wrote == [] && CheckTo(before, bs, i) == Checked(stale, false)
        invariant !check ==> stale == [] && GenerateTo(before, refuses, bs, i) == Generated(files, wrote, false)
      {
        var b := bs[i];
        if b.content.None? || !Readable(files, b.path) {
          RaisedStays(before, refuses, bs, i + 1, |bs|);
          return None, wrote;
        }
        if UpToDate(files, b) { continue; }
        if check {
          stale := stale + [b.path];
        } else {
          if refuses(b.path) {
            RaisedStays(before, refuses, bs, i + 1, |bs|);
            return None, wrote;
          }
          files := files[b.path := Holds(b.content.value)];
          wrote := wrote + [b.path];
        }
      }
      if stale != [] { return Some(1), stale; }
      return Some(0), wrote;
    }
  }

  lemma {:induction false} RaisedStays(files: Files, refuses: Path -> bool, bs: seq<Binding>, i: nat, n: nat)
    requires i <= n <= |bs|
    ensures CheckTo(files, bs, i).raised ==> CheckTo(files, bs, n) == CheckTo(files, bs, i)
    ensures GenerateTo(files, refuses, bs, i).raised
            ==> GenerateTo(files, refuses, bs, n) == GenerateTo(files, refuses, bs, i)
    decreases n
  {
    if i < n { RaisedStays(files, refuses, bs, i, n - 1); }
  }

  // ---- What generate leaves ---------------------------------------------------------

  ghost predicate DistinctPaths(bs: seq<Binding>) {
    forall i, j :: 0 <= i < j < |bs| ==> bs[i].path != bs[j].path
  }

  /** Nothing stops generate at this binding: it renders, what is at its path is
      text or nothing, and a path that cannot be written need not be. */
  predicate Passable(files: Files, refuses: Path -> bool, b: Binding) {
    && b.content.Some? && (b.path in files ==> files[b.path].Holds?)
    && (refuses(b.path) ==> b.path in files && Normalize(files[b.path].text) == b.content.value)
  }

  ghost predicate AllPassable(files: Files, refuses: Path -> bool, bs: seq<Binding>, n: nat)
    requires n <= |bs|
  {
    forall i :: 0 <= i < n ==> Passable(files, refuses, bs[i])
  }

  lemma OneMorePassable(files: Files, refuses: Path -> bool, bs: seq<Binding>, n: nat)
    requires n < |bs|
    ensures AllPassable(files, refuses, bs, n + 1)
            <==> AllPassable(files, refuses, bs, n) && Passable(files, refuses, bs[n])
  {
  }

  ghost predicate Untouched(before: Files, after: Files, p: Path) {
    (p in after <==> p in before) && (p in before ==> after[p] == before[p])
  }

  lemma {:induction false} OthersUntouched(files: Files, refuses: Path -> bool, bs: seq<Binding>, n: nat, p: Path)
    requires n <= |bs| && forall i :: 0 <= i < n ==> bs[i].path != p
    ensures Untouched(files, GenerateTo(files, refuses, bs, n).files, p)
    decreases n
  {
    if n > 0 { OthersUntouched(files, refuses, bs, n - 1, p); }
  }

  /** What an untouched path says of its binding does not change. */
  lemma UntouchedSame(files: Files, after: Files, refuses: Path -> bool, b: Binding)
    requires Untouched(files, after, b.path)
    ensures (Readable(after, b.path) <==> Readable(files, b.path)) && (UpToDate(after, b) <==> UpToDate(files, b))
    ensures Passable(after, refuses, b) <==> Passable(files, refuses, b)
  {
  }

  /** Generate runs through iff it can pass every binding of the tree it finds. */
  lemma {:induction false} RunsThroughIff(files: Files, refuses: Path -> bool, bs: seq<Binding>, n: nat)
    requires n <= |bs| && DistinctPaths(bs)
    ensures !GenerateTo(files, refuses, bs, n).raised <==> AllPassable(files, refuses, bs, n)
    decreases n
  {
    if n > 0 {
      RunsThroughIff(files, refuses, bs, n - 1);
      OthersUntouched(files, refuses, bs, n - 1, bs[n - 1].path);
      UntouchedSame(files, GenerateTo(files, refuses, bs, n - 1).files, refuses, bs[n - 1]);
      OneMorePassable(files, refuses, bs, n - 1);
    }
  }

  /** Generate writes a binding iff it needs writing and nothing stopped the run
      up to there; otherwise its path stays as it was. */
  lemma {:induction false} WrittenExactly(files: Files, refuses: Path -> bool, bs: seq<Binding>, n: nat, i: nat)
    requires i < n <= |bs| && DistinctPaths(bs)
    ensures var after := GenerateTo(files, refuses, bs, n).files;
            if AllPassable(files, refuses, bs, i + 1) && !UpToDate(files, bs[i])
            then bs[i].path in after && after[bs[i].path] == Holds(bs[i].content.value)
            else Untouched(files, after, bs[i].path)
    decreases n
  {
    var before, b := GenerateTo(files, refuses, bs, n - 1), bs[n - 1];
    if i < n - 1 {
      WrittenExactly(files, refuses, bs, n - 1, i);
    } else {
      OthersUntouched(files, refuses, bs, n - 1, b.path);
      UntouchedSame(files, before.files, refuses, b);
      RunsThroughIff(files, refuses, bs, n - 1);
      OneMorePassable(files, refuses, bs, n - 1);
    }
  }

  /** Generate makes no binding passable and none impassable. */
  lemma PassableStays(files: Files, refuses: Path -> bool, bs: seq<Binding>, i: nat)
    requires i < |bs| && DistinctPaths(bs)
    ensures Passable(GenerateTo(files, refuses, bs, |bs|).files, refuses, bs[i]) <==> Passable(files, refuses, bs[i])
  {
    var after := GenerateTo(files, refuses, bs, |bs|).files;
    WrittenExactly(files, refuses, bs, |bs|, i);
    if AllPassable(files, refuses, bs, i + 1) && !UpToDate(files, bs[i]) {
      assert Passable(files, refuses, bs[i]);
    } else {
      UntouchedSame(files, after, refuses, bs[i]);
    }
  }

  // ---- Generate, then check; generate, then generate ------------------------------------

  /** What it takes for generate to settle a binding: a text that renders, without
      a carriage return, and a path that reads as text or is absent, and can be
      written if it has to be. */
  predicate Settles(files: Files, refuses: Path -> bool, b: Binding) {
    Passable(files, refuses, b) && '\r' !in b.content.value
  }

  ghost predicate AllSettle(files: Files, refuses: Path -> bool, bs: seq<Binding>) {
    forall i :: 0 <= i < |bs| ==> Settles(files, refuses, bs[i])
  }

  ghost predicate AllUpToDate(files: Files, bs: seq<Binding>, n: nat)
    requires n <= |bs|
  {
    forall i :: 0 <= i < n ==> UpToDate(files, bs[i])
  }

  lemma UpToDateSettles(files: Files, refuses: Path -> bool, bs: seq<Binding>, i: nat)
    requires i < |bs| && DistinctPaths(bs) && UpToDate(GenerateTo(files, refuses, bs, |bs|).files, bs[i])
    ensures Settles(files, refuses, bs[i])
  {
    var after := GenerateTo(files, refuses, bs, |bs|).files;
    NoReturnAfterRead(after[bs[i].path].text);
    PassableStays(files, refuses, bs, i);
  }

  lemma SettledIsUpToDate(files: Files, refuses: Path -> bool, bs: seq<Binding>, i: nat)
    requires i < |bs| && DistinctPaths(bs) && AllSettle(files, refuses, bs)
    ensures UpToDate(GenerateTo(files, refuses, bs, |bs|).files, bs[i])
  {
    assert Settles(files, refuses, bs[i]);
    assert AllPassable(files, refuses, bs, i + 1) by {
      forall j | 0 <= j < i + 1 ensures Passable(files, refuses, bs[j]) { assert Settles(files, refuses, bs[j]); }
    }
    WrittenExactly(files, refuses, bs, |bs|, i);
    ReadsBackIff(bs[i].content.value);
    if UpToDate(files, bs[i]) { UntouchedSame(files, GenerateTo(files, refuses, bs, |bs|).files, refuses, bs[i]); }
  }

  lemma UpToDateIff(files: Files, refuses: Path -> bool, bs: seq<Binding>)
    requires DistinctPaths(bs)
    ensures AllUpToDate(GenerateTo(files, refuses, bs, |bs|).files, bs, |bs|) <==> AllSettle(files, refuses, bs)
  {
    var after := GenerateTo(files, refuses, bs, |bs|).files;
    if AllUpToDate(after, bs, |bs|) {
      forall i | 0 <= i < |bs| ensures Settles(files, refuses, bs[i]) {
        assert UpToDate(after, bs[i]);
        UpToDateSettles(files, refuses, bs, i);
      }
    }
    if AllSettle(files, refuses, bs) {
      forall i | 0 <= i < |bs| ensures UpToDate(after, bs[i]) { SettledIsUpToDate(files, refuses, bs, i); }
    }
  }

  /** Check finds nothing, or generate does nothing, iff every binding is up to date. */
  lemma {:induction false} QuietIff(files: Files, refuses: Path -> bool, bs: seq<Binding>, n: nat)
    requires n <= |bs|
    ensures CheckTo(files, bs, n) == Checked([], false) <==> AllUpToDate(files, bs, n)
    ensures AllUpToDate(files, bs, n) ==> GenerateTo(files, refuses, bs, n) == Generated(files, [], false)
    ensures GenerateTo(files, refuses, bs, n).wrote == [] && !GenerateTo(files, refuses, bs, n).raised
            ==> AllUpToDate(files, bs, n) && GenerateTo(files, refuses, bs, n).files == files
    decreases n
  {
    if n > 0 {
      QuietIff(files, refuses, bs, n - 1);
      assert AllUpToDate(files, bs, n) <==> AllUpToDate(files, bs, n - 1) && UpToDate(files, bs[n - 1]);
    }
  }

  /** Generate then check: on any tree, check passes iff every text renders, none
      holds a carriage return, which reading back would turn into a newline, and
      every binding's path could be read, and be written where it had to be. */
  lemma GenerateThenCheck(files: Files, refuses: Path -> bool, bs: seq<Binding>)
    requires DistinctPaths(bs)
    ensures CheckTo(GenerateTo(files, refuses, bs, |bs|).files, bs, |bs|) == Checked([], false)
            <==> AllSettle(files, refuses, bs)
  {
    var after := GenerateTo(files, refuses, bs, |bs|).files;
    QuietIff(after, refuses, bs, |bs|);
    UpToDateIff(files, refuses, bs);
  }

  lemma RewriteChangesNothing(refuses: Path -> bool, g: Generated, b: Binding)
    requires !g.raised && !UpToDate(g.files, b) && Passable(g.files, refuses, b)
             ==> b.path in g.files && g.files[b.path] == Holds(b.content.value)
    ensures GenerateOne(refuses, g, b).files == g.files
  {
    if !g.raised && !UpToDate(g.files, b) && Passable(g.files, refuses, b) {
      assert g.files[b.path := Holds(b.content.value)] == g.files;
    }
  }

  /** One way to fail: a text with a carriage return is written, and stale again at once. */
  lemma CarriageReturnStaysStale(files: Files, refuses: Path -> bool, b: Binding)
    requires Passable(files, refuses, b) && '\r' in b.content.value
    ensures var g := GenerateTo(files, refuses, [b], 1);
            && !g.raised && g.wrote == [b.path]
            && CheckTo(g.files, [b], 1) == Checked([b.path], false)
  {
    ReadsBackIff(b.content.value);
    if UpToDate(files, b) { NoReturnAfterRead(files[b.path].text); }
  }

  /** Another: a text that does not render ends both, after the bindings before it. */
  lemma UnrenderedEndsBoth(files: Files, refuses: Path -> bool, bs: seq<Binding>, b: Binding)
    requires b.content == None
    ensures var n := |bs|;
            && GenerateTo(files, refuses, bs + [b], n + 1).raised
            && GenerateTo(files, refuses, bs + [b], n + 1).files == GenerateTo(files, refuses, bs + [b], n).files
            && CheckTo(files, bs + [b], n + 1).raised
  {
  }

  lemma {:induction false} SameAgain(files: Files, refuses: Path -> bool, bs: seq<Binding>, n: nat)
    requires n <= |bs| && DistinctPaths(bs)
    ensures GenerateTo(GenerateTo(files, refuses, bs, |bs|).files, refuses, bs, n).files
            == GenerateTo(files, refuses, bs, |bs|).files
    decreases n
  {
    if n > 0 {
      var after, b := GenerateTo(files, refuses, bs, |bs|).files, bs[n - 1];
      var again := GenerateTo(after, refuses, bs, n - 1);
      SameAgain(files, refuses, bs, n - 1);
      if !again.raised && !UpToDate(after, b) && Passable(after, refuses, b) {
        WrittenTwice(files, refuses, bs, n - 1);
      }
      RewriteChangesNothing(refuses, again, b);
    }
  }

  lemma AllPassableStay(files: Files, refuses: Path -> bool, bs: seq<Binding>, n: nat)
    requires n <= |bs| && DistinctPaths(bs)
    ensures AllPassable(GenerateTo(files, refuses, bs, |bs|).files, refuses, bs, n)
            <==> AllPassable(files, refuses, bs, n)
  {
    forall i | 0 <= i < n
      ensures Passable(GenerateTo(files, refuses, bs, |bs|).files, refuses, bs[i]) <==> Passable(files, refuses, bs[i])
    {
      PassableStays(files, refuses, bs, i);
    }
  }

  /** What a second run gets to write, the first has written. */
  lemma WrittenTwice(files: Files, refuses: Path -> bool, bs: seq<Binding>, n: nat)
    requires n < |bs| && DistinctPaths(bs)
    requires var after := GenerateTo(files, refuses, bs, |bs|).files;
             !GenerateTo(after, refuses, bs, n).raised && !UpToDate(after, bs[n]) && Passable(after, refuses, bs[n])
    ensures var after := GenerateTo(files, refuses, bs, |bs|).files;
            bs[n].path in after && after[bs[n].path] == Holds(bs[n].content.value)
  {
    var after := GenerateTo(files, refuses, bs, |bs|).files;
    RunsThroughIff(after, refuses, bs, n);
    OneMorePassable(after, refuses, bs, n);
    AllPassableStay(files, refuses, bs, n + 1);
    WrittenExactly(files, refuses, bs, |bs|, n);
    if UpToDate(files, bs[n]) { UntouchedSame(files, after, refuses, bs[n]); }
  }

  /** Fixpoint: a second generate leaves the tree as it is, and ends without
      writing any file under the same condition as check passes. */
  lemma SecondGenerate(files: Files, refuses: Path -> bool, bs: seq<Binding>)
    requires DistinctPaths(bs)
    ensures var after := GenerateTo(files, refuses, bs, |bs|).files;
            var again := GenerateTo(after, refuses, bs, |bs|);
            && again.files == after
            && (again.wrote == [] && !again.raised <==> AllSettle(files, refuses, bs))
  {
    var after := GenerateTo(files, refuses, bs, |bs|).files;
    SameAgain(files, refuses, bs, |bs|);
    QuietIff(after, refuses, bs, |bs|);
    UpToDateIff(files, refuses, bs);
  }

  // ---- The paths of the bindings ------------------------------------------------

  /** The part after the last separator. */
  function LastPart(s: string): string {
    if s == "" || s[|s| - 1] == '/' then "" else LastPart(s[..|s| - 1]) + [s[|s| - 1]]
  }

  lemma {:induction false} LastPartOf(dir: string, x: string)
    requires '/' !in x
    ensures LastPart(dir + ("/" + x)) == x
    decreases |x|
  {
    var s := dir + ("/" + x);
    if x == "" {
      assert s[|s| - 1] == '/';
    } else {
      var k := |x| - 1;
      assert s[|s| - 1] == x[k] && s[..|s| - 1] == dir + ("/" + x[..k]);
      LastPartOf(dir, x[..k]);
    }
  }

  lemma DirsDiffer(k: Kind, l: Kind)
    ensures k == l || Dir(k) != Dir(l)
  {
    if k != l { assert Dir(k)[1] != Dir(l)[1] || Dir(k)[2] != Dir(l)[2]; }
  }

  predicate SeparatorFree(name: string) {
    '/' !in name
  }

  lemma SplitUnique(a: string, x: string, b: string, y: string)
    requires '/' !in x && '/' !in y && a + ("/" + x) == b + ("/" + y)
    ensures a == b && x == y
  {
    LastPartOf(a, x);
    LastPartOf(b, y);
    assert |a| == |b|;
    assert (a + ("/" + x))[..|a|] == a && (b + ("/" + y))[..|b|] == b;
  }

  lemma SameSuffix(n: string, m: string, e: string)
    requires n + e == m + e
    ensures n == m
  {
    assert |n| == |m| && (n + e)[..|n|] == n && (m + e)[..|m|] == m;
  }

  /** A binding path gives back its harness and its role. */
  lemma PathInjective(k: Kind, n: string, l: Kind, m: string)
    requires SeparatorFree(n) && SeparatorFree(m) && PathOf(k, n) == PathOf(l, m)
    ensures k == l && n == m
  {
    SplitUnique(Dir(k), n + Extension(k), Dir(l), m + Extension(l));
    DirsDiffer(k, l);
    SameSuffix(n, m, Extension(k));
  }

  /** Distinct separator-free role names bind distinct paths. */
  lemma RolesBindDistinctPaths(names: seq<string>, render: (Kind, string) -> Option<string>)
    requires forall i :: 0 <= i < |names| ==> SeparatorFree(names[i])
    requires NoRepeats(names)
    ensures DistinctPaths(Bindings(names, render))
  {
    var bs := Bindings(names, render);
    forall i, j | 0 <= i < j < |bs| ensures bs[i].path != bs[j].path {
      if bs[i].path == bs[j].path {
        PathInjective(KINDS[i % 5], names[i / 5], KINDS[j % 5], names[j / 5]);
        SameCell(i, j);
      }
    }
  }

  lemma SameCell(i: nat, j: nat)
    requires KINDS[i % 5] == KINDS[j % 5] && i / 5 == j / 5
    ensures i == j
  {
    assert i == 5 * (i / 5) + i % 5 && j == 5 * (j / 5) + j % 5;
  }

  ghost predicate BindsSome(names: seq<string>, p: Path) {
    exists k, n :: n in names && p == PathOf(k, n)
  }

  lemma BindingsBind(names: seq<string>, render: (Kind, string) -> Option<string>, i: nat)
    requires i < 5 * |names|
    ensures BindsSome(names, Bindings(names, render)[i].path)
  {
    assert names[i / 5] in names && BindingAt(names, render, i).path == PathOf(KINDS[i % 5], names[i / 5]);
  }

  lemma OutsideUntouched(files: Files, refuses: Path -> bool, names: seq<string>,
      render: (Kind, string) -> Option<string>, p: Path)
    requires !BindsSome(names, p)
    ensures Untouched(files, GenerateTo(files, refuses, Bindings(names, render), 5 * |names|).files, p)
  {
    var bs := Bindings(names, render);
    forall i | 0 <= i < |bs| ensures bs[i].path != p { BindingsBind(names, render, i); }
    OthersUntouched(files, refuses, bs, |bs|, p);
  }

  /** The whole cycle for a loaded manifest: generate touches no path outside
      the bindings, and check then passes, and a second generate ends without
      writing, iff every binding settles. */
  lemma GenerateCycle(files: Files, refuses: Path -> bool, names: seq<string>, render: (Kind, string) -> Option<string>)
    requires forall i :: 0 <= i < |names| ==> SeparatorFree(names[i])
    requires NoRepeats(names)
    ensures var bs := Bindings(names, render);
            var after := GenerateTo(files, refuses, bs, |bs|).files;
            var again := GenerateTo(after, refuses, bs, |bs|);
            && (CheckTo(after, bs, |bs|) == Checked([], false) <==> AllSettle(files, refuses, bs))
            && (again.wrote == [] && !again.raised <==> AllSettle(files, refuses, bs))
            && again.files == after
            && forall p :: BindsSome(names, p) || Untouched(files, after, p)
  {
    var bs := Bindings(names, render);
    RolesBindDistinctPaths(names, render);
    GenerateThenCheck(files, refuses, bs);
    SecondGenerate(files, refuses, bs);
    forall p ensures BindsSome(names, p) || Untouched(files, GenerateTo(files, refuses, bs, |bs|).files, p) {
      if !BindsSome(names, p) { OutsideUntouched(files, refuses, names, render, p); }
    }
  }
}
