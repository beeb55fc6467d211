/** What the adapter's words mean: which names are which events, what a hook is
    told, what its output says, and what comes of it. */
module HookWords {
  import opened Text
  import opened Json
  import opened HookEvents

  // ---- Event names ---------------------------------------------------------------

  /** The events by the names Cursor calls them by; any other name is no event. */
  lemma EventNames(n: string)
    ensures EventOf(n) == BeforeShell <==> n == "beforeShellExecution"
    ensures EventOf(n) == PreTool <==> n == "preToolUse"
    ensures EventOf(n) == PostTool <==> n == "postToolUse"
    ensures EventOf(n) == AfterEdit <==> n == "afterFileEdit"
    ensures EventOf(n) == SessionStart <==> n == "sessionStart"
    ensures EventOf(n) == PreCompact <==> n == "preCompact"
    ensures EventOf(n) == BeforeSubmit <==> n == "beforeSubmitPrompt"
    ensures EventOf(n) == Stop <==> n == "stop"
    ensures EventOf(n) == SubagentStart <==> n == "subagentStart"
  {
  }

  /** Two events are guards, two follow the helper links, and six only advise. */
  lemma EventKinds(e: Event)
    ensures IsGuard(e) <==> e in {BeforeShell, PreTool}
    ensures IsSkillEvent(e) <==> e in {PreTool, PostTool}
    ensures IsAdvisory(e) <==> e in {PostTool, AfterEdit, SessionStart, PreCompact, BeforeSubmit, Stop}
  {
  }

  // ---- The path a payload names ------------------------------------------------------

  /** The values that may name a path, in order. */
  function PathFields(p: Payload): seq<Json> {
    match Get(p, "tool_input")
    case Obj(ti) =>
      [Get(ti, "file_path"), Get(ti, "path"), Get(ti, "target_file"), Get(ti, "filePath"), Get(ti, "file"),
       Get(p, "file_path")]
    case _ => [Get(p, "file_path")]
  }

  lemma CandidatesAreFields(p: Payload)
    ensures PathCandidates(p) == PathFields(p)
  {
  }

  predicate IsEmptyField(j: Json) {
    j == Null || j == Str("")
  }

  /** `cs[k]` is the first entry that is neither null nor an empty string. */
  ghost predicate FirstFilled(cs: seq<Json>, k: nat) {
    k < |cs| && !IsEmptyField(cs[k]) && forall i :: 0 <= i < k ==> IsEmptyField(cs[i])
  }

  lemma {:induction false} FirstPathIs(cs: seq<Json>, k: nat)
    requires FirstFilled(cs, k)
    ensures FirstPath(cs) == if cs[k].Str? then Found(Some(cs[k].s)) else BadPath
    decreases |cs|
  {
    if k > 0 {
      assert IsEmptyField(cs[0]);
      assert FirstFilled(cs[1..], k - 1);
      FirstPathIs(cs[1..], k - 1);
    }
  }

  lemma {:induction false} FirstPathNone(cs: seq<Json>)
    requires forall i :: 0 <= i < |cs| ==> IsEmptyField(cs[i])
    ensures FirstPath(cs) == Found(None)
    decreases |cs|
  {
    if cs != [] {
      assert IsEmptyField(cs[0]);
      FirstPathNone(cs[1..]);
    }
  }

  lemma {:induction false} SomeFilled(cs: seq<Json>) returns (k: nat)
    requires exists i :: 0 <= i < |cs| && !IsEmptyField(cs[i])
    ensures FirstFilled(cs, k)
    decreases |cs|
  {
    if !IsEmptyField(cs[0]) {
      k := 0;
    } else {
      var i :| 0 <= i < |cs| && !IsEmptyField(cs[i]);
      assert cs[1..][i - 1] == cs[i];
      var rest := SomeFilled(cs[1..]);
      k := rest + 1;
    }
  }

  lemma FilledOnce(cs: seq<Json>, j: nat, k: nat)
    requires FirstFilled(cs, j) && FirstFilled(cs, k)
    ensures j == k
  {
  }

  /** No field holds anything: each is absent, null or empty. */
  ghost predicate NamesNothing(p: Payload) {
    forall i :: 0 <= i < |PathFields(p)| ==> IsEmptyField(PathFields(p)[i])
  }

  /** The first field that holds something holds the string `s`. */
  ghost predicate Names(p: Payload, s: string) {
    exists k: nat :: FirstFilled(PathFields(p), k) && PathFields(p)[k] == Str(s)
  }

  /** Joining onto the working directory: an absolute path stands alone, and so
      does any path without a directory; else one slash comes between. */
  predicate Joined(cwd: string, s: string, path: string) {
    if cwd == "" || (s != "" && s[0] == '/') then path == s
    else path == cwd + (if cwd[|cwd| - 1] == '/' then "" else "/") + s
  }

  lemma JoinIs(cwd: string, s: string)
    ensures Joined(cwd, s, JoinPath(cwd, s))
    ensures forall path :: Joined(cwd, s, path) ==> path == JoinPath(cwd, s)
  {
    assert "/" <= s <==> s != "" && s[0] == '/';
  }

  ghost predicate NamesPath(p: Payload, cwd: string, path: string) {
    exists s :: Names(p, s) && Joined(cwd, s, path)
  }

  /** The search, exactly: nothing, a path, or a value that is no string. */
  lemma FindPathIff(p: Payload, cwd: string, path: string)
    ensures FindPath(p, cwd) == Found(None) <==> NamesNothing(p)
    ensures FindPath(p, cwd) == Found(Some(path)) <==> NamesPath(p, cwd, path)
    ensures FindPath(p, cwd) == BadPath <==> !NamesNothing(p) && forall s :: !Names(p, s)
  {
    var cs := PathFields(p);
    CandidatesAreFields(p);
    if NamesNothing(p) {
      FirstPathNone(cs);
    } else {
      var k := SomeFilled(cs);
      FirstPathIs(cs, k);
      forall s ensures Names(p, s) <==> cs[k] == Str(s) { OneName(cs, k, p, s); }
      if cs[k].Str? { JoinIs(cwd, cs[k].s); }
    }
  }

  lemma OneName(cs: seq<Json>, k: nat, p: Payload, s: string)
    requires cs == PathFields(p) && FirstFilled(cs, k)
    ensures Names(p, s) <==> cs[k] == Str(s)
  {
    if Names(p, s) {
      var j: nat :| FirstFilled(cs, j) && cs[j] == Str(s);
      FilledOnce(cs, j, k);
    }
  }

  // ---- What a hook is told --------------------------------------------------------------

  /** The payload's own directory, else the first workspace root, else the project's. */
  lemma CwdIs(p: Payload, m: Machine)
    ensures forall d :: d != "" && Get(p, "cwd") == Str(d) ==> CwdOf(p, m) == d
    ensures (Get(p, "cwd").Str? ==> Get(p, "cwd") == Str("")) ==>
              forall d, rest :: d != "" && Get(p, "workspace_roots") == Arr([Str(d)] + rest) ==> CwdOf(p, m) == d
    ensures CwdOf(p, m) != m.projectDir ==>
              || Get(p, "cwd") == Str(CwdOf(p, m))
              || (Get(p, "workspace_roots").Arr? && Get(p, "workspace_roots").items != []
                  && Get(p, "workspace_roots").items[0] == Str(CwdOf(p, m)))
  {
    forall d, rest | Get(p, "workspace_roots") == Arr([Str(d)] + rest)
      ensures Get(p, "workspace_roots").items != [] && Get(p, "workspace_roots").items[0] == Str(d)
    {
      assert ([Str(d)] + rest)[0] == Str(d);
    }
  }

  /** The fields of an object, none of anything else. */
  function FieldsIn(j: Json): Payload {
    match j
    case Obj(fields) => fields
    case _ => map[]
  }

  /** Which happening each event reports, in the payload's own fields. */
  ghost predicate Reports(e: Event, p: Payload, m: Machine, cwd: string, what: Happening) {
    match what
    case Bash(input) =>
      || (e == BeforeShell && Get(p, "command").Str? && input == Obj(map["command" := Get(p, "command")]))
      || (e == PreTool && Get(p, "tool_name") == Str("Shell") && input == Obj(FieldsIn(Get(p, "tool_input"))))
    case Write(path) => e == PreTool && Get(p, "tool_name") != Str("Shell") && NamesPath(p, cwd, path)
    case Skill(id) =>
      && e == PostTool && Get(p, "tool_name") == Str("Read") && id != ""
      && exists path :: NamesPath(p, cwd, path) && m.skillId(path) == Some(id)
    case Edit(path) =>
      e == AfterEdit && (NamesPath(p, cwd, path) || (path == "" && forall other :: !NamesPath(p, cwd, other)))
    case Session(compact) => (e == SessionStart && !compact) || (e == PreCompact && compact)
    case Prompt(prompt, id) =>
      && e == BeforeSubmit && IsOrEmpty(Get(p, "prompt"), prompt) && IsOrEmpty(Get(p, "generation_id"), id)
    case Stopped(id, active) =>
      && e == Stop && Get(p, "status") == Str("completed") && IsOrEmpty(Get(p, "generation_id"), id)
      && (active <==> Get(p, "loop_count") == Bool(true) || exists n :: n > 0 && Get(p, "loop_count") == Int(n))
  }

  /** `v` is `j`, or the empty string where `j` is falsy. */
  predicate IsOrEmpty(j: Json, v: Json) {
    v == if j in {Null, Bool(false), Int(0), Float(0.0), Str(""), Arr([]), Obj(map[])} then Str("") else j
  }

  lemma OrEmptyIs(j: Json, v: Json)
    ensures Or(j, Str("")) == v <==> IsOrEmpty(j, v)
  {
  }

  /** The hook is told the session key, the directory, the transcript and the happening. */
  ghost predicate IsTold(e: Event, p: Payload, key: Json, m: Machine, c: ClaudePayload) {
    && c.session == key && c.cwd == CwdOf(p, m) && c.transcript == Get(p, "transcript_path")
    && Reports(e, p, m, CwdOf(p, m), c.what)
  }

  lemma ShellReports(p: Payload, m: Machine, cwd: string, what: Happening)
    ensures ShellReport(p) == Reported(what) <==> Reports(BeforeShell, p, m, cwd, what)
  {
  }

  lemma ToolReports(p: Payload, m: Machine, cwd: string, what: Happening)
    ensures ToolReport(p, cwd) == Reported(what) <==> Reports(PreTool, p, m, cwd, what)
  {
    if what.Write? { FindPathIff(p, cwd, what.path); }
  }

  lemma ReadReports(p: Payload, m: Machine, cwd: string, what: Happening)
    ensures ReadReport(p, cwd, m) == Reported(what) <==> Reports(PostTool, p, m, cwd, what)
  {
    forall path
      ensures FindPath(p, cwd) == Found(Some(path)) <==> NamesPath(p, cwd, path)
    { FindPathIff(p, cwd, path); }
  }

  lemma EditReports(p: Payload, m: Machine, cwd: string, what: Happening)
    ensures EditReport(p, cwd) == Reported(what) <==> Reports(AfterEdit, p, m, cwd, what)
  {
    forall path
      ensures FindPath(p, cwd) == Found(Some(path)) <==> NamesPath(p, cwd, path)
    { FindPathIff(p, cwd, path); }
  }

  lemma PromptReports(p: Payload, m: Machine, cwd: string, what: Happening)
    ensures ReportOf(BeforeSubmit, p, cwd, m) == Reported(what) <==> Reports(BeforeSubmit, p, m, cwd, what)
  {
    if what.Prompt? {
      OrEmptyIs(Get(p, "prompt"), what.prompt);
      OrEmptyIs(Get(p, "generation_id"), what.promptId);
    }
  }

  lemma StopReports(p: Payload, m: Machine, cwd: string, what: Happening)
    ensures StopReport(p) == Reported(what) <==> Reports(Stop, p, m, cwd, what)
  {
    if what.Stopped? { OrEmptyIs(Get(p, "generation_id"), what.promptId); }
  }

  /** What happened, by the payload's own fields, is what is reported. */
  lemma ReportsIff(e: Event, p: Payload, m: Machine, cwd: string, what: Happening)
    ensures ReportOf(e, p, cwd, m) == Reported(what) <==> Reports(e, p, m, cwd, what)
  {
    match e
    case BeforeShell => ShellReports(p, m, cwd, what);
    case PreTool => ToolReports(p, m, cwd, what);
    case PostTool => ReadReports(p, m, cwd, what);
    case AfterEdit => EditReports(p, m, cwd, what);
    case BeforeSubmit => PromptReports(p, m, cwd, what);
    case Stop => StopReports(p, m, cwd, what);
    case _ =>
  }

  /** What the hook of any event is told, exactly. */
  lemma ToldIff(e: Event, p: Payload, key: Json, m: Machine, c: ClaudePayload)
    ensures Translate(e, p, key, m) == ToHook(c) <==> IsTold(e, p, key, m, c)
  {
    ReportsIff(e, p, m, CwdOf(p, m), c.what);
  }

  lemma ToolNotTold(p: Payload, cwd: string)
    ensures ToolReport(p, cwd) == Answered(Allow(None)) <==> Get(p, "tool_name") != Str("Shell") && NamesNothing(p)
    ensures ToolReport(p, cwd) == BadReport <==>
            Get(p, "tool_name") != Str("Shell") && !NamesNothing(p) && forall s :: !Names(p, s)
    ensures ToolReport(p, cwd).Answered? ==> ToolReport(p, cwd).answer == Allow(None)
    ensures !ToolReport(p, cwd).NoReport?
  {
    FindPathIff(p, cwd, "");
  }

  /** What stands behind an answer given without a hook: a tool without a path is
      let through, a command that is no string denies, and a read that loads no
      skill and a stop that completed nothing are passed over. */
  predicate IsUntold(e: Event, p: Payload, a: Answer) {
    match e
    case PreTool => a == Allow(None)
    case BeforeShell => !Get(p, "command").Str? && IsBothDenied(a, "no command in the payload")
    case PostTool => a == Empty
    case Stop => a == Empty && Get(p, "status") != Str("completed")
    case _ => false
  }

  /** A denial that tells the user and the agent alike that the hook failed closed. */
  predicate IsBothDenied(a: Answer, msg: string) {
    a.Deny? && a.user == a.agent == "Eshu Cursor hook failed closed: " + msg
  }

  lemma ShellUntold(p: Payload)
    requires ShellReport(p).Answered?
    ensures IsUntold(BeforeShell, p, ShellReport(p).answer)
  {
  }

  /** A tool call that is no shell command and names no path. */
  ghost predicate IsPathless(e: Event, p: Payload) {
    e == PreTool && Get(p, "tool_name") != Str("Shell") && NamesNothing(p)
  }

  /** When a hook is not told, why; and a path that is none is malformed. */
  lemma NotTold(e: Event, p: Payload, key: Json, m: Machine)
    ensures var t := Translate(e, p, key, m);
            && (t.Early? ==> IsUntold(e, p, t.answer))
            && (e == PreTool && t.Early? <==> IsPathless(e, p))
            && (t.Malformed? <==>
                e == PreTool && Get(p, "tool_name") != Str("Shell") && !NamesNothing(p) && forall s :: !Names(p, s))
            && (t.Untranslated? <==> e == SubagentStart || e == OtherEvent)
  {
    match e
    case BeforeShell => if ShellReport(p).Answered? { ShellUntold(p); }
    case PreTool => ToolNotTold(p, CwdOf(p, m));
    case _ =>
  }

  // ---- What a hook's output says -----------------------------------------------------------

  /** The output, white space aside, is a JSON object with these fields. */
  ghost predicate SaysObject(out: string, m: Machine, d: Payload) {
    Strip(out) != "" && m.loads(Strip(out)) == Some(Obj(d))
  }

  /** It is one that decides to block, or whose hook-specific part denies permission. */
  ghost predicate Blocks(out: string, m: Machine) {
    exists d :: SaysObject(out, m, d)
                && (Get(d, "decision") == Str("block")
                    || Get(FieldsIn(Get(d, "hookSpecificOutput")), "permissionDecision") == Str("deny"))
  }

  lemma BlockedIff(out: string, m: Machine)
    ensures ParseClaude(out, m).blocked <==> Blocks(out, m)
  {
    if Strip(out) != "" && m.loads(Strip(out)).Some? && m.loads(Strip(out)).value.Obj? {
      var d := m.loads(Strip(out)).value.fields;
      assert SaysObject(out, m, d);
    }
  }

  /** `text` is str() of the first of `js` that is truthy, or empty. */
  ghost predicate SaysFirst(js: seq<Json>, m: Machine, text: string) {
    || (text == "" && forall i :: 0 <= i < |js| ==> !Truthy(js[i]))
    || exists i :: (0 <= i < |js| && Truthy(js[i]) && (forall j :: 0 <= j < i ==> !Truthy(js[j]))
                    && text == match js[i] case Str(s) => s case other => m.show(other))
  }

  /** The reason and the context: an object's own fields; of any other output, all
      of it is context. */
  lemma ReasonAndContext(out: string, m: Machine)
    ensures forall d :: SaysObject(out, m, d) ==>
              var hso := FieldsIn(Get(d, "hookSpecificOutput"));
              && SaysFirst([Get(d, "reason"), Get(hso, "permissionDecisionReason")], m, ParseClaude(out, m).reason)
              && SaysFirst([Get(hso, "additionalContext")], m, ParseClaude(out, m).context)
    ensures (forall d :: !SaysObject(out, m, d)) ==>
              ParseClaude(out, m).reason == "" && ParseClaude(out, m).context == Strip(out)
  {
    forall d | SaysObject(out, m, d)
      ensures var hso := FieldsIn(Get(d, "hookSpecificOutput"));
              && SaysFirst([Get(d, "reason"), Get(hso, "permissionDecisionReason")], m, ParseClaude(out, m).reason)
              && SaysFirst([Get(hso, "additionalContext")], m, ParseClaude(out, m).context)
    {
      var hso := FieldsIn(Get(d, "hookSpecificOutput"));
      SaysOr([Get(d, "reason"), Get(hso, "permissionDecisionReason")], m);
      SaysOne(Get(hso, "additionalContext"), m);
    }
    if Strip(out) != "" && m.loads(Strip(out)).Some? && m.loads(Strip(out)).value.Obj? {
      assert SaysObject(out, m, m.loads(Strip(out)).value.fields);
    }
  }

  lemma SaysOr(js: seq<Json>, m: Machine)
    requires |js| == 2
    ensures SaysFirst(js, m, TextOf(Or(js[0], Or(js[1], Str(""))), m))
  {
    if Truthy(js[0]) {
    } else if Truthy(js[1]) {
      assert Truthy(js[1]) && forall j :: 0 <= j < 1 ==> !Truthy(js[j]);
    }
  }

  lemma SaysOne(j: Json, m: Machine)
    ensures SaysFirst([j], m, TextOf(Or(j, Str("")), m))
  {
    assert [j][0] == j;
  }

  // ---- Messages --------------------------------------------------------------------------------

  /** The number a string of decimal digits writes. */
  function Value(s: string): nat
    requires forall i :: 0 <= i < |s| ==> '0' <= s[i] <= '9'
  {
    if s == "" then 0 else 10 * Value(s[..|s| - 1]) + (s[|s| - 1] as int - '0' as int)
  }

  predicate AreDigits(s: string) {
    forall i :: 0 <= i < |s| ==> '0' <= s[i] <= '9'
  }

  lemma ValueGrows(s: string, c: char)
    requires AreDigits(s) && '0' <= c <= '9'
    ensures AreDigits(s + [c]) && Value(s + [c]) == 10 * Value(s) + (c as int - '0' as int)
  {
    assert (s + [c])[..|s|] == s;
  }

  lemma DigitIs(d: nat)
    requires d < 10
    ensures var c := "0123456789"[d]; '0' <= c <= '9' && c as int - '0' as int == d
  {
  }

  /** The digits written for a number are the number's. */
  lemma {:induction false} DecimalWrites(n: nat)
    ensures AreDigits(Decimal(n)) && Value(Decimal(n)) == n
    decreases n
  {
    DigitIs(n % 10);
    if n >= 10 {
      DecimalWrites(n / 10);
      ValueGrows(Decimal(n / 10), "0123456789"[n % 10]);
    } else {
      ValueGrows("", "0123456789"[n]);
      assert "" + ["0123456789"[n]] == ["0123456789"[n]];
    }
  }

  /** An exit code is written with its sign. */
  lemma NumberWrites(i: int)
    ensures i >= 0 ==> Number(i) == Decimal(i)
    ensures i < 0 ==> Number(i) == "-" + Decimal(-i)
  {
  }

  /** At most 20000 characters of a message are passed on; a longer one says how many were cut. */
  lemma ClipIs(text: string)
    ensures |text| <= 20000 ==> Clip(text) == text
    ensures |text| > 20000 ==>
              Clip(text) == text[..20000] + "\n... [truncated " + Decimal(|text| - 20000) + " characters]"
  {
  }
}
