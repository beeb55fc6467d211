/** Cursor payloads and hook answers: translation in, translation out. */
module HookEvents {
  import opened Text
  import opened Json

  datatype Event =
    | BeforeShell | PreTool
    | PostTool | AfterEdit | SessionStart | PreCompact | BeforeSubmit | Stop
    | SubagentStart
    | OtherEvent

  function EventOf(name: string): Event {
    if name == "beforeShellExecution" then BeforeShell
    else if name == "preToolUse" then PreTool
    else if name == "postToolUse" then PostTool
    else if name == "afterFileEdit" then AfterEdit
    else if name == "sessionStart" then SessionStart
    else if name == "preCompact" then PreCompact
    else if name == "beforeSubmitPrompt" then BeforeSubmit
    else if name == "stop" then Stop
    else if name == "subagentStart" then SubagentStart
    else OtherEvent
  }

  /** The two events whose answer lets an action happen or stops it. */
  predicate IsGuard(e: Event) {
    e == BeforeShell || e == PreTool
  }

  predicate IsAdvisory(e: Event) {
    e != SubagentStart && e != OtherEvent && !IsGuard(e)
  }

  /** The skill events, which use the family key. */
  predicate IsSkillEvent(e: Event) {
    e == PreTool || e == PostTool
  }

  /** The one JSON object printed. */
  datatype Answer =
    | Deny(user: string, agent: string)
    | Allow(agentMessage: Option<string>)
    | Empty
    | Followup(message: string)
    | Continue(go: bool, userMessage: Option<string>)
    | UserMessage(message: string)
    | AdditionalContext(context: string)

  /** What a Claude hook is told to have happened. */
  datatype Happening =
    | Bash(input: Json)
    | Write(path: string)
    | Skill(id: string)
    | Edit(path: string)
    | Session(compact: bool)
    | Prompt(prompt: Json, promptId: Json)
    | Stopped(promptId: Json, active: bool)

  datatype ClaudePayload = ClaudePayload(session: Json, cwd: string, transcript: Json, what: Happening)

  /** The parts of the machine a hook run depends on: JSON parsing (None is a
      ValueError), str() of a value, the skill a path loads, the last part of a
      path, and the texts that name the project. */
  datatype Machine = Machine(
    loads: string -> Option<Json>,
    show: Json -> string,
    skillId: string -> Option<string>,
    baseName: string -> string,
    projectDir: string,
    skillNote: string)

  function DenyWith(msg: string): Answer {
    Deny(msg, msg)
  }

  function FailedClosed(msg: string): Answer {
    DenyWith("Eshu Cursor hook failed closed: " + msg)
  }

  /** What is answered when the run goes wrong: only a helper start and the advisory events get through. */
  function FailAnswer(e: Event, msg: string): Answer {
    if e == SubagentStart then Allow(None)
    else if e == BeforeSubmit then Continue(true, None)
    else if IsAdvisory(e) then Empty
    else FailedClosed(msg)
  }

  // ---- Cursor payload to Claude payload --------------------------------------

  const PATH_KEYS := ["file_path", "path", "target_file", "filePath", "file"]

  datatype FoundPath = Found(path: Option<string>) | BadPath

  function FieldsOf(j: Json): Payload {
    if j.Obj? then j.fields else map[]
  }

  /** The values that may name a path, in the order they are tried. */
  function PathCandidates(p: Payload): seq<Json> {
    var ti := Get(p, "tool_input");
    (if ti.Obj?
     then [Get(ti.fields, PATH_KEYS[0]), Get(ti.fields, PATH_KEYS[1]), Get(ti.fields, PATH_KEYS[2]),
           Get(ti.fields, PATH_KEYS[3]), Get(ti.fields, PATH_KEYS[4])]
     else [])
    + [Get(p, "file_path")]
  }

  /** The first non-empty string, unless a value of another type stands before it. */
  function FirstPath(cs: seq<Json>): FoundPath {
    if cs == [] then Found(None)
    else match cs[0]
      case Null => FirstPath(cs[1..])
      case Str(s) => if s != "" then Found(Some(s)) else FirstPath(cs[1..])
      case _ => BadPath
  }

  function JoinPath(cwd: string, path: string): string {
    if "/" <= path || cwd == "" then path
    else if cwd[|cwd| - 1] == '/' then cwd + path
    else cwd + "/" + path
  }

  function FindPath(p: Payload, cwd: string): FoundPath {
    match FirstPath(PathCandidates(p))
    case Found(Some(s)) => Found(Some(JoinPath(cwd, s)))
    case other => other
  }

  function CwdOf(p: Payload, m: Machine): string {
    var cwd, roots := Get(p, "cwd"), Get(p, "workspace_roots");
    if cwd.Str? && cwd.s != "" then cwd.s
    else if roots.Arr? && roots.items != [] && roots.items[0].Str? && roots.items[0].s != "" then roots.items[0].s
    else m.projectDir
  }

  predicate IsShellTool(p: Payload) {
    Get(p, "tool_name") == Str("Shell")
  }

  /** What an event comes to: a happening to report, an answer without one, or neither. */
  datatype Report = Reported(what: Happening) | Answered(answer: Answer) | NoReport | BadReport

  function ShellReport(p: Payload): Report {
    var cmd := Get(p, "command");
    if cmd.Str? then Reported(Bash(Obj(map["command" := cmd]))) else Answered(FailedClosed("no command in the payload"))
  }

  function ToolReport(p: Payload, cwd: string): Report {
    if IsShellTool(p) then Reported(Bash(Obj(FieldsOf(Get(p, "tool_input")))))
    else match FindPath(p, cwd)
      case BadPath => BadReport
      case Found(None) => Answered(Allow(None))
      case Found(Some(path)) => Reported(Write(path))
  }

  function ReadReport(p: Payload, cwd: string, m: Machine): Report {
    var found := if Get(p, "tool_name") == Str("Read") then FindPath(p, cwd) else Found(None);
    if found.BadPath? || found.path.None? then Answered(Empty)
    else match m.skillId(found.path.value)
      case None => Answered(Empty)
      case Some(id) => if id == "" then Answered(Empty) else Reported(Skill(id))
  }

  function EditReport(p: Payload, cwd: string): Report {
    var found := FindPath(p, cwd);
    Reported(Edit(if found.Found? then found.path.GetOr("") else ""))
  }

  function StopReport(p: Payload): Report {
    if Get(p, "status") != Str("completed") then Answered(Empty)
    else
      var loops := Get(p, "loop_count");
      Reported(Stopped(Or(Get(p, "generation_id"), Str("")), loops == Bool(true) || (loops.Int? && loops.i > 0)))
  }

  function ReportOf(e: Event, p: Payload, cwd: string, m: Machine): Report {
    match e
    case BeforeShell => ShellReport(p)
    case PreTool => ToolReport(p, cwd)
    case PostTool => ReadReport(p, cwd, m)
    case AfterEdit => EditReport(p, cwd)
    case SessionStart => Reported(Session(false))
    case PreCompact => Reported(Session(true))
    case BeforeSubmit => Reported(Prompt(Or(Get(p, "prompt"), Str("")), Or(Get(p, "generation_id"), Str(""))))
    case Stop => StopReport(p)
    case _ => NoReport
  }

  datatype Translated = ToHook(payload: ClaudePayload) | Early(answer: Answer) | Malformed | Untranslated

  function Translate(e: Event, p: Payload, key: Json, m: Machine): Translated {
    var cwd := CwdOf(p, m);
    match ReportOf(e, p, cwd, m)
    case Reported(what) => ToHook(ClaudePayload(key, cwd, Get(p, "transcript_path"), what))
    case Answered(a) => Early(a)
    case BadReport => Malformed
    case NoReport => Untranslated
  }

  // ---- Claude answer to Cursor answer --------------------------------------------

  const MESSAGE_LIMIT := 20000

  function Decimal(n: nat): string {
    if n < 10 then ["0123456789"[n]] else Decimal(n / 10) + ["0123456789"[n % 10]]
  }

  function Number(i: int): string {
    if i < 0 then "-" + Decimal(-i) else Decimal(i)
  }

  function Clip(text: string): string {
    if |text| <= MESSAGE_LIMIT then text
    else text[..MESSAGE_LIMIT] + "\n... [truncated " + Decimal(|text| - MESSAGE_LIMIT) + " characters]"
  }

  /** str() of a value: a string is itself. */
  function TextOf(j: Json, m: Machine): string {
    if j.Str? then j.s else m.show(j)
  }

  datatype Said = Said(blocked: bool, reason: string, context: string)

  /** What a Claude hook's stdout says. Text that is no JSON object is context. */
  function ParseClaude(stdout: string, m: Machine): Said {
    var text := Strip(stdout);
    if text == "" then Said(false, "", "")
    else match m.loads(text)
      case Some(Obj(d)) =>
        var hso := FieldsOf(Get(d, "hookSpecificOutput"));
        Said(Get(d, "decision") == Str("block") || Get(hso, "permissionDecision") == Str("deny"),
             TextOf(Or(Get(d, "reason"), Or(Get(hso, "permissionDecisionReason"), Str(""))), m),
             TextOf(Or(Get(hso, "additionalContext"), Str("")), m))
      case _ => Said(false, "", text)
  }

  function NonEmpty(s: string): Option<string> {
    if s == "" then None else Some(s)
  }

  function OrElse(s: string, t: string): string {
    if s == "" then t else s
  }

  /** Exit 2: the hook refuses. */
  function Refused(e: Event, script: string, err: string, m: Machine): (Answer, int) {
    var msg := OrElse(Clip(Strip(err)), m.baseName(script) + " refused the action");
    if IsGuard(e) then
      (Deny(msg, if m.baseName(script) == "skill-nudge.sh" then msg + "\n" + m.skillNote else msg), 0)
    else if e == Stop then (Followup(msg), 0)
    else if e == BeforeSubmit then (Continue(false, Some(msg)), 0)
    else (Empty, 2)
  }

  /** Any other non-zero exit: the hook broke. */
  function Broke(e: Event, script: string, rc: int, err: string, m: Machine): (Answer, int) {
    var msg := Clip(Strip(err));
    var detail := m.baseName(script) + " exited " + Number(rc) + if msg == "" then "" else ": " + msg;
    if IsGuard(e) then (FailedClosed(detail), 0) else (Empty, 0)
  }

  /** Exit 0: the hook spoke. */
  function Spoke(e: Event, script: string, said: Said, m: Machine): Answer {
    var reason, context := Clip(said.reason), Clip(said.context);
    match e
    case BeforeShell | PreTool =>
      if said.blocked then DenyWith(OrElse(reason, m.baseName(script) + " refused the action"))
      else Allow(NonEmpty(context))
    case Stop => if said.blocked && OrElse(reason, context) != "" then Followup(OrElse(reason, context)) else Empty
    case BeforeSubmit => if said.blocked then Continue(false, Some(reason)) else Continue(true, None)
    case PreCompact => if context != "" then UserMessage(context + "\n" + m.skillNote) else Empty
    case SessionStart | PostTool => if context != "" then AdditionalContext(context) else Empty
    case _ => Empty
  }

  function AnswerFor(e: Event, script: string, rc: int, out: string, err: string, m: Machine): (Answer, int) {
    if rc == 2 then Refused(e, script, err, m)
    else if rc != 0 then Broke(e, script, rc, err, m)
    else (Spoke(e, script, ParseClaude(out, m), m), 0)
  }
}
