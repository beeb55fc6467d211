/** What one adapter run promises: guards fail closed, the rest fails open, and
    only skill events see the helper links. */
module HookLaws {
  import opened Text
  import opened Json
  import opened Chains
  import opened LinkForest
  import opened FamilyKeys
  import opened HookEvents
  import opened HookWords
  import opened HookAdapter

  // ---- Guards -------------------------------------------------------------------

  /** The script is named, nothing is missing, and nothing raises before the hook runs. */
  predicate IsClear(w: World, args: seq<string>) {
    && |args| >= 2 && w.familyLoads
    && !w.breaks(Reading) && !w.breaks(Keying) && !w.breaks(Translating)
  }

  /** What came in is one JSON object with these fields. */
  ghost predicate IsPayload(w: World, p: Payload) {
    Strip(w.stdin) != "" && w.machine.loads(w.stdin) == Some(Obj(p))
  }

  lemma PayloadIff(w: World, p: Payload)
    ensures PayloadOf(w) == Some(p) <==> IsPayload(w, p)
  {
  }

  /** The hook ran to exit 0, its output could be answered, and it does not block. */
  ghost predicate Passes(w: World, script: string, c: ClaudePayload) {
    && !w.breaks(Running) && !w.breaks(Answering)
    && exists out, err :: w.hook(script, c) == Exited(0, out, err) && !Blocks(out, w.machine)
  }

  /** The hook was told what happened, and passed it. */
  ghost predicate IsApproved(w: World, e: Event, script: string, p: Payload, key: Json) {
    exists c :: IsTold(e, p, key, w.machine, c) && Passes(w, script, c)
  }

  lemma RunAnswerGuard(w: World, e: Event, script: string, c: ClaudePayload)
    requires e == BeforeShell || e == PreTool
    ensures RunAnswer(w, e, script, c).1 == 0
    ensures RunAnswer(w, e, script, c).0.Allow? || RunAnswer(w, e, script, c).0.Deny?
    ensures RunAnswer(w, e, script, c).0.Allow? <==> Passes(w, script, c)
  {
    match w.hook(script, c)
    case RunError =>
    case Exited(rc, out, err) => BlockedIff(out, w.machine);
  }

  lemma GuardTold(w: World, e: Event, script: string, p: Payload, key: Json, c: ClaudePayload)
    requires Translate(e, p, key, w.machine) == ToHook(c)
    ensures IsApproved(w, e, script, p, key) <==> Passes(w, script, c)
    ensures !IsPathless(e, p)
  {
    ToldIff(e, p, key, w.machine, c);
    forall d | IsTold(e, p, key, w.machine, d) ensures d == c { ToldIff(e, p, key, w.machine, d); }
    if IsPathless(e, p) { ToolNotTold(p, CwdOf(p, w.machine)); }
  }

  lemma GuardNotTold(w: World, e: Event, script: string, p: Payload, key: Json)
    requires (e == BeforeShell || e == PreTool) && !Translate(e, p, key, w.machine).ToHook?
    ensures !IsApproved(w, e, script, p, key)
    ensures IsPathless(e, p) <==> Translate(e, p, key, w.machine) == Early(Allow(None))
    ensures Translate(e, p, key, w.machine).Early? && Translate(e, p, key, w.machine).answer != Allow(None) ==>
              Translate(e, p, key, w.machine).answer.Deny?
    ensures !Translate(e, p, key, w.machine).Untranslated?
  {
    forall c ensures !IsTold(e, p, key, w.machine, c) { ToldIff(e, p, key, w.machine, c); }
    ToolNotTold(p, CwdOf(p, w.machine));
  }

  lemma PayloadAnswerGuard(w: World, e: Event, script: string, p: Payload, key: Json)
    requires (e == BeforeShell || e == PreTool) && !w.breaks(Translating)
    ensures var r := PayloadAnswer(w, e, script, p, key);
            && r.1 == 0 && (r.0.Allow? || r.0.Deny?)
            && (r.0.Allow? <==> IsPathless(e, p) || IsApproved(w, e, script, p, key))
  {
    match Translate(e, p, key, w.machine)
    case ToHook(c) =>
      GuardTold(w, e, script, p, key, c);
      RunAnswerGuard(w, e, script, c);
    case _ => GuardNotTold(w, e, script, p, key);
  }

  lemma Decided(w: World, e: Event, args: seq<string>, f: Forest)
    requires (e == BeforeShell || e == PreTool) && IsClear(w, args) && PayloadOf(w).Some?
    ensures var p := PayloadOf(w).value;
            Respond(w, e, args, f) == PayloadAnswer(w, e, args[1], p, KeyFor(e, f, p))
  {
  }

  lemma Undecided(w: World, e: Event, args: seq<string>, f: Forest)
    requires (e == BeforeShell || e == PreTool) && !(IsClear(w, args) && PayloadOf(w).Some?)
    ensures Respond(w, e, args, f).1 == 0 && Respond(w, e, args, f).0.Deny?
  {
  }

  /** Fail closed: over every payload, hook ending, output and raised exception,
      a guard prints an allow or a deny with exit 0, and it allows only when a
      tool named no path, or the hook was told, exited 0 and did not block. */
  lemma GuardAllowsIff(w: World, e: Event, args: seq<string>, f: Forest)
    requires e == BeforeShell || e == PreTool
    ensures var r := Respond(w, e, args, f);
            && r.1 == 0 && (r.0.Allow? || r.0.Deny?)
            && (r.0.Allow? <==>
                && IsClear(w, args)
                && exists p :: IsPayload(w, p) && (IsPathless(e, p) || IsApproved(w, e, args[1], p, KeyFor(e, f, p))))
  {
    forall p ensures PayloadOf(w) == Some(p) <==> IsPayload(w, p) { PayloadIff(w, p); }
    if IsClear(w, args) && PayloadOf(w).Some? {
      var p := PayloadOf(w).value;
      PayloadAnswerGuard(w, e, args[1], p, KeyFor(e, f, p));
      Decided(w, e, args, f);
    } else {
      Undecided(w, e, args, f);
    }
  }

  // ---- What a hook's ending is answered with ----------------------------------------

  /** A refusal's message: what the hook said on stderr, else that it refused. */
  function Why(said: string, script: string, m: Machine): string {
    if said != "" then said else m.baseName(script) + " refused the action"
  }

  /** The hook ran, and its ending could be answered. */
  predicate Ended(w: World, script: string, c: ClaudePayload, rc: int, out: string, err: string) {
    !w.breaks(Running) && !w.breaks(Answering) && w.hook(script, c) == Exited(rc, out, err)
  }

  /** Exit 2 stops what can be stopped: a guard denies, a stop goes on with the
      message, a prompt is held back; elsewhere only the exit code says so. */
  lemma ExitTwoRefuses(w: World, e: Event, script: string, c: ClaudePayload, out: string, err: string)
    requires Ended(w, script, c, 2, out, err)
    ensures var msg := Why(Clip(Strip(err)), script, w.machine);
            RunAnswer(w, e, script, c) ==
            match e
            case BeforeShell | PreTool =>
              var more := if w.machine.baseName(script) == "skill-nudge.sh" then "\n" + w.machine.skillNote else "";
              (Deny(msg, msg + more), 0)
            case Stop => (Followup(msg), 0)
            case BeforeSubmit => (Continue(false, Some(msg)), 0)
            case _ => (Empty, 2)
  {
    var msg := Why(Clip(Strip(err)), script, w.machine);
    assert msg + "" == msg;
    assert msg + ("\n" + w.machine.skillNote) == msg + "\n" + w.machine.skillNote;
  }

  /** Any other exit but 0 is a broken hook: guards fail closed and say so, the rest goes on. */
  lemma OtherExitBreaks(w: World, e: Event, script: string, c: ClaudePayload, rc: int, out: string, err: string)
    requires Ended(w, script, c, rc, out, err) && rc != 0 && rc != 2
    ensures e != BeforeShell && e != PreTool ==> RunAnswer(w, e, script, c) == (Empty, 0)
    ensures e == BeforeShell || e == PreTool ==>
              var detail := w.machine.baseName(script) + " exited " + Number(rc)
                            + if Clip(Strip(err)) == "" then "" else ": " + Clip(Strip(err));
              var text := "Eshu Cursor hook failed closed: " + detail;
              RunAnswer(w, e, script, c) == (Deny(text, text), 0)
  {
  }

  /** Exit 0 with an output that blocks: a guard denies with the reason, a stop goes
      on with the reason or else the context, a prompt is held back with the reason. */
  lemma BlockingStops(w: World, e: Event, script: string, c: ClaudePayload, out: string, err: string)
    requires Ended(w, script, c, 0, out, err) && Blocks(out, w.machine)
    ensures var reason, context := Clip(ParseClaude(out, w.machine).reason), Clip(ParseClaude(out, w.machine).context);
            RunAnswer(w, e, script, c).1 == 0 &&
            match e
            case BeforeShell | PreTool =>
              var msg := Why(reason, script, w.machine);
              RunAnswer(w, e, script, c).0 == Deny(msg, msg)
            case Stop =>
              var message := if reason != "" then reason else context;
              RunAnswer(w, e, script, c).0 == if message == "" then Empty else Followup(message)
            case BeforeSubmit => RunAnswer(w, e, script, c).0 == Continue(false, Some(reason))
            case _ => true
  {
    BlockedIff(out, w.machine);
  }

  /** Exit 0 with any other output: a guard allows and passes the context on, a stop
      and a prompt go on. */
  lemma SpeakingLetsOn(w: World, e: Event, script: string, c: ClaudePayload, out: string, err: string)
    requires Ended(w, script, c, 0, out, err) && !Blocks(out, w.machine)
    ensures var context := Clip(ParseClaude(out, w.machine).context);
            RunAnswer(w, e, script, c).1 == 0 &&
            match e
            case BeforeShell | PreTool =>
              RunAnswer(w, e, script, c).0 == Allow(if context == "" then None else Some(context))
            case Stop => RunAnswer(w, e, script, c).0 == Empty
            case BeforeSubmit => RunAnswer(w, e, script, c).0 == Continue(true, None)
            case _ => true
  {
    BlockedIff(out, w.machine);
  }

  /** Exit 0 on the events that only listen: the context goes to the agent, or to the
      user before compaction, whatever else the output says. */
  lemma ContextIsPassedOn(w: World, e: Event, script: string, c: ClaudePayload, out: string, err: string)
    requires Ended(w, script, c, 0, out, err) && e in {SessionStart, PostTool, PreCompact, AfterEdit}
    ensures var context := Clip(ParseClaude(out, w.machine).context);
            RunAnswer(w, e, script, c) ==
            (if context == "" || e == AfterEdit then Empty
             else if e == PreCompact then UserMessage(context + "\n" + w.machine.skillNote)
             else AdditionalContext(context), 0)
  {
  }

  /** A run that goes wrong: guards and unknown events deny and say so. */
  lemma FailureIs(e: Event, msg: string)
    ensures var text := "Eshu Cursor hook failed closed: " + msg;
            FailAnswer(e, msg) ==
            if e == SubagentStart then Allow(None)
            else if e == BeforeSubmit then Continue(true, None)
            else if e in {PostTool, AfterEdit, SessionStart, PreCompact, Stop} then Empty
            else Deny(text, text)
  {
  }

  // ---- Everything else fails open --------------------------------------------------

  /** An answer that stops nothing. */
  predicate Harmless(a: Answer) {
    a == Empty || a == Allow(None) || a == Continue(true, None)
  }

  /** A hook ran and either spoke (exit 0) or refused (exit 2), and was heard. */
  predicate Heard(w: World, script: string, c: ClaudePayload) {
    && !w.breaks(Running) && !w.breaks(Answering)
    && match w.hook(script, c)
       case RunError => false
       case Exited(rc, _, _) => rc == 0 || rc == 2
  }

  ghost predicate HookIsHeard(w: World, e: Event, script: string, p: Payload, key: Json) {
    exists c :: IsTold(e, p, key, w.machine, c) && Heard(w, script, c)
  }

  lemma HeardOrHarmless(w: World, e: Event, script: string, c: ClaudePayload)
    requires IsAdvisory(e)
    ensures !RunAnswer(w, e, script, c).0.Deny?
    ensures Heard(w, script, c) || (Harmless(RunAnswer(w, e, script, c).0) && RunAnswer(w, e, script, c).1 == 0)
  {
  }

  lemma PayloadAnswerOpen(w: World, e: Event, script: string, p: Payload, key: Json)
    requires IsAdvisory(e)
    ensures var r := PayloadAnswer(w, e, script, p, key);
            && !r.0.Deny?
            && ((!w.breaks(Translating) && HookIsHeard(w, e, script, p, key)) || (Harmless(r.0) && r.1 == 0))
  {
    if !w.breaks(Translating) {
      match Translate(e, p, key, w.machine)
      case ToHook(c) =>
        ToldIff(e, p, key, w.machine, c);
        HeardOrHarmless(w, e, script, c);
      case _ =>
    }
  }

  lemma RespondOpen(w: World, e: Event, args: seq<string>, f: Forest)
    requires IsAdvisory(e) && |args| >= 2
    ensures var r := Respond(w, e, args, f);
            || (Harmless(r.0) && r.1 == 0)
            || (w.familyLoads && PayloadOf(w).Some?
                && r == PayloadAnswer(w, e, args[1], PayloadOf(w).value, KeyFor(e, f, PayloadOf(w).value)))
  {
  }

  /** Fail open: an advisory event denies nothing and stops nothing unless a
      hook exited 0 or 2 - except that a call without a hook script is denied
      whatever the event, because the usage error is answered as no event. */
  lemma AdvisoryFailsOpen(w: World, e: Event, args: seq<string>, f: Forest)
    requires IsAdvisory(e)
    ensures var r := Respond(w, e, args, f);
            && (r.0.Deny? <==> |args| < 2)
            && (|args| >= 2 ==>
                || (Harmless(r.0) && r.1 == 0)
                || (PayloadOf(w).Some?
                    && HookIsHeard(w, e, args[1], PayloadOf(w).value, KeyFor(e, f, PayloadOf(w).value))))
  {
    if |args| >= 2 {
      RespondOpen(w, e, args, f);
      if PayloadOf(w).Some? {
        var p := PayloadOf(w).value;
        PayloadAnswerOpen(w, e, args[1], p, KeyFor(e, f, p));
      }
    }
  }

  /** A helper's start is never blocked, whatever its payload, arguments or luck. */
  lemma StartAlwaysAllowed(w: World, args: seq<string>, f: Forest)
    ensures Respond(w, SubagentStart, args, f) == (Allow(None), 0)
  {
  }

  // ---- Sessions of runs over one store -------------------------------------------

  /** One process of the adapter: what it met, and how its link writes died. */
  datatype Turn = Turn(world: World, event: Event, faults: seq<Fault>)

  predicate WellFormed(ts: seq<Turn>) {
    forall i :: 0 <= i < |ts| ==> |ts[i].faults| == 3
  }

  /** No process died between replacing a link and marking the root. */
  predicate Undisturbed(ts: seq<Turn>) {
    forall i :: 0 <= i < |ts| ==> MarkFails !in ts[i].faults
  }

  ghost function Session(f: Forest, ts: seq<Turn>): Forest
    requires WellFormed(ts)
    decreases |ts|
  {
    if ts == [] then f
    else Session(StoreAfter(ts[0].world, ts[0].event, f, ts[0].faults), ts[1..])
  }

  /** Whatever arrives, the store stays a forest; and undisturbed, its roots stay marked. */
  lemma {:induction false} SessionKeepsForest(f: Forest, ts: seq<Turn>)
    requires WellFormed(ts) && Acyclic(f.links)
    ensures Acyclic(Session(f, ts).links)
    ensures RootsMarked(f) && Undisturbed(ts) ==> RootsMarked(Session(f, ts))
    decreases |ts|
  {
    if ts != [] {
      var t := ts[0];
      var f' := StoreAfter(t.world, t.event, f, t.faults);
      if Recorded(t.world, t.event).Some? {
        var ws := StartWrites(Recorded(t.world, t.event).value, t.faults);
        RunKeepsForest(f, ws);
        if RootsMarked(f) && Undisturbed(ts) { RunKeepsMarks(f, ws); }
      }
      assert WellFormed(ts[1..]) && (Undisturbed(ts) ==> Undisturbed(ts[1..]));
      SessionKeepsForest(f', ts[1..]);
    }
  }

  lemma SessionIsKey(e: Event, p: Payload, key: Json, m: Machine)
    ensures Translate(e, p, key, m).ToHook? ==> Translate(e, p, key, m).payload.session == key
  {
  }

  /** What the hook is told the session is, when it is asked at all. */
  predicate HookGets(w: World, e: Event, p: Payload, f: Forest, session: Json) {
    match Translate(e, p, KeyFor(e, f, p), w.machine)
    case ToHook(c) => c.session == session
    case _ => true
  }

  /** Any undisturbed history from an empty store, then one start under a parent
      with at most 15 links: from then on every skill event that carries ids the
      start named reaches its hook under the parent's root, and every other
      event reaches it under its own chat, as before the start. */
  lemma HelperAndParentShareSkills(ts: seq<Turn>, start: Turn, sp: Payload, w: World, e: Event, p: Payload)
    requires WellFormed(ts) && Undisturbed(ts)
    requires start.event == SubagentStart && start.faults == NO_FAULTS
    requires Recorded(start.world, SubagentStart) == Some(sp)
    requires CanLink(Session(EMPTY, ts), sp)
    requires exists c :: NamedByStart(sp, c) && c != Get(sp, "parent_conversation_id").s
    requires Candidates(p) != [] && forall c :: c in Candidates(p) ==> NamedByStart(sp, c)
    ensures var before := Session(EMPTY, ts);
            var after := StoreAfter(start.world, start.event, before, start.faults);
            var root := Root(before.links, Get(sp, "parent_conversation_id").s);
            && (e == PreTool || e == PostTool ==> HookGets(w, e, p, after, Str(root)))
            && (e != PreTool && e != PostTool ==>
                  HookGets(w, e, p, after, ChatKey(p)) && HookGets(w, e, p, before, ChatKey(p)))
  {
    var before := Session(EMPTY, ts);
    var after := StoreAfter(start.world, start.event, before, start.faults);
    assert Acyclic(EMPTY.links);
    SessionKeepsForest(EMPTY, ts);
    if IsSkillEvent(e) { StartedFamilySharesKey(before, sp, p); }
    SessionIsKey(e, p, KeyFor(e, after, p), w.machine);
    SessionIsKey(e, p, KeyFor(e, before, p), w.machine);
  }
}
