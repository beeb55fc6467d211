/** The adapter run: one event in, exactly one answer out. */
module HookAdapter {
  import opened Text
  import opened Json
  import LinkForest
  import FamilyKeys
  import LinkStore
  import opened HookEvents

  /** How a started hook ended; RunError is an OSError or ValueError. */
  datatype HookResult = Exited(rc: int, out: string, err: string) | RunError

  /** Where main may meet an exception it does not handle itself. */
  datatype Stage = Reading | Keying | Translating | Running | Answering

  /** Everything a run depends on besides the link store. */
  datatype World = World(
    machine: Machine,
    familyLoads: bool,
    stdin: string,
    hook: (string, ClaudePayload) -> HookResult,
    breaks: Stage -> bool)

  /** The session key: the family's for a skill event, else the chat's own. */
  function KeyFor(e: Event, f: LinkForest.Forest, p: Payload): Json {
    if IsSkillEvent(e) then FamilyKeys.FamilyKey(f, p) else FamilyKeys.ChatKey(p)
  }

  /** The payload, when stdin holds a JSON object. */
  function PayloadOf(w: World): Option<Payload> {
    if Strip(w.stdin) == "" then None
    else match w.machine.loads(w.stdin)
      case Some(Obj(fields)) => Some(fields)
      case _ => None
  }

  // ---- What a run answers ----------------------------------------------------

  function RunAnswer(w: World, e: Event, script: string, c: ClaudePayload): (Answer, int) {
    if w.breaks(Running) then (FailAnswer(e, "adapter error"), 0)
    else match w.hook(script, c)
      case RunError => (FailAnswer(e, "hook did not run"), 0)
      case Exited(rc, out, err) =>
        if w.breaks(Answering) then (FailAnswer(e, "adapter error"), 0)
        else AnswerFor(e, script, rc, out, err, w.machine)
  }

  function PayloadAnswer(w: World, e: Event, script: string, p: Payload, key: Json): (Answer, int) {
    if w.breaks(Translating) then (FailAnswer(e, "adapter error"), 0)
    else match Translate(e, p, key, w.machine)
      case Malformed => (FailAnswer(e, "malformed payload"), 0)
      case Untranslated => (FailAnswer(e, "no translation"), 0)
      case Early(a) => (a, 0)
      case ToHook(c) => RunAnswer(w, e, script, c)
  }

  /** The answer once the payload is read. */
  function ReadAnswer(w: World, e: Event, args: seq<string>, p: Payload, f: LinkForest.Forest): (Answer, int)
    requires |args| >= 2 || e == SubagentStart
  {
    if w.breaks(Keying) then (FailAnswer(e, "adapter error"), 0)
    else if e == SubagentStart then (Allow(None), 0)
    else PayloadAnswer(w, e, args[1], p, KeyFor(e, f, p))
  }

  function Respond(w: World, e: Event, args: seq<string>, f: LinkForest.Forest): (Answer, int) {
    if |args| < 2 && e != SubagentStart then (FailAnswer(OtherEvent, "usage"), 0)
    else if e == OtherEvent then (FailAnswer(e, "unknown Cursor event"), 0)
    else if !w.familyLoads then (FailAnswer(e, "cannot import cursor_hook_family"), 0)
    else if w.breaks(Reading) then (FailAnswer(e, "adapter error"), 0)
    else match PayloadOf(w)
      case None => (FailAnswer(e, "unreadable payload"), 0)
      case Some(p) => ReadAnswer(w, e, args, p, f)
  }

  /** The start payload a run gets as far as recording. */
  function Recorded(w: World, e: Event): Option<Payload> {
    if e == SubagentStart && w.familyLoads && !w.breaks(Reading) && !w.breaks(Keying) then PayloadOf(w) else None
  }

  /** The link store once the run is over. */
  ghost function StoreAfter(w: World, e: Event, f: LinkForest.Forest, faults: seq<LinkForest.Fault>): LinkForest.Forest
    requires |faults| == 3
  {
    match Recorded(w, e)
    case None => f
    case Some(p) => LinkForest.Run(f, FamilyKeys.StartWrites(p, faults))
  }

  // ---- The run itself ------------------------------------------------------------

  class Process {
    const world: World
    const store: LinkStore.Store
    var printed: seq<Answer>
    var exitCode: Option<int>

    constructor (world: World, store: LinkStore.Store)
      ensures this.world == world && this.store == store && printed == [] && exitCode == None
    {
      this.world, this.store, printed, exitCode := world, store, [], None;
    }

    /** Print one object and exit; nothing may run after it. */
    method Emit(a: Answer, code: int)
      requires exitCode == None
      modifies this`printed, this`exitCode
      ensures printed == old(printed) + [a] && exitCode == Some(code)
    {
      printed, exitCode := printed + [a], Some(code);
    }

    method Fail(e: Event, msg: string)
      requires exitCode == None
      modifies this`printed, this`exitCode
      ensures printed == old(printed) + [FailAnswer(e, msg)] && exitCode == Some(0)
    {
      if e == SubagentStart {
        Emit(Allow(None), 0);
        return;
      }
      if e == BeforeSubmit {
        Emit(Continue(true, None), 0);
        return;
      }
      if IsAdvisory(e) {
        Emit(Empty, 0);
        return;
      }
      Emit(FailedClosed(msg), 0);
    }

    /** The part of main after the hook has been given its payload. */
    method RunHook(e: Event, script: string, c: ClaudePayload) returns (raised: bool)
      requires exitCode == None && printed == []
      modifies this`printed, this`exitCode
      ensures raised ==> exitCode == None && printed == []
      ensures raised ==> RunAnswer(world, e, script, c) == (FailAnswer(e, "adapter error"), 0)
      ensures !raised ==> exitCode == Some(RunAnswer(world, e, script, c).1)
      ensures !raised ==> printed == [RunAnswer(world, e, script, c).0]
    {
      if world.breaks(Running) { return true; }
      match world.hook(script, c) {
        case RunError =>
          Fail(e, "hook did not run");
        case Exited(rc, out, err) =>
          if world.breaks(Answering) { return true; }
          var a := AnswerFor(e, script, rc, out, err, world.machine);
          Emit(a.0, a.1);
      }
      return false;
    }

    method TranslateAndRun(e: Event, script: string, p: Payload, key: Json) returns (raised: bool)
      requires exitCode == None && printed == []
      modifies this`printed, this`exitCode
      ensures raised ==> exitCode == None && printed == []
      ensures raised ==> PayloadAnswer(world, e, script, p, key) == (FailAnswer(e, "adapter error"), 0)
      ensures !raised ==> exitCode == Some(PayloadAnswer(world, e, script, p, key).1)
                          && printed == [PayloadAnswer(world, e, script, p, key).0]
    {
      if world.breaks(Translating) { return true; }
      match Translate(e, p, key, world.machine) {
        case Malformed => Fail(e, "malformed payload");
        case Untranslated => Fail(e, "no translation");
        case Early(a) => Emit(a, 0);
        case ToHook(c) =>
          raised := RunHook(e, script, c);
          return;
      }
      return false;
    }

    /** main from the key on: a start records its links, any other event is translated. */
    method Handle(e: Event, args: seq<string>, p: Payload, faults: seq<LinkForest.Fault>) returns (raised: bool)
      requires exitCode == None && printed == [] && |faults| == 3 && (|args| >= 2 || e == SubagentStart)
      modifies this`printed, this`exitCode, store
      ensures raised ==> exitCode == None && printed == []
      ensures raised ==> ReadAnswer(world, e, args, p, old(store.View())) == (FailAnswer(e, "adapter error"), 0)
      ensures !raised ==> exitCode == Some(ReadAnswer(world, e, args, p, old(store.View())).1)
                          && printed == [ReadAnswer(world, e, args, p, old(store.View())).0]
      ensures store.View() == if e == SubagentStart && !world.breaks(Keying)
                              then LinkForest.Run(old(store.View()), FamilyKeys.StartWrites(p, faults))
                              else old(store.View())
    {
      if world.breaks(Keying) { return true; }
      var key;
      if IsSkillEvent(e) { key := store.FamilyKeyOf(p); } else { key := FamilyKeys.ChatKey(p); }
      if e == SubagentStart {
        store.RecordLinks(p, faults);
        Emit(Allow(None), 0);
        return false;
      }
      raised := TranslateAndRun(e, args[1], p, key);
    }

    /** main; `raised` is an exception leaving it. */
    method Dispatch(e: Event, args: seq<string>, faults: seq<LinkForest.Fault>) returns (raised: bool)
      requires exitCode == None && printed == [] && |faults| == 3
      modifies this`printed, this`exitCode, store
      ensures raised ==> exitCode == None && printed == []
      ensures raised ==> Respond(world, e, args, old(store.View())) == (FailAnswer(e, "adapter error"), 0)
      ensures !raised ==> exitCode == Some(Respond(world, e, args, old(store.View())).1)
                          && printed == [Respond(world, e, args, old(store.View())).0]
      ensures store.View() == StoreAfter(world, e, old(store.View()), faults)
    {
      if |args| < 2 && e != SubagentStart {
        Fail(OtherEvent, "usage");
        return false;
      }
      if e == OtherEvent {
        Fail(e, "unknown Cursor event");
        return false;
      }
      if !world.familyLoads {
        Fail(e, "cannot import cursor_hook_family");
        return false;
      }
      if world.breaks(Reading) { return true; }
      var payload := PayloadOf(world);
      if payload.None? {
        Fail(e, "unreadable payload");
        return false;
      }
      raised := Handle(e, args, payload.value, faults);
    }

    /** The script: main, and the last-resort handler around it. One answer, once. */
    method Go(args: seq<string>, faults: seq<LinkForest.Fault>)
      requires exitCode == None && printed == [] && |faults| == 3
      modifies this`printed, this`exitCode, store
      ensures var e := EventOf(if args == [] then "" else args[0]);
              var r := Respond(world, e, args, old(store.View()));
              && printed == [r.0] && exitCode == Some(r.1)
              && store.View() == StoreAfter(world, e, old(store.View()), faults)
    {
      var e := EventOf(if args == [] then "" else args[0]);
      var raised := Dispatch(e, args, faults);
      if raised { Fail(e, "adapter error"); }
    }
  }
}
