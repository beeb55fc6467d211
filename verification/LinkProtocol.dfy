/** write_link as several processes run it: a window opens with the first read
    of the parent's chain, reads one link file per event, closes with the
    replace, and leaves a root marker to be created later. Events of different
    processes interleave freely. */
module LinkProtocol {
  import opened Lists
  import opened Chains
  import opened Runs
  import opened LinkForest

  datatype Window = Window(child: Id, parent: Id, ids: seq<Id>, cleared: bool)

  /** `pending` holds the roots whose marker a finished replace still owes. */
  datatype Proto = Proto(forest: Forest, windows: seq<Window>, pending: multiset<Id>)

  datatype Event =
    | Begin(child: Id, parent: Id)
    | ReadParent(i: nat)
    | Replace(i: nat)
    | Abort(i: nat)
    | Mark(root: Id)
    | LoseMark(root: Id)

  const START := Proto(EMPTY, [], multiset{})

  function Close(ws: seq<Window>, i: nat): seq<Window>
    requires i < |ws|
  {
    ws[..i] + ws[i + 1..]
  }

  /** One read of the parent's chain; at its end the guard lets the window through or closes it. */
  function ReadStep(s: Proto, i: nat): Proto
    requires i < |s.windows| && !s.windows[i].cleared && s.windows[i].ids != []
  {
    var w, m := s.windows[i], s.forest.links;
    var last := w.ids[|w.ids| - 1];
    if last !in m then
      if |w.ids| <= MAX_LINK_DEPTH && w.child !in w.ids then s.(windows := s.windows[i := w.(cleared := true)])
      else s.(windows := Close(s.windows, i))
    else if m[last] in w.ids || |w.ids| > MAX_LINK_DEPTH then s.(windows := Close(s.windows, i))
    else s.(windows := s.windows[i := w.(ids := w.ids + [m[last]])])
  }

  /** An event that does not apply changes nothing. */
  function Step(s: Proto, e: Event): Proto {
    match e
    case Begin(child, parent) => s.(windows := s.windows + [Window(child, parent, [parent], false)])
    case ReadParent(i) =>
      if i < |s.windows| && !s.windows[i].cleared && s.windows[i].ids != [] then ReadStep(s, i) else s
    case Replace(i) =>
      if i < |s.windows| && s.windows[i].cleared && s.windows[i].ids != [] then
        var w := s.windows[i];
        Proto(s.forest.(links := s.forest.links[w.child := w.parent]), Close(s.windows, i),
              s.pending + multiset{w.ids[|w.ids| - 1]})
      else s
    case Abort(i) => if i < |s.windows| then s.(windows := Close(s.windows, i)) else s
    case Mark(root) =>
      if root in s.pending
      then s.(forest := s.forest.(marks := s.forest.marks + {root}), pending := s.pending - multiset{root})
      else s
    case LoseMark(root) => s.(pending := s.pending - multiset{root})
  }

  /** `e` is a replace that takes effect. */
  predicate Replaces(s: Proto, e: Event) {
    e.Replace? && e.i < |s.windows| && s.windows[e.i].cleared && s.windows[e.i].ids != []
  }

  // ---- Any interleaving: when the links stay a forest ---------------------------

  /** A replace that takes effect finds the parent's chain, as it stands then, clear of the child. */
  ghost predicate SafeStep(s: Proto, e: Event) {
    Replaces(s, e) ==> !PassesThrough(s.forest.links, s.windows[e.i].parent, s.windows[e.i].child)
  }

  ghost predicate IsForest(s: Proto) {
    Acyclic(s.forest.links)
  }

  /** One event, windows overlapping or not: the links stay acyclic iff it is no
      replace under a chain that by now passes through the child. */
  lemma StepKeepsForestIff(s: Proto, e: Event)
    requires Acyclic(s.forest.links)
    ensures Acyclic(Step(s, e).forest.links) <==> SafeStep(s, e)
  {
    if Replaces(s, e) {
      LinkKeepsForestIff(s.forest.links, s.windows[e.i].child, s.windows[e.i].parent);
    }
  }

  /** Whole runs, windows overlapping freely: every state is a forest iff every
      replace was safe when it took effect. */
  lemma AlwaysForestIff(s: Proto, es: seq<Event>)
    requires Acyclic(s.forest.links)
    ensures Always(Step, IsForest, s, es) <==> Admitted(Step, SafeStep, s, es)
  {
    forall x, e | IsForest(x) ensures IsForest(Step(x, e)) <==> SafeStep(x, e) { StepKeepsForestIff(x, e); }
    AlwaysIff(Step, IsForest, SafeStep, s, es);
  }

  // ---- Any interleaving: when no marker is missing unowed ------------------------

  /** A marker exists or is still to be created. */
  predicate Covered(s: Proto, root: Id) {
    root in s.forest.marks || root in s.pending
  }

  /** Every linked id's root has its marker or a marker on the way. */
  ghost predicate MarkedOrPending(s: Proto) {
    forall c :: c in s.forest.links ==> Covered(s, Root(s.forest.links, c))
  }

  /** A window starts at its parent, and has read past it only if the parent is linked. */
  predicate Anchored(m: map<Id, Id>, w: Window) {
    w.ids != [] && w.ids[0] == w.parent && (|w.ids| > 1 ==> w.parent in m)
  }

  predicate AllAnchored(s: Proto) {
    forall i :: 0 <= i < |s.windows| ==> Anchored(s.forest.links, s.windows[i])
  }

  lemma StepKeepsAnchored(s: Proto, e: Event)
    requires AllAnchored(s)
    ensures AllAnchored(Step(s, e))
  {
  }

  /** However stale the window's reads are, the replace marks or owes the root it moves ids to. */
  lemma ReplaceCoversRoots(s: Proto, e: Event, c: Id)
    requires Acyclic(s.forest.links) && AllAnchored(s) && MarkedOrPending(s) && Replaces(s, e) && SafeStep(s, e)
    requires c in Step(s, e).forest.links
    ensures Covered(Step(s, e), Root(Step(s, e).forest.links, c))
  {
    var m, w := s.forest.links, s.windows[e.i];
    AcyclicEnds(m, w.parent);
    AcyclicEnds(m, c);
    RootsAfterLink(m, w.child, w.parent, c);
    assert Anchored(m, w);
    if PassesThrough(m, c, w.child) {
      if w.parent !in m { assert Root(m, w.parent) == w.parent == w.ids[|w.ids| - 1]; }
    } else {
      assert Climb(m, w.child, 0) == w.child;
    }
  }

  lemma OtherStepsKeepCover(s: Proto, e: Event, root: Id)
    requires !Replaces(s, e) && !e.LoseMark? && Covered(s, root)
    ensures Step(s, e).forest.links == s.forest.links && Covered(Step(s, e), root)
  {
  }

  lemma StepOwesMarks(s: Proto, e: Event)
    requires Acyclic(s.forest.links) && AllAnchored(s) && MarkedOrPending(s) && SafeStep(s, e) && !e.LoseMark?
    ensures MarkedOrPending(Step(s, e))
  {
    var s' := Step(s, e);
    if Replaces(s, e) {
      forall c | c in s'.forest.links ensures Covered(s', Root(s'.forest.links, c)) { ReplaceCoversRoots(s, e, c); }
    } else {
      forall c | c in s'.forest.links ensures Covered(s', Root(s'.forest.links, c)) {
        OtherStepsKeepCover(s, e, Root(s.forest.links, c));
      }
    }
  }

  /** What a run without lost markers keeps. */
  ghost predicate Owing(s: Proto) {
    Acyclic(s.forest.links) && AllAnchored(s) && MarkedOrPending(s)
  }

  ghost predicate OwingStep(s: Proto, e: Event) {
    SafeStep(s, e) && !e.LoseMark?
  }

  lemma StepKeepsOwing(s: Proto, e: Event)
    requires Owing(s) && OwingStep(s, e)
    ensures Owing(Step(s, e))
  {
    StepKeepsForestIff(s, e);
    StepKeepsAnchored(s, e);
    StepOwesMarks(s, e);
  }

  /** With markers delayed but not lost, none is ever missing without being owed,
      on every run whose states stay forests, windows overlapping freely. */
  lemma AnyRunOwesMarks(s: Proto, es: seq<Event>)
    requires Owing(s) && Admitted(Step, SafeStep, s, es)
    requires forall i :: 0 <= i < |es| ==> !es[i].LoseMark?
    ensures Always(Step, MarkedOrPending, s, es)
  {
    forall x, e | Owing(x) && OwingStep(x, e) ensures Owing(Step(x, e)) { StepKeepsOwing(x, e); }
    forall n | 0 <= n < |es| ensures OwingStep(After(Step, s, es, n), es[n]) {}
    Invariant(Step, Owing, OwingStep, s, es);
    forall n | 0 <= n <= |es| ensures MarkedOrPending(After(Step, s, es, n)) {
      assert Owing(After(Step, s, es, n));
    }
  }

  // ---- Windows that do not overlap -------------------------------------------------

  /** No window opens while another is open. */
  predicate OpensAlone(s: Proto, e: Event) {
    e.Begin? ==> s.windows == []
  }

  /** A window's reads are still true of the store, and a cleared one may be written. */
  ghost predicate Current(m: map<Id, Id>, w: Window) {
    && 0 < |w.ids| <= 17 && w.ids == Prefix(m, w.parent, |w.ids|) && NoRepeats(w.ids)
    && (w.cleared ==> Accepts(m, w.child, w.parent) && w.ids[|w.ids| - 1] == Root(m, w.parent))
  }

  ghost predicate OneCurrentWindow(s: Proto) {
    |s.windows| <= 1 && forall w :: w in s.windows ==> Current(s.forest.links, w)
  }

  /** A walk that ends within the bound and has not met the child is the guard's consent. */
  lemma EndedWalkIsAccepted(m: map<Id, Id>, w: Window)
    requires Current(m, w) && w.ids[|w.ids| - 1] !in m && |w.ids| <= 16 && w.child !in w.ids
    ensures Accepts(m, w.child, w.parent) && w.ids[|w.ids| - 1] == Root(m, w.parent)
  {
    var k := |w.ids| - 1;
    assert EndsWithin(m, w.parent, k);
    EndStays(m, w.parent, k, 15);
    EndsAtRoot(m, w.parent);
    WalkSawAll(m, w.parent, 16, w.ids, Clean);
  }

  lemma LongerWalkIsCurrent(m: map<Id, Id>, w: Window)
    requires Current(m, w) && !w.cleared && w.ids[|w.ids| - 1] in m
    requires m[w.ids[|w.ids| - 1]] !in w.ids && |w.ids| <= 16
    ensures Current(m, w.(ids := w.ids + [m[w.ids[|w.ids| - 1]]]))
  {
    ClimbOne(m, w.parent, |w.ids| - 1);
  }

  lemma ReadKeepsCurrent(s: Proto)
    requires |s.windows| == 1 && Current(s.forest.links, s.windows[0]) && !s.windows[0].cleared
    ensures OneCurrentWindow(ReadStep(s, 0))
  {
    var w, m := s.windows[0], s.forest.links;
    var last := w.ids[|w.ids| - 1];
    if last !in m {
      if |w.ids| <= 16 && w.child !in w.ids { EndedWalkIsAccepted(m, w); }
    } else if m[last] !in w.ids && |w.ids| <= 16 {
      LongerWalkIsCurrent(m, w);
    }
  }

  lemma StepKeepsCurrent(s: Proto, e: Event)
    requires OneCurrentWindow(s) && OpensAlone(s, e)
    ensures OneCurrentWindow(Step(s, e))
  {
    if e.ReadParent? && e.i < |s.windows| && !s.windows[e.i].cleared {
      assert s.windows[0] in s.windows;
      ReadKeepsCurrent(s);
    }
  }

  /** A replace that takes effect on a current window is one accepted call. */
  lemma CurrentReplace(s: Proto, e: Event)
    requires OneCurrentWindow(s) && Replaces(s, e)
    ensures Accepts(s.forest.links, s.windows[e.i].child, s.windows[e.i].parent) && SafeStep(s, e)
  {
    assert s.windows[e.i] in s.windows;
  }

  lemma ExclusiveIsSafe(s: Proto, es: seq<Event>)
    requires OneCurrentWindow(s) && Admitted(Step, OpensAlone, s, es)
    ensures Admitted(Step, SafeStep, s, es)
  {
    forall x, e | OneCurrentWindow(x) && OpensAlone(x, e)
      ensures OneCurrentWindow(Step(x, e))
    {
      StepKeepsCurrent(x, e);
    }
    Invariant(Step, OneCurrentWindow, OpensAlone, s, es);
    forall n | 0 <= n < |es| ensures SafeStep(After(Step, s, es, n), es[n]) {
      assert OneCurrentWindow(After(Step, s, es, n));
      if Replaces(After(Step, s, es, n), es[n]) { CurrentReplace(After(Step, s, es, n), es[n]); }
    }
  }

  /** No run without overlap, from a forest, makes a loop. */
  lemma ExclusiveRunKeepsForest(s: Proto, es: seq<Event>)
    requires Acyclic(s.forest.links) && OneCurrentWindow(s) && Admitted(Step, OpensAlone, s, es)
    ensures Always(Step, IsForest, s, es)
  {
    ExclusiveIsSafe(s, es);
    AlwaysForestIff(s, es);
  }

  /** The call whose replace takes effect, if one does. */
  function AppliedBy(s: Proto, e: Event): seq<Write> {
    if Replaces(s, e) then [Write(s.windows[e.i].child, s.windows[e.i].parent, NoFault)] else []
  }

  /** One event leaves the links that its whole call, if it is a replace, leaves on any forest with the same links. */
  lemma StepIsWrite(s: Proto, e: Event, f: Forest)
    requires OneCurrentWindow(s) && f.links == s.forest.links
    ensures Step(s, e).forest.links == Run(f, AppliedBy(s, e)).links
  {
    if Replaces(s, e) {
      CurrentReplace(s, e);
      var w := Write(s.windows[e.i].child, s.windows[e.i].parent, NoFault);
      assert [w][1..] == [];
      assert Run(f, [w]) == Run(WriteStep(f, w), []) == WriteStep(f, w);
    }
  }

  /** The links are those of whole calls `ws` on `f`. */
  ghost predicate IsWrites(f: Forest, s: Proto, ws: seq<Write>) {
    OneCurrentWindow(s) && s.forest.links == Run(f, ws).links
  }

  lemma StepAddsWrite(f: Forest, s: Proto, ws: seq<Write>, e: Event)
    requires IsWrites(f, s, ws) && OpensAlone(s, e)
    ensures IsWrites(f, Step(s, e), ws + AppliedBy(s, e))
  {
    StepKeepsCurrent(s, e);
    StepIsWrite(s, e, Run(f, ws));
    RunSplits(f, ws, AppliedBy(s, e));
  }

  /** Linearizable: as long as no two windows overlap, however else the events
      interleave and wherever processes die, the links are those of whole
      write_link calls, one for each replace that took effect, in that order. */
  lemma ExclusiveRunIsWrites(s: Proto, es: seq<Event>, n: nat)
    requires OneCurrentWindow(s) && Admitted(Step, OpensAlone, s, es) && n <= |es|
    ensures After(Step, s, es, n).forest.links == Run(s.forest, Log(Step, AppliedBy, s, es, n)).links
  {
    var f := s.forest;
    var inv := (x: Proto, ws: seq<Write>) => IsWrites(f, x, ws);
    forall x, ws, e | inv(x, ws) && OpensAlone(x, e) ensures inv(Step(x, e), ws + AppliedBy(x, e)) {
      StepAddsWrite(f, x, ws, e);
    }
    LogInvariant(Step, AppliedBy, inv, OpensAlone, s, es, n);
    assert inv(After(Step, s, es, n), Log(Step, AppliedBy, s, es, n));
  }

  lemma CurrentIsAnchored(s: Proto)
    requires OneCurrentWindow(s)
    ensures AllAnchored(s)
  {
    forall i | 0 <= i < |s.windows| ensures Anchored(s.forest.links, s.windows[i]) {
      var m, w := s.forest.links, s.windows[i];
      assert w in s.windows && Current(m, w);
      assert w.ids[0] == Climb(m, w.parent, 0);
      if |w.ids| > 1 { assert w.ids[1] == Climb(m, w.parent, 1) != w.ids[0]; }
    }
  }

  lemma ExclusiveRunOwesMarks(s: Proto, es: seq<Event>)
    requires Acyclic(s.forest.links) && OneCurrentWindow(s) && MarkedOrPending(s) && Admitted(Step, OpensAlone, s, es)
    requires forall i :: 0 <= i < |es| ==> !es[i].LoseMark?
    ensures Always(Step, MarkedOrPending, s, es)
  {
    ExclusiveIsSafe(s, es);
    CurrentIsAnchored(s);
    AnyRunOwesMarks(s, es);
  }

  // ---- A call that runs alone ----------------------------------------------------------

  /** A walk that ends deeper than the guard allows, or through the child, is its refusal. */
  lemma EndedWalkIsRefused(m: map<Id, Id>, w: Window)
    requires Current(m, w) && w.ids[|w.ids| - 1] !in m && !(|w.ids| <= 16 && w.child !in w.ids)
    ensures !Accepts(m, w.child, w.parent)
  {
    var k := |w.ids| - 1;
    WalkSawAll(m, w.parent, 16, w.ids, Clean);
    if |w.ids| > 16 && EndsWithin(m, w.parent, 15) { EndStays(m, w.parent, 15, k); }
  }

  lemma StuckWalkIsRefused(m: map<Id, Id>, w: Window)
    requires Current(m, w) && w.ids[|w.ids| - 1] in m
    requires m[w.ids[|w.ids| - 1]] in w.ids || |w.ids| > 16
    ensures !Accepts(m, w.child, w.parent)
  {
    var problem := if m[w.ids[|w.ids| - 1]] in w.ids then Loop else TooDeep;
    WalkClassifies(m, w.parent, 16, w.ids, problem);
    if EndsWithin(m, w.parent, 15) { EndStays(m, w.parent, 15, 16); }
  }

  /** What one read makes of a lone window, exactly. Where the chain goes on, the
      window reads one id more, or closes over a loop or a chain that is too deep;
      where the chain has ended it is cleared iff the guard accepts, else closed. */
  lemma LoneReadIff(s: Proto)
    requires |s.windows| == 1 && Current(s.forest.links, s.windows[0]) && !s.windows[0].cleared
    ensures var m, w, s' := s.forest.links, s.windows[0], Step(s, ReadParent(0));
            && s'.forest == s.forest && s'.pending == s.pending && |s'.windows| <= 1
            && (s'.windows == [w.(cleared := true)] <==> w.ids[|w.ids| - 1] !in m && Accepts(m, w.child, w.parent))
            && (s'.windows == [] ==> !Accepts(m, w.child, w.parent))
            && (|s'.windows| == 1 ==> s'.windows[0].child == w.child && s'.windows[0].parent == w.parent)
            && (|s'.windows| == 1 && !s'.windows[0].cleared ==> |s'.windows[0].ids| == |w.ids| + 1)
  {
    var m, w := s.forest.links, s.windows[0];
    var last := w.ids[|w.ids| - 1];
    if last !in m {
      if |w.ids| <= 16 && w.child !in w.ids { EndedWalkIsAccepted(m, w); } else { EndedWalkIsRefused(m, w); }
    } else if m[last] in w.ids || |w.ids| > 16 {
      StuckWalkIsRefused(m, w);
    }
  }

  /** Where a call on `f` that has read `k` times may be: still reading the parent's
      chain, cleared because the guard accepts, or closed because it does not. */
  ghost predicate Checking(f: Forest, child: Id, parent: Id, s: Proto, k: nat) {
    && s.forest == f && s.pending == multiset{} && |s.windows| <= 1
    && (s.windows == [] ==> !Accepts(f.links, child, parent))
    && (|s.windows| == 1 ==>
          var w := s.windows[0];
          && Current(f.links, w) && w.child == child && w.parent == parent && (!w.cleared ==> |w.ids| == k + 1))
  }

  lemma ReadChecks(f: Forest, child: Id, parent: Id, s: Proto, k: nat)
    requires Checking(f, child, parent, s, k)
    ensures Checking(f, child, parent, Step(s, ReadParent(0)), k + 1)
  {
    if |s.windows| == 1 && !s.windows[0].cleared {
      LoneReadIff(s);
      ReadKeepsCurrent(s);
      var s' := Step(s, ReadParent(0));
      if |s'.windows| == 1 { assert s'.windows[0] in s'.windows; }
    }
  }

  function Reads(): (es: seq<Event>)
    ensures |es| == 17 && forall i :: 0 <= i < 17 ==> es[i] == ReadParent(0)
  {
    seq(17, i => ReadParent(0))
  }

  lemma {:induction false} ReadsCheck(f: Forest, child: Id, parent: Id, s: Proto, n: nat)
    requires Checking(f, child, parent, s, 0) && n <= 17
    ensures Checking(f, child, parent, After(Step, s, Reads(), n), n)
  {
    var inv := (x: Proto, k: nat) => Checking(f, child, parent, x, k);
    forall k: nat | k < 17 && inv(After(Step, s, Reads(), k), k)
      ensures inv(Step(After(Step, s, Reads(), k), Reads()[k]), k + 1)
    {
      ReadChecks(f, child, parent, After(Step, s, Reads(), k), k);
    }
    InvariantAt(Step, inv, s, Reads(), n);
  }

  /** How a call ends: its replace and its marker, or where it dies. */
  function Ending(fault: Fault, root: Id): seq<Event> {
    match fault
    case NoFault => [Replace(0), Mark(root)]
    case ReplaceFails => [Abort(0), Abort(0)]
    case MarkFails => [Replace(0), LoseMark(root)]
  }

  function WholeCall(child: Id, parent: Id, fault: Fault, root: Id): seq<Event> {
    [Begin(child, parent)] + Reads() + Ending(fault, root)
  }

  lemma ReplaceAlone(f: Forest, w: Window)
    requires Current(f.links, w) && w.cleared
    ensures Step(Proto(f, [w], multiset{}), Replace(0))
            == Proto(f.(links := f.links[w.child := w.parent]), [], multiset{Root(f.links, w.parent)})
  {
    assert Close([w], 0) == [];
  }

  lemma MarkAlone(f: Forest, root: Id)
    ensures Step(Proto(f, [], multiset{root}), Mark(root)) == Proto(f.(marks := f.marks + {root}), [], multiset{})
    ensures Step(Proto(f, [], multiset{root}), LoseMark(root)) == Proto(f, [], multiset{})
  {
    assert multiset{root} - multiset{root} == multiset{};
  }

  lemma AbortAlone(f: Forest, w: Window)
    ensures Step(Step(Proto(f, [w], multiset{}), Abort(0)), Abort(0)) == Proto(f, [], multiset{})
  {
    assert Close([w], 0) == [];
  }

  lemma AcceptedEnding(f: Forest, w: Window, fault: Fault)
    requires Current(f.links, w) && w.cleared
    ensures var es := Ending(fault, Root(f.links, w.parent));
            Step(Step(Proto(f, [w], multiset{}), es[0]), es[1])
            == Proto(WriteStep(f, Write(w.child, w.parent, fault)), [], multiset{})
  {
    match fault
    case ReplaceFails => AbortAlone(f, w);
    case _ =>
      ReplaceAlone(f, w);
      MarkAlone(f.(links := f.links[w.child := w.parent]), Root(f.links, w.parent));
  }

  lemma RefusedEnding(f: Forest, child: Id, parent: Id, fault: Fault)
    requires !Accepts(f.links, child, parent)
    ensures var es := Ending(fault, Root(f.links, parent));
            Step(Step(Proto(f, [], multiset{}), es[0]), es[1])
            == Proto(WriteStep(f, Write(child, parent, fault)), [], multiset{})
  {
    assert multiset{} - multiset{Root(f.links, parent)} == multiset{};
  }

  lemma EndingIsWrite(f: Forest, child: Id, parent: Id, fault: Fault, s: Proto)
    requires Checking(f, child, parent, s, 17)
    ensures After(Step, s, Ending(fault, Root(f.links, parent)), 2)
            == Proto(WriteStep(f, Write(child, parent, fault)), [], multiset{})
  {
    var es := Ending(fault, Root(f.links, parent));
    AfterTwo(Step, s, es[0], es[1]);
    assert es == [es[0], es[1]];
    if s.windows == [] {
      RefusedEnding(f, child, parent, fault);
    } else {
      assert s == Proto(f, [s.windows[0]], multiset{});
      AcceptedEnding(f, s.windows[0], fault);
    }
  }

  lemma CallBegins(f: Forest, child: Id, parent: Id)
    ensures Checking(f, child, parent, Step(Proto(f, [], multiset{}), Begin(child, parent)), 0)
  {
    assert Climb(f.links, parent, 0) == parent;
  }

  /** A call that runs alone, event by event, is one write, whatever the forest,
      whether the guard accepts or refuses, and wherever the call dies. */
  lemma WholeCallIsWrite(f: Forest, child: Id, parent: Id, fault: Fault)
    ensures var es := WholeCall(child, parent, fault, Root(f.links, parent));
            && |es| == 20
            && After(Step, Proto(f, [], multiset{}), es, 20)
               == Proto(WriteStep(f, Write(child, parent, fault)), [], multiset{})
  {
    var start, begin := Proto(f, [], multiset{}), Begin(child, parent);
    var begun := Step(start, begin);
    CallBegins(f, child, parent);
    ReadsCheck(f, child, parent, begun, 17);
    var checked := After(Step, begun, Reads(), 17);
    EndingIsWrite(f, child, parent, fault, checked);
    AfterOne(Step, start, begin);
    AfterThree(Step, start, [begin], Reads(), Ending(fault, Root(f.links, parent)), begun, checked);
  }

  // ---- Two windows that do ------------------------------------------------------------

  /** Two processes that both finish their check before either replaces. */
  function OverlapEvents(a: Id, b: Id): seq<Event> {
    [Begin(a, b), Begin(b, a), ReadParent(0), ReadParent(1), Replace(0), Replace(0)]
  }

  lemma TwoMore(s: Proto, es: seq<Event>, n: nat)
    requires n + 2 <= |es|
    ensures After(Step, s, es, n + 2) == Step(Step(After(Step, s, es, n), es[n]), es[n + 1])
  {
    assert After(Step, s, es, n + 1) == Step(After(Step, s, es, n), es[n]);
  }

  lemma BothChecked(a: Id, b: Id)
    requires a != b
    ensures var unread := Proto(EMPTY, [Window(a, b, [b], false), Window(b, a, [a], false)], multiset{});
            Step(Step(unread, ReadParent(0)), ReadParent(1))
            == Proto(EMPTY, [Window(a, b, [b], true), Window(b, a, [a], true)], multiset{})
  {
    var s := Step(Proto(EMPTY, [Window(a, b, [b], false), Window(b, a, [a], false)], multiset{}), ReadParent(0));
    assert s.windows == [Window(a, b, [b], true), Window(b, a, [a], false)];
  }

  lemma BothReplaced(a: Id, b: Id)
    requires a != b
    ensures var checked := Proto(EMPTY, [Window(a, b, [b], true), Window(b, a, [a], true)], multiset{});
            Step(Step(checked, Replace(0)), Replace(0))
            == Proto(Forest(map[a := b, b := a], {}), [], multiset{b, a})
  {
    var s := Step(Proto(EMPTY, [Window(a, b, [b], true), Window(b, a, [a], true)], multiset{}), Replace(0));
    assert s == Proto(Forest(map[a := b], {}), [Window(b, a, [a], true)], multiset{b});
  }

  /** Without exclusion the guard is not enough: over any two ids, two windows that overlap make a loop. */
  lemma OverlapMakesLoop(a: Id, b: Id)
    requires a != b
    ensures OnCycle(After(Step, START, OverlapEvents(a, b), 6).forest.links, a)
  {
    var es := OverlapEvents(a, b);
    TwoMore(START, es, 0);
    TwoMore(START, es, 2);
    TwoMore(START, es, 4);
    assert After(Step, START, es, 2).windows == [Window(a, b, [b], false), Window(b, a, [a], false)];
    BothChecked(a, b);
    BothReplaced(a, b);
    var m := map[a := b, b := a];
    assert Climb(m, a, 2) == Climb(m, b, 1) == Climb(m, a, 0) == a;
  }
}
