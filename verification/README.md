# Hook links, CI gate, sweep judge and role bindings: a verified model

This project models six of the repository's scripts and proves what they promise
for all inputs, all runs and all reachable states. Verify with
`dafny verify dfyconfig.toml`.

**The helper links** (`scripts/cursor_hook_family.py`). Helper agents are linked to
their parents in a store of small files: one link file per child, one marker per
family root. `Chains` is the theory of such parent pointers on any map, loops
included. `LinkForest` makes one `write_link` call a step on (links, marks) and a
run any list of steps, each of which may die before the replace or before the
marker. `LinkStore` is the store updated in place, from file text up (`LinkFiles`):
every method is proved equal to a step, a run or a function of the old state.
`LinkProtocol` splits a call into its single reads, its replace and its marker, and
lets the events of several processes interleave; `Runs` is the induction over such runs. `FamilyKeys` is the key a helper
family shares.

**The hook adapter** (`scripts/cursor-hook.py`). `HookEvents` is the translation of a
Cursor payload to a Claude payload and of a hook's ending to an answer, and `HookWords`
what its names, fields and outputs mean;
`HookAdapter` is one process, from its arguments to the one object it prints,
including what it leaves in the link store; `HookLaws` holds the theorems, over one
run and over sessions of many runs on one store.

**The NornicDB-off gate** (`scripts/verify-nornicdb-ci-off.py`). `WorkflowLines` reads one
line; `Workflow` is the one-pass splitter, proved against a declarative split into
segments; `WorkflowLaws` and `WorkflowReindent` are its laws, and `WorkflowText` takes them
down to the text as it is written; `JobTemplate` matches a
registry job with a job name; `OffGate` is the nested loops of the check and the exact
meaning of their silence. The scanner that decides what starts a backend is a
parameter: three arbitrary functions.

**The sweep judge** (`scripts/judge-scoped-route-catalog-sweep.py`). `SweepReport` reads rows
and results from whatever JSON the two files hold; `SweepOrder` is Python's order on policy
keys, which is partial, and the sort by it; `SweepJudge` is the accumulating loop, its
counters, its verdict and everything it raises on; `SweepFiles` states both in the files' own
fields.

**Roles** (`scripts/agent-roles.py`, `scripts/goal-role-router.py`). `RoleManifest` is the
memoised resolver against the merge along a base chain, and the router's two-layer
shortcut; `RoleBindings` is generate and check over one file tree.

`Text`, `TextLaws`, `Json`, `Lists` and `Dicts` are small shared vocabularies (Python's strip
and what it does, JSON values, lists without repetition and flattening, insertion-ordered dicts).

## What does not hold, and exactly when it does

- Two `write_link` calls whose check-to-replace windows overlap can make a loop out of
  any two ids (`LinkProtocol.OverlapMakesLoop`). However windows overlap, every state of a run
  is a forest iff each replace, when it takes effect, finds the parent's chain clear of the
  child (`LinkProtocol.AlwaysForestIff`), and on such a run no marker is missing without being
  owed (`LinkProtocol.AnyRunOwesMarks`). Without overlap every interleaving is the list of
  whole calls whose replaces took effect (`LinkProtocol.ExclusiveRunIsWrites`).
- A call that dies between replace and marker loses the marker invariant iff the parent's
  root had no marker yet (`LinkForest.MarksKeptIff`).
- The writer bounds the chain above the child only, so legal runs build chains of any
  length (`LinkForest.DepthIsUnbounded`) and can push an old descendant off its family's
  key (`FamilyKeys.OldDescendantLosesKey`). One write keeps every chain within 16 links iff
  every id k links below the child has k < 16 and the parent has at most 15 - k links
  (`LinkForest.StepKeepsBoundIff`), a whole run does in every state iff each of its writes
  does (`LinkForest.RunKeepsBoundIff`), and that is also exactly when every id keys on its
  family's root throughout (`FamilyKeys.DescendantKeepsKeyIff`, `FamilyKeys.RunKeepsKeysIff`).
- The adapter's text says advisory events fail open. A call without a hook script is
  answered as no event at all, so it denies whatever the event, and this is the only way an
  advisory event denies (`HookLaws.AdvisoryFailsOpen`).
- The judge's comment says a malformed row never raises. `SweepFiles.RaisesExactly` is the
  exact list of files on which it does, short of Python's recursion limit: a file that is no object, or whose list cannot be
  gone through; a policy row without a tool and label that can be looked up; a result that
  is no object, or whose tool, label or, once its row is found, route has no hash; a row whose
  class has none; a ledger result that claims to pass with a number or `true` for its
  actual; a failing row without the method or path its line prints; and policy keys of
  different kinds, which do not sort. `SweepFiles.UnhashableRaises` gives the files: one
  result that passed unrefused, under its one row, raises iff its route or the row's class is a
  list or an object, and exits 0 otherwise.
- A job id written twice in a workflow loses the first job; every key line keeps its own job
  iff the ids are distinct (`WorkflowLaws.JobPerKeyLineIff`, `WorkflowLaws.LastJobWins`).
- Generate followed by check passes iff every binding settles: a text that renders, which
  takes fields that loading a manifest does not ask for; no carriage return in it, which
  reading the file back turns into a newline; a path that reads as text or is absent; and
  one that can be written if it has to be (`RoleBindings.GenerateThenCheck`). Inputs that
  fail are `RoleBindings.CarriageReturnStaysStale` and `RoleBindings.UnrenderedEndsBoth`.
- The router's two-layer merge shows the loader's field under an exact condition on the
  manifest (`RoleManifest.RouterFieldExact`): it misses a field first defined at the third
  role of a chain (`RoleManifest.ThirdLayerIsMissed`), and a falsy base is read by the router
  only (`RoleManifest.FalsyBaseReadByRouterOnly`).

## Model

| member | source | states |
|---|---|---|
| `LinkFiles.LinksOf` | scripts/cursor_hook_family.py:84-88 | The links readers see: exactly the files whose text is a valid id other than the child. |
| `TextLaws.AsciiSpaces` | scripts/cursor_hook_family.py:87 | Which ASCII characters are stripped. |
| `TextLaws.StripIff` | scripts/cursor_hook_family.py:87 | Stripping takes white space off both ends and nothing else. |
| `TextLaws.UnquoteIff` | scripts/verify-nornicdb-ci-off.py:249 | Unquoting takes quotes of either kind off both ends and nothing else. |
| `TextLaws.ContainsIff` | scripts/verify-nornicdb-ci-off.py:234 | Containing is having it somewhere. |
| `Json.AbsentIsNull` | scripts/cursor_hook_family.py:53 | An absent field reads as null. |
| `LinkFiles.ValidIdIff` | scripts/cursor_hook_family.py:33-48 | An id is a letter or digit and at most 127 letters, digits, dots, underscores, colons or dashes, with no two dots in a row. |
| `LinkFiles.LinkIsRead` | scripts/cursor_hook_family.py:84-88 | A child is linked to a parent iff the first 256 characters of its file are that valid id, white space aside, and it is not the child's own. |
| `LinkFiles.ValidIdSurvives` | scripts/cursor_hook_family.py:46-73 | A valid id comes back unchanged from the 256-character read and the strip. |
| `LinkFiles.WriteIsOneLink` | scripts/cursor_hook_family.py:140-144 | Replacing one link file changes exactly that one link, whatever text the files held. |
| `Chains.WalkClassifies` | scripts/cursor_hook_family.py:91-103 | On any link map: clean iff the chain ends within the bound, loop iff it never ends and visits at most bound + 1 ids, too deep iff it visits at least bound + 2; a clean walk ends at the root. |
| `Chains.WalkSawAll` | scripts/cursor_hook_family.py:91-103 | A clean or looping walk has seen every id of the chain. |
| `Chains.ReachedIsChain` | scripts/cursor_hook_family.py:91-103 | The finite set used to count the ids of a chain is the whole chain, also for chains that never end. |
| `Chains.EndsUnlessCycle` | scripts/cursor_hook_family.py:91-103 | A chain ends iff no id on it sits on a cycle. |
| `LinkStore.Store.Walk` | scripts/cursor_hook_family.py:91-103 | The loop makes at most 17 reads, returns a repetition-free prefix of the chain, and its three verdicts are exact. |
| `LinkStore.CleanDepth` | scripts/cursor_hook_family.py:128-134 | What the guard reads off a walk: its length is the chain's depth, its ids are the chain's ids. |
| `LinkStore.Store.Replace` | scripts/cursor_hook_family.py:140-144 | The replace sets one link and touches no marker. |
| `LinkStore.Store.CheckLink` | scripts/cursor_hook_family.py:128-136 | The guard passes iff the parent has at most 15 links and its chain misses the child; otherwise the exact reason, and when it passes the root that will be marked. |
| `LinkStore.Store.WriteLink` | scripts/cursor_hook_family.py:126-149 | One call is one step on (links, marks); it refuses iff the parent has more than 15 links or passes through the child, with the exact reason. |
| `LinkStore.Store.RecordLinks` | scripts/cursor_hook_family.py:152-167 | One start is the run of its at most three writes, each dying on its own. |
| `LinkStore.Store.LinkedRoot` | scripts/cursor_hook_family.py:114-119 | The first loop returns the root of the first id whose chain is clean and has a link. |
| `LinkStore.Store.FamilyKeyOf` | scripts/cursor_hook_family.py:106-123 | The two search loops compute the family key of the store as it stands. |
| `Chains.LinkKeepsForestIff` | scripts/cursor_hook_family.py:133-135 | A new link keeps a forest acyclic iff the parent's chain, parent included, misses the child: the guard tests the right thing. |
| `Chains.CyclesAfterLink` | scripts/cursor_hook_family.py:126-147 | With loops already there, exactly the cycles that avoid the child survive. |
| `Chains.ChainRedirected` | scripts/cursor_hook_family.py:126-147 | A chain through the child keeps its part below and goes on with the parent's chain. |
| `Chains.OtherChainsKept` | scripts/cursor_hook_family.py:126-147 | Frame: a chain that misses the child is unchanged link for link. |
| `Chains.RootsAfterLink` | scripts/cursor_hook_family.py:126-147 | Where every chain ends after an accepted link, loops elsewhere or not. |
| `Chains.DepthAfterLink` | scripts/cursor_hook_family.py:126-147 | How deep an accepted link leaves any id below the child: its links up to the child, the new one, and the parent's. |
| `Chains.SameRootIffConnected` | scripts/cursor_hook_family.py:1-17 | In a forest two ids have one root iff links join them: the root names the family. |
| `LinkForest.WriteOnlyBreaksLoops` | scripts/cursor_hook_family.py:126-147 | From any store, an accepted write adds no cycle, and re-linking an id on a cycle frees every id of it. |
| `LinkForest.SubtreeMerge` | scripts/cursor_hook_family.py:126-147 | Exactly the ids whose chain passes through the child move to the parent's root; every other chain is identical. |
| `LinkForest.FreshChildResolves` | scripts/cursor_hook_family.py:128-139 | A child just linked is within the walk's bound. |
| `LinkForest.RunKeepsForest` | scripts/cursor_hook_family.py:126-149 | No list of calls, re-links and deaths included, makes a loop. |
| `LinkForest.RunSplits` | scripts/cursor_hook_family.py:126-149 | Two runs one after the other are one run: what a store goes through can be cut anywhere. |
| `LinkForest.MarksKeptIff` | scripts/cursor_hook_family.py:140-149 | One call keeps "every linked id's true root is marked" iff it does not die before marking a root that had no marker. |
| `LinkForest.RunKeepsMarks` | scripts/cursor_hook_family.py:140-149 | Completed calls keep every linked id's unbounded root marked, however long chains grow. |
| `LinkForest.ReachableStates` | scripts/cursor_hook_family.py:126-149 | In every state reachable from the empty store: acyclic, all chains end, same root iff connected, and roots marked unless a marker was lost. |
| `LinkForest.DepthIsUnbounded` | scripts/cursor_hook_family.py:128-139 | A legal run gives its first id a chain of any chosen length. |
| `LinkForest.DescendantWithinIff` | scripts/cursor_hook_family.py:128-147 | After an accepted write an id k links below the child is within 16 links iff k < 16 and the parent has at most 15 - k. |
| `LinkForest.StepKeepsBoundIff` | scripts/cursor_hook_family.py:128-147 | Where every chain is within 16 links, one call keeps it so iff it leaves room for everything below its child. |
| `LinkForest.RunKeepsBoundIff` | scripts/cursor_hook_family.py:126-149 | From such a store, every state of a run is such a store iff every write left room when it was made. |
| `LinkForest.RunIsAfter` | scripts/cursor_hook_family.py:126-149 | The states of a run, event by event, are those that its first writes leave. |
| `LinkForest.SiblingsKeepVerdicts` | scripts/cursor_hook_family.py:162-165 | No write of a start changes the guard's verdict on another of its writes, or the parent's root. |
| `LinkForest.SiblingsAreIndependent` | scripts/cursor_hook_family.py:162-165 | The writes of one start act as if each was checked against the store the start found. |
| `LinkForest.SiblingsMarkRoot` | scripts/cursor_hook_family.py:148-167 | Markers are never lost, and one undisturbed write of a start is enough to mark the parent's root. |
| `FamilyKeys.Candidates` | scripts/cursor_hook_family.py:113 | The ids considered are the valid ones of conversation_id, session_id and subagent_id, each field once, in that order. |
| `FamilyKeys.CandidatesAre` | scripts/cursor_hook_family.py:113 | They are exactly the valid ids that one of the three fields holds. |
| `FamilyKeys.ChatKeyIs` | scripts/cursor_hook_family.py:51-53 | A payload none of whose ids is linked or marked keys on conversation_id if it is truthy, else on session_id if that is, else on nothing. |
| `FamilyKeys.FamilyAgreement` | scripts/cursor_hook_family.py:106-123 | If every id a payload carries is within 16 links of one marked root, the key is that root whichever fields are present. |
| `FamilyKeys.BoundedKeyVersusRoot` | scripts/cursor_hook_family.py:106-123 | In a forest the key of a lone id is its true root iff it is within 16 links, and the id itself otherwise. |
| `FamilyKeys.OldDescendantLosesKey` | scripts/cursor_hook_family.py:126-139 | A legal run over 18 distinct ids takes the first one off its family's key. |
| `FamilyKeys.DescendantKeepsKeyIff` | scripts/cursor_hook_family.py:106-147 | After an accepted write an older descendant k links below the child keys on the family's root iff k < 16 and the parent has at most 15 - k links. |
| `FamilyKeys.RunKeepsKeysIff` | scripts/cursor_hook_family.py:106-149 | From the empty store, every id keys on its true root in every state of a run iff every write leaves room for what is below its child. |
| `FamilyKeys.StartWritesNamed` | scripts/cursor_hook_family.py:158-165 | A start under a valid parent writes a link for each valid subagent, conversation and session id other than the parent, and for no other. |
| `FamilyKeys.StartWritesInOrder` | scripts/cursor_hook_family.py:162-165 | It tries the helper's own id first, then the conversation, then the session, and each dies or not on its own. |
| `FamilyKeys.WritesForFields` | scripts/cursor_hook_family.py:158-165 | Of any fields a start writes exactly the valid ids that differ from the parent. |
| `FamilyKeys.StartedFamilySharesKey` | scripts/cursor_hook_family.py:106-167 | After a start under a parent with at most 15 links, any payload whose ids the start named keys on the parent's root. |
| `FamilyKeys.FreshHelperSharesKeyIff` | scripts/cursor_hook_family.py:106-149 | A fresh helper shares its parent's key iff the parent had at most 15 links. |
| `LinkProtocol.ReadKeepsCurrent` | scripts/cursor_hook_family.py:94-103 | A lone window's reads stay true of the store as it goes on. |
| `LinkProtocol.LoneReadIff` | scripts/cursor_hook_family.py:91-136 | Exactly what one read makes of a lone window: where the parent's chain has ended it is cleared iff the guard accepts, it closes only if the guard does not, and else it has read one id more. |
| `LinkProtocol.WholeCallIsWrite` | scripts/cursor_hook_family.py:126-149 | On any forest, a call that runs alone as 20 events leaves exactly what one write leaves, accepted or refused, completed or dead before the replace or the marker. |
| `LinkProtocol.ExclusiveRunIsWrites` | scripts/cursor_hook_family.py:126-149 | As long as no two windows overlap, every interleaving of reads, replaces, deaths and late markers leaves the links of whole calls: one for each replace that took effect, in that order. |
| `LinkProtocol.ExclusiveRunKeepsForest` | scripts/cursor_hook_family.py:126-149 | Every state of such a run is a forest. |
| `LinkProtocol.AnyRunOwesMarks` | scripts/cursor_hook_family.py:144-149 | With markers delayed but not lost, and windows overlapping freely, every linked id's root is marked or has a marker pending in every state of a run whose replaces are safe. |
| `LinkProtocol.ReplaceCoversRoots` | scripts/cursor_hook_family.py:144-149 | However stale the window's reads, a safe replace marks or owes the root it moves ids to. |
| `LinkProtocol.ExclusiveRunOwesMarks` | scripts/cursor_hook_family.py:144-149 | In particular in every state of a run without overlap. |
| `LinkProtocol.OverlapMakesLoop` | scripts/cursor_hook_family.py:128-144 | Two overlapping windows over any two ids make a loop. |
| `LinkProtocol.StepKeepsForestIff` | scripts/cursor_hook_family.py:128-144 | One event keeps the forest iff it is no replace under a chain that by now passes through the child. |
| `LinkProtocol.AlwaysForestIff` | scripts/cursor_hook_family.py:126-149 | Whole runs with windows overlapping freely: every state is a forest iff every replace was safe when it took effect. |
| `HookWords.FindPathIff` | scripts/cursor-hook.py:148-163 | The path search in the payload's own fields: none iff all six are absent, null or empty; a path iff the first that holds something holds a string, joined onto the directory; else malformed. |
| `HookWords.FirstPathIs` | scripts/cursor-hook.py:153-163 | The first field that holds something decides: a string is the path, anything else is malformed. |
| `HookWords.EventNames` | scripts/cursor-hook.py:49-64 | Each event by Cursor's name for it. |
| `HookWords.EventKinds` | scripts/cursor-hook.py:50-64 | The two guards, the two skill events and the six advisory ones. |
| `HookWords.CwdIs` | scripts/cursor-hook.py:133-145 | The working directory is the payload's, else the first workspace root, else the project's. |
| `HookWords.ToldIff` | scripts/cursor-hook.py:194-251 | For every event, exactly what its hook is told: session, directory, transcript, and a happening that the payload's own fields report. |
| `HookWords.NotTold` | scripts/cursor-hook.py:194-251 | When and why a hook is not told: a tool without a path, a read that loads no skill, a stop that completed nothing, a command that is no string, a path that is none. |
| `HookWords.BlockedIff` | scripts/cursor-hook.py:272-284 | An output blocks iff it is a JSON object that decides to block or whose hook-specific part denies permission. |
| `HookWords.ReasonAndContext` | scripts/cursor-hook.py:274-287 | The reason and context an object gives, first truthy field first; of any other output all is context. |
| `HookWords.DecimalWrites` | scripts/cursor-hook.py:98 | The number of cut characters reads back from its digits. |
| `HookWords.NumberWrites` | scripts/cursor-hook.py:306 | An exit code is written with its sign. |
| `HookWords.ClipIs` | scripts/cursor-hook.py:94-98 | At most 20000 characters of a message are passed on, and a longer one says how many were cut. |
| `HookLaws.FailureIs` | scripts/cursor-hook.py:117-126 | A run that goes wrong lets a helper start and the advisory events through; a guard or an unknown event denies and says why. |
| `HookLaws.RunAnswerGuard` | scripts/cursor-hook.py:290-318 | Once told, a hook gets a guard allowed iff it ran, exited 0, was read and did not block; anything else denies. |
| `HookLaws.ExitTwoRefuses` | scripts/cursor-hook.py:290-304 | Exit 2: a guard denies with the hook's words, a stop goes on with them, a prompt is held back, elsewhere only the exit code says so. |
| `HookLaws.OtherExitBreaks` | scripts/cursor-hook.py:305-310 | Any other exit but 0: guards fail closed and say which hook exited how, the rest goes on. |
| `HookLaws.BlockingStops` | scripts/cursor-hook.py:313-327 | A blocking output: a guard denies with the reason, a stop follows up with the reason or else the context, a prompt is held back with the reason. |
| `HookLaws.SpeakingLetsOn` | scripts/cursor-hook.py:313-327 | Any other output at exit 0 lets guards, stops and prompts go on, a guard with the context. |
| `HookLaws.ContextIsPassedOn` | scripts/cursor-hook.py:328-332 | On the events that only listen the context goes to the agent, or to the user before compaction. |
| `HookLaws.GuardAllowsIff` | scripts/cursor-hook.py:335-389 | Fail closed, exactly, in what comes in: over all arguments, inputs, hook endings, outputs and exceptions a guard answers allow or deny with exit 0, and allow iff a tool named no path, or the hook was told and ended with exit 0 and an output that does not block. |
| `HookLaws.AdvisoryFailsOpen` | scripts/cursor-hook.py:117-126 | An advisory event denies iff the hook script argument is missing, and otherwise stops nothing unless a hook exited 0 or 2 and was heard. |
| `HookLaws.StartAlwaysAllowed` | scripts/cursor-hook.py:117-121 | A helper's start is always allowed, whatever fails. |
| `HookLaws.SessionKeepsForest` | scripts/cursor-hook.py:356-360 | Over any session of adapter runs the store stays a forest, and its roots stay marked if no marker write died. |
| `HookLaws.HelperAndParentShareSkills` | scripts/cursor-hook.py:356-363 | After any undisturbed session and one start, every skill event whose ids the start named reaches its hook under the parent's root; every other event keeps its own chat. |
| `HookAdapter.Process.TranslateAndRun` | scripts/cursor-hook.py:362-378 | From payload to answer; an exception leaves nothing printed. |
| `HookAdapter.Process.Handle` | scripts/cursor-hook.py:356-378 | From the key on: a start records its links and is allowed, any other event is answered by translation and hook; only a start changes the store. |
| `HookAdapter.Process.Dispatch` | scripts/cursor-hook.py:335-378 | The whole of main against its specification, and exactly what it does to the link store. |
| `HookAdapter.Process.Go` | scripts/cursor-hook.py:381-389 | With the last-resort handler: exactly one answer, the specified one, on every path. |
| `WorkflowLines.IndentOf` | scripts/verify-nornicdb-ci-off.py:130-132 | The number of leading spaces: all spaces before it, none at it. |
| `WorkflowLines.KeyLineIff` | scripts/verify-nornicdb-ci-off.py:228-233 | A line is read as a key with this id and inline part iff it spells it: id in matching quotes or none, colon, spaces, rest. |
| `WorkflowText.IdCharIff` | scripts/verify-nornicdb-ci-off.py:228 | The characters a job id is made of. |
| `WorkflowText.OffIff` | scripts/verify-nornicdb-ci-off.py:83 | A line is the false condition iff it is written `if:` and `false`, bare or in `${{ }}`, white space aside. |
| `WorkflowText.NameIff` | scripts/verify-nornicdb-ci-off.py:248-249 | A line gives a name iff it is written `name:` and that name, between quotes or none. |
| `WorkflowText.HeaderIff` | scripts/verify-nornicdb-ci-off.py:141-142 | A line is the header iff it is `jobs:` alone. |
| `WorkflowText.UnreadableIff` | scripts/verify-nornicdb-ci-off.py:234 | A job is unreadable iff it is written inline without `uses:`, and is reported by its line. |
| `WorkflowLines.OffIsNotName` | scripts/verify-nornicdb-ci-off.py:246-249 | The two branches on a job's own keys exclude each other. |
| `Workflow.JobsSpan` | scripts/verify-nornicdb-ci-off.py:135-147 | The top is the least indent, the header the first `jobs:` at it, the block every line after it up to the first at the top indent; no span iff no such header. |
| `WorkflowText.SpanInText` | scripts/verify-nornicdb-ci-off.py:135-147 | The block in the text: below the first line that is `jobs:` alone at the least indent, up to the next line at that indent. |
| `WorkflowText.NoSpanInText` | scripts/verify-nornicdb-ci-off.py:143-144 | There is no block iff every line that is `jobs:` alone has a line of smaller indent beside it. |
| `WorkflowText.SegmentsAreKeyLines` | scripts/verify-nornicdb-ci-off.py:228-237 | The jobs of a block start at its key lines, each of them and no other, in order. |
| `WorkflowText.KeyLineInText` | scripts/verify-nornicdb-ci-off.py:226-229 | A key line is one at the indent of the first line under `jobs:` that spells a key. |
| `Workflow.AdvanceIsSplit` | scripts/verify-nornicdb-ci-off.py:218-249 | The one-pass state after any number of lines is that of the declarative split so far. |
| `Workflow.WalkBlock` | scripts/verify-nornicdb-ci-off.py:222-250 | The loop breaks exactly where the span ends and has read exactly the span. |
| `Workflow.WorkflowJobs` | scripts/verify-nornicdb-ci-off.py:201-250 | One pass computes the jobs that the file's segments declare. |
| `WorkflowLaws.SplitKeepsAll` | scripts/verify-nornicdb-ci-off.py:222-243 | The split keeps every line of the block, in order. |
| `WorkflowLaws.BlockAccounted` | scripts/verify-nornicdb-ci-off.py:222-243 | With distinct ids the block is the lines before the first key, then each job's bare key line and own lines. |
| `WorkflowLaws.NoLostLine` | scripts/verify-nornicdb-ci-off.py:150-161 | The workflow-level lines, the header and the accounted block are the whole file, in order. |
| `WorkflowLaws.JobPerKeyLineIff` | scripts/verify-nornicdb-ci-off.py:229-237 | Every key line keeps its own job iff no id is written twice. |
| `WorkflowLaws.LastJobWins` | scripts/verify-nornicdb-ci-off.py:235 | Of two jobs with one id the last is the one kept. |
| `WorkflowLaws.NameIsLastAtKeyIndent` | scripts/verify-nornicdb-ci-off.py:242-249 | A job's name is the last `name:` at the indent of its first body line, else its id. |
| `WorkflowLaws.OffOnlyAtKeyIndent` | scripts/verify-nornicdb-ci-off.py:242-247 | A job is off iff a line it owns, at that indent, is the literal false condition; deeper conditions never switch it off. |
| `WorkflowText.JobsInText` | scripts/verify-nornicdb-ci-off.py:201-250 | Every job of a file in its text: id, own lines, off iff a line at the indent of its first is written as the false condition, name by the last such `name:`, unreadable by its key line. |
| `WorkflowReindent.LexReindents` | scripts/verify-nornicdb-ci-off.py:130-132 | Re-indenting a line changes its indent and no other test's answer. |
| `WorkflowReindent.SpanReindents` | scripts/verify-nornicdb-ci-off.py:135-147 | A strictly increasing re-indent keeps the span's first and end index. |
| `WorkflowReindent.JobsReindent` | scripts/verify-nornicdb-ci-off.py:201-250 | It keeps ids, order, names, off and unreadable flags, and every line's owner. |
| `WorkflowReindent.LevelReindents` | scripts/verify-nornicdb-ci-off.py:150-161 | It keeps which lines are workflow-level. |
| `WorkflowReindent.OnlyIndentOrderMatters` | scripts/verify-nornicdb-ci-off.py:130-250 | All of it from the text up, for any strictly increasing map on indents. |
| `JobTemplate.CloseIff` | scripts/verify-nornicdb-ci-off.py:258 | An expression ends at the first "}}" after it, on its own line. |
| `JobTemplate.UnclosedIsLiteral` | scripts/verify-nornicdb-ci-off.py:258 | What opens an expression but never closes stands for itself. |
| `JobTemplate.InstanceMatches` | scripts/verify-nornicdb-ci-off.py:258-259 | Every instance of a pattern with non-empty one-line fillers matches it. |
| `JobTemplate.MatchIsInstance` | scripts/verify-nornicdb-ci-off.py:258-259 | Every match gives back fillers that make it. |
| `JobTemplate.JobMatchesInstances` | scripts/verify-nornicdb-ci-off.py:253-259 | A job accepts its id, its name and exactly the instances of its name; without expressions nothing more. |
| `JobTemplate.ParseRender` | scripts/verify-nornicdb-ci-off.py:258 | Reading a written template back finds its literals and its expressions, any number of them. |
| `JobTemplate.TemplateMatches` | scripts/verify-nornicdb-ci-off.py:253-259 | A written template matches exactly its id, its own text and its instantiations. |
| `OffGate.JobsSilentIff` | scripts/verify-nornicdb-ci-off.py:324-336 | The jobs of a file add no message iff each is readable, and each live one is scanned without a hit. |
| `OffGate.CheckFiles` | scripts/verify-nornicdb-ci-off.py:311-338 | The loop over files: all messages in order, and the jobs kept by file name. |
| `OffGate.CheckRows` | scripts/verify-nornicdb-ci-off.py:344-353 | The loop over rows and the jobs of the file each names. |
| `OffGate.Check` | scripts/verify-nornicdb-ci-off.py:307-354 | From text to messages through the one-pass splitter; silent iff the gate's invariants hold. |
| `OffGate.FileSilentIff` | scripts/verify-nornicdb-ci-off.py:313-338 | A file adds no message iff it reads, has jobs, all are readable, none live has a hit, and its level has none if one is live. |
| `OffGate.LiveLinesAre` | scripts/verify-nornicdb-ci-off.py:197 | The lines searched for a read input are the live jobs' lines, job by job. |
| `OffGate.RowPassesIff` | scripts/verify-nornicdb-ci-off.py:344-353 | A row adds no message iff, whenever it matches an off job of the file it names, it is non-blocking and outside the blocking tiers. |
| `OffGate.GateExact` | scripts/verify-nornicdb-ci-off.py:307-354 | No message at all iff every file and every row passes and the registry could be read. |
| `SweepFiles.PartIff` | scripts/judge-scoped-route-catalog-sweep.py:43-53 | Two values are one key part iff Python takes them for equal; lists and objects are none. |
| `SweepReport.PolicyReadsIff` | scripts/judge-scoped-route-catalog-sweep.py:43 | The policy dict is built iff every row is an object with a tool and a label that have a hash. |
| `SweepFiles.PolicyIff` | scripts/judge-scoped-route-catalog-sweep.py:43 | The policy has a key iff a row answers to it, and then the last such row decides. |
| `SweepReport.LastRowWins` | scripts/judge-scoped-route-catalog-sweep.py:43 | Of policy rows with one key the last is the policy. |
| `SweepOrder.NeighboursDecide` | scripts/judge-scoped-route-catalog-sweep.py:87 | A list whose neighbours compare and ascend has only keys that compare, so a sort that ends proves the keys sortable. |
| `SweepFiles.CompareIff` | scripts/judge-scoped-route-catalog-sweep.py:87 | Two keys compare iff, where they first differ, both hold numbers or both hold texts. |
| `SweepFiles.KeyLessIff` | scripts/judge-scoped-route-catalog-sweep.py:87 | Keys come by tool and then by label, numbers by size. |
| `SweepFiles.TextLessIff` | scripts/judge-scoped-route-catalog-sweep.py:87 | Texts come by their first different character, a beginning before what it begins. |
| `SweepOrder.SortedKeys` | scripts/judge-scoped-route-catalog-sweep.py:87 | Keys that all compare are listed once each in ascending order. |
| `SweepJudge.JudgeResults` | scripts/judge-scoped-route-catalog-sweep.py:45-86 | The accumulating loop: counters, seen keys, routes and failure lines after all results, or the raise. |
| `SweepJudge.JudgeUnseen` | scripts/judge-scoped-route-catalog-sweep.py:87-92 | The loop over the sorted rows ends early iff a row without a result lacks what its line prints, and else lists exactly those rows. |
| `SweepJudge.JudgeMissing` | scripts/judge-scoped-route-catalog-sweep.py:87-92 | One line for each policy row without a result, in key order; it raises iff the keys do not sort or such a row cannot be printed. |
| `SweepJudge.JudgeReport` | scripts/judge-scoped-route-catalog-sweep.py:43-108 | Verdict and summary as specified; errors is the number of failure lines, judged ones first, then the missing ones in key order. |
| `SweepJudge.Judge` | scripts/judge-scoped-route-catalog-sweep.py:15-112 | Unreadable iff a file does not load or is just null; otherwise the judgement of the two JSON values, raising included. |
| `SweepJudge.CountersCount` | scripts/judge-scoped-route-catalog-sweep.py:64-86 | Each counter is the number of results of its kind. |
| `SweepJudge.Conservation` | scripts/judge-scoped-route-catalog-sweep.py:45-96 | Exercised plus missing rows is refused plus strict plus tolerant plus errors. |
| `SweepJudge.PassExactly` | scripts/judge-scoped-route-catalog-sweep.py:50-108 | Exit 0 iff the policy's keys sort, the result keys are the policy keys and every result satisfies its row. |
| `SweepFiles.AcceptsExactly` | scripts/judge-scoped-route-catalog-sweep.py:38-108 | Exit 0 on any two JSON files, in their own fields: rows that read and sort, the same keys on both sides, and every result passed, the ledger ones disclosed, the others showing none of the four refusal texts and nothing that begins `http_403`. |
| `SweepFiles.CountedAs` | scripts/judge-scoped-route-catalog-sweep.py:64-86 | Which counter an accepted result goes into, by its row's class and accepted answers. |
| `SweepJudge.JudgementRaisesIff` | scripts/judge-scoped-route-catalog-sweep.py:50-92 | Once both files are read the judge raises iff a result is malformed, the keys do not sort, or a missing row cannot be printed. |
| `SweepFiles.RaisesExactly` | scripts/judge-scoped-route-catalog-sweep.py:43-92 | On any two JSON files, in their own fields: exactly the shapes on which the judge raises. |
| `SweepFiles.UnhashableRaises` | scripts/judge-scoped-route-catalog-sweep.py:58-64 | On two concrete files of one row and one passed, unrefused result: raises iff the route or the class is a list or an object, exit 0 otherwise. |
| `SweepFiles.OrderIndependent` | scripts/judge-scoped-route-catalog-sweep.py:43-96 | Two report files whose results are permutations of each other get the same verdict and printed counts, and raise alike. |
| `RoleManifest.ChainUnique` | scripts/agent-roles.py:28-31 | A role has at most one base chain. |
| `RoleManifest.ChainEndsIff` | scripts/agent-roles.py:26-31 | A base chain ends iff it meets neither an undefined role nor a cycle. |
| `RoleManifest.CycleHasNoChain` | scripts/agent-roles.py:26-27 | Coming back to a role of the trail means the chain never ends, so the cycle error is never wrong. |
| `RoleManifest.GoodStep` | scripts/agent-roles.py:28-44 | A role is good iff its merged spec passes and its base is good. |
| `RoleManifest.FirstErrorIff` | scripts/agent-roles.py:23-44 | A role has an error to report exactly when it is not good, wherever on a trail it is met. |
| `RoleManifest.ErrorMeans` | scripts/agent-roles.py:23-44 | The error names the undefined role or the cycle its bases run into, or is that of the role furthest up the chain that fails its check. |
| `RoleManifest.Resolver.Resolve` | scripts/agent-roles.py:23-46 | The memoised recursion ends, keeps the memo sound, succeeds iff the role is good with the chain merge, and otherwise returns the error that resolving without a memo would. |
| `RoleManifest.Resolver.LoadRoles` | scripts/agent-roles.py:16-50 | In whatever order the roles are visited: success iff the version is 1 and every role is good, with the chain merge of each; otherwise the first bad role's error. |
| `RoleManifest.Load` | scripts/agent-roles.py:16-50 | The same from the manifest as written, with the file's own checks. |
| `RoleManifest.ReadRoleIs` | scripts/agent-roles.py:28-30 | A role's base is its truthy base field, and its own fields are all the others. |
| `RoleManifest.ValidateIff` | scripts/agent-roles.py:32-44 | A merged spec passes iff its tier has a model in all four harnesses, its access is read or write, and its skill, if truthy, is on disk. |
| `RoleManifest.ValidateNames` | scripts/agent-roles.py:32-44 | What a spec that fails is charged with, tier before access before skill. |
| `RoleManifest.MergeHas` | scripts/agent-roles.py:30-31 | A chain's merge has a field iff some role of the chain defines it. |
| `RoleManifest.RouterFieldExact` | scripts/goal-role-router.py:116-123 | For every field of every role that loads: the router shows the loaded value iff the field is in the role, in its base, or nowhere from the third role of the chain on; with a truthy base it never shows a different one. |
| `RoleManifest.ThirdLayerIsMissed` | scripts/goal-role-router.py:116-123 | Over any three names, a field first defined by the base of the base is loaded but not routed. |
| `RoleManifest.OneLevelAgrees` | scripts/goal-role-router.py:206-208 | Where no base has a base and none is falsy, router and loader agree on every field. |
| `RoleManifest.FalsyBaseReadByRouterOnly` | scripts/goal-role-router.py:278-280 | A falsy base is ignored by the loader; the router merges the role it names, or raises. |
| `RoleBindings.ReadsBackIff` | scripts/agent-roles.py:201 | A text reads back as written iff it holds no carriage return. |
| `RoleBindings.LinesReadBack` | scripts/agent-roles.py:201 | Reading goes line by line, each of the three line ends becoming one newline. |
| `RoleBindings.PathsAre` | scripts/agent-roles.py:183-192 | Where each harness looks for a role. |
| `RoleBindings.BindingsAre` | scripts/agent-roles.py:180-194 | Each role in turn gets five bindings, each the text of its own name and harness at its own path. |
| `RoleBindings.Tree.GenerateOrCheck` | scripts/agent-roles.py:197-216 | Check changes nothing and lists the stale paths; generate leaves the specified tree and lists what it wrote; either ends without an exit code at a text that does not render or a path that cannot be read or written. |
| `RoleBindings.RunsThroughIff` | scripts/agent-roles.py:180-209 | Generate runs to the end iff every binding renders, its path can be read, and be written if it is stale. |
| `RoleBindings.WrittenExactly` | scripts/agent-roles.py:200-209 | A binding is written iff it is stale and nothing stopped the run up to it; otherwise its path stays as it was. |
| `RoleBindings.GenerateThenCheck` | scripts/agent-roles.py:180-216 | On any tree, check passes after generate iff every binding settles: it renders, without a carriage return, to a path readable or absent, and writable if stale. |
| `RoleBindings.CarriageReturnStaysStale` | scripts/agent-roles.py:200-209 | A text with a carriage return is written by generate and listed as stale by the check after it. |
| `RoleBindings.UnrenderedEndsBoth` | scripts/agent-roles.py:180-201 | A role that does not render ends generate after the bindings before it, and ends check. |
| `RoleBindings.SecondGenerate` | scripts/agent-roles.py:200-209 | A second generate leaves any tree as it is, and ends without writing under the same condition. |
| `RoleBindings.PathInjective` | scripts/agent-roles.py:180-194 | A binding path gives back its harness and its separator-free role name. |
| `RoleBindings.RolesBindDistinctPaths` | scripts/agent-roles.py:180-194 | Distinct separator-free roles bind distinct paths. |
| `RoleBindings.GenerateCycle` | scripts/agent-roles.py:180-216 | The whole cycle: nothing outside the bindings changes, and check and a second generate are clean iff every binding settles. |

## Left out

- File-system details of the link store: symlinks, FIFOs, temporary files, permissions. A file that cannot be read is no file; an OSError is a write that dies before the replace or before the marker.
- The 256-byte read is modelled on characters; it matters only for a planted file with non-ASCII text near the limit, never for a valid id.
- `log_event`, `worktree_roots`, `skill_id`, `run_hook` and every subprocess: parameters or nothing. Notes on stderr and the exact texts of failure messages are not part of the model.
- JSON (without NaN and infinities), `str()` and path-name functions are parameters of the adapter; an exception inside `record_links` other than an OSError, and a standard output that cannot be written, are not modelled.
- `scan.*`, `shard_nornicdb_runs` and `input_default_hits`: the gate takes their results from arbitrary functions of the lines they are given.
- `registry_rows`: the rows are an input of the gate, or absent when the registry cannot be read.
- Regular expressions are written out as functions on characters; `re.escape` and `re.sub` are modelled on the unescaped name. White space is what `str.strip` drops, also where a pattern says `\s`.
- Workflow.WorkflowJobs: takes lexed lines whose off and name tests exclude each other, which `WorkflowLines.Lex` guarantees of every line.
- In the judge's files: the JSON numbers NaN and infinity, which compare and sort in their own way, and text that standard output cannot print.
- Python's recursion limit, in every script: a JSON file nested deeply enough makes reading it raise, and a base chain long enough makes resolving it raise.
- Role specs that are no objects, and manifests without roles or models. An unhashable tier and a skill that is no string end in the error of an unknown one.
- The text of the five bindings is an arbitrary function of harness and role that may raise. A write that fails half way, text that cannot be encoded, and two paths that name one file are not modelled; a directory in the way is a path that cannot be read.
- The router's keyword routing and prompt text, `muse-exec`, the shard planners, the Go pipeline and the site.
