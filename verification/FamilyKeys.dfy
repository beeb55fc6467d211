/** The key one helper family shares, as a function of the link state and a payload. */
module FamilyKeys {
  import opened Lists
  import opened Chains
  import opened Runs
  import opened Text
  import opened Json
  import opened LinkFiles
  import opened LinkForest

  const ID_FIELDS := ["conversation_id", "session_id", "subagent_id"]

  predicate IsValidId(j: Json) {
    j.Str? && ValidId(j.s)
  }

  function ChatKey(p: Payload): Json {
    Or(Get(p, "conversation_id"), Or(Get(p, "session_id"), Str("")))
  }

  function IdFields(p: Payload): seq<Json> {
    seq(|ID_FIELDS|, i requires 0 <= i < |ID_FIELDS| => Get(p, ID_FIELDS[i]))
  }

  /** `ids` are the valid ids of the fields numbered `at`, out of the first `n`:
      rising numbers, and every field with a valid id among them. */
  ghost predicate PickedAt(fields: seq<Json>, n: nat, ids: seq<Id>, at: seq<nat>)
    requires n <= |fields|
  {
    && |at| == |ids|
    && (forall i, j :: 0 <= i < j < |at| ==> at[i] < at[j])
    && (forall i :: 0 <= i < |at| ==> at[i] < n && IsValidId(fields[at[i]]) && fields[at[i]].s == ids[i])
    && (forall k :: 0 <= k < n && IsValidId(fields[k]) ==> k in at)
  }

  ghost predicate PickedInOrder(fields: seq<Json>, n: nat, ids: seq<Id>)
    requires n <= |fields|
  {
    exists at :: PickedAt(fields, n, ids, at)
  }

  lemma PickNothing(fields: seq<Json>)
    ensures PickedInOrder(fields, 0, [])
  {
    assert PickedAt(fields, 0, [], []);
  }

  lemma PickOne(fields: seq<Json>, n: nat, ids: seq<Id>, at: seq<nat>)
    requires n < |fields| && PickedAt(fields, n, ids, at) && IsValidId(fields[n])
    ensures PickedAt(fields, n + 1, ids + [fields[n].s], at + [n])
  {
    var more := at + [n];
    assert more[|at|] == n;
    forall k | 0 <= k < n + 1 && IsValidId(fields[k]) ensures k in more { assert k == n || k in at; }
  }

  lemma PickNone(fields: seq<Json>, n: nat, ids: seq<Id>, at: seq<nat>)
    requires n < |fields| && PickedAt(fields, n, ids, at) && !IsValidId(fields[n])
    ensures PickedAt(fields, n + 1, ids, at)
  {
  }

  lemma PickNext(fields: seq<Json>, n: nat, ids: seq<Id>)
    requires n < |fields| && PickedInOrder(fields, n, ids)
    ensures PickedInOrder(fields, n + 1, if IsValidId(fields[n]) then ids + [fields[n].s] else ids)
  {
    var at :| PickedAt(fields, n, ids, at);
    if IsValidId(fields[n]) { PickOne(fields, n, ids, at); } else { PickNone(fields, n, ids, at); }
  }

  /** The valid ids among the first `n` fields, in order. */
  function ValidIds(fields: seq<Json>, n: nat): (ids: seq<Id>)
    requires n <= |fields|
    ensures PickedInOrder(fields, n, ids)
    decreases n
  {
    if n == 0 then
      PickNothing(fields);
      []
    else
      var before := ValidIds(fields, n - 1);
      PickNext(fields, n - 1, before);
      if IsValidId(fields[n - 1]) then before + [fields[n - 1].s] else before
  }

  /** The payload's valid ids, in field order. */
  function Candidates(p: Payload): (cands: seq<Id>)
    ensures PickedInOrder([Get(p, "conversation_id"), Get(p, "session_id"), Get(p, "subagent_id")], 3, cands)
  {
    assert IdFields(p) == [Get(p, "conversation_id"), Get(p, "session_id"), Get(p, "subagent_id")];
    ValidIds(IdFields(p), |IdFields(p)|)
  }

  lemma PickedAre(fields: seq<Json>, ids: seq<Id>, at: seq<nat>, c: Id)
    requires PickedAt(fields, |fields|, ids, at)
    ensures c in ids <==> exists k :: 0 <= k < |fields| && IsValidId(fields[k]) && fields[k].s == c
  {
    if i :| 0 <= i < |ids| && ids[i] == c { assert fields[at[i]].s == c; }
    if k :| 0 <= k < |fields| && IsValidId(fields[k]) && fields[k].s == c {
      var i :| 0 <= i < |at| && at[i] == k;
      assert ids[i] == c;
    }
  }

  lemma OneOfThree(x: Json, y: Json, z: Json, c: Id)
    ensures (exists k :: 0 <= k < 3 && IsValidId([x, y, z][k]) && [x, y, z][k].s == c)
            <==> IsValidId(Str(c)) && (x == Str(c) || y == Str(c) || z == Str(c))
  {
    var fields := [x, y, z];
    assert fields[0] == x && fields[1] == y && fields[2] == z;
    forall k | 0 <= k < 3
      ensures IsValidId(fields[k]) && fields[k].s == c <==> IsValidId(Str(c)) && fields[k] == Str(c)
    {}
  }

  /** They are exactly the valid ids that conversation_id, session_id or subagent_id holds. */
  lemma CandidatesAre(p: Payload, c: Id)
    ensures c in Candidates(p) <==>
            IsValidId(Str(c)) && (Get(p, "conversation_id") == Str(c) || Get(p, "session_id") == Str(c)
                                  || Get(p, "subagent_id") == Str(c))
  {
    var x, y, z := Get(p, "conversation_id"), Get(p, "session_id"), Get(p, "subagent_id");
    var at :| PickedAt([x, y, z], 3, Candidates(p), at);
    PickedAre([x, y, z], Candidates(p), at, c);
    OneOfThree(x, y, z, c);
  }

  /** Without a valid id the key is the chat's: conversation_id if it is truthy,
      else session_id if that is, else empty; so it is for any payload none of
      whose ids is linked or marked. */
  lemma ChatKeyIs(f: Forest, p: Payload)
    requires forall c :: c in Candidates(p) ==> c !in f.links && c !in f.marks
    ensures Truthy(Get(p, "conversation_id")) ==> FamilyKey(f, p) == Get(p, "conversation_id")
    ensures !Truthy(Get(p, "conversation_id")) && Truthy(Get(p, "session_id"))
            ==> FamilyKey(f, p) == Get(p, "session_id")
    ensures !Truthy(Get(p, "conversation_id")) && !Truthy(Get(p, "session_id")) ==> FamilyKey(f, p) == Str("")
    ensures FamilyKey(f, p) == ChatKey(p)
  {
    NothingLinked(f, Candidates(p));
  }

  lemma {:induction false} NothingLinked(f: Forest, cands: seq<Id>)
    requires forall c :: c in cands ==> c !in f.links && c !in f.marks
    ensures FirstLinkedRoot(f.links, cands) == None && FirstMarked(f.marks, cands) == None
    decreases |cands|
  {
    if cands != [] { NothingLinked(f, cands[1..]); }
  }

  /** The root of the first candidate with a clean chain of at least one link. */
  function FirstLinkedRoot(m: map<Id, Id>, cands: seq<Id>): Option<Id> {
    if cands == [] then None
    else if cands[0] in m && EndsWithin(m, cands[0], MAX_LINK_DEPTH) then Some(Root(m, cands[0]))
    else FirstLinkedRoot(m, cands[1..])
  }

  function FirstMarked(marks: set<Id>, cands: seq<Id>): Option<Id> {
    if cands == [] then None
    else if cands[0] in marks then Some(cands[0])
    else FirstMarked(marks, cands[1..])
  }

  function FamilyKey(f: Forest, p: Payload): Json {
    match FirstLinkedRoot(f.links, Candidates(p))
    case Some(root) => Str(root)
    case None =>
      match FirstMarked(f.marks, Candidates(p))
      case Some(c) => Str(c)
      case None => ChatKey(p)
  }

  // ---- Agreement -----------------------------------------------------------

  /** `c` is `root` or at most 16 links below it. */
  ghost predicate InFamily(m: map<Id, Id>, c: Id, root: Id) {
    EndsWithin(m, c, 16) && Root(m, c) == root
  }

  lemma {:induction false} LinkedRootOfFamily(m: map<Id, Id>, cands: seq<Id>, root: Id)
    requires forall c :: c in cands ==> InFamily(m, c, root)
    ensures FirstLinkedRoot(m, cands) == None || FirstLinkedRoot(m, cands) == Some(root)
    ensures FirstLinkedRoot(m, cands) == None && cands != [] ==> cands[0] == root
    decreases |cands|
  {
    if cands != [] {
      var c := cands[0];
      assert InFamily(m, c, root);
      assert c !in m ==> Root(m, c) == c && EndsWithin(m, c, 16);
      LinkedRootOfFamily(m, cands[1..], root);
    }
  }

  /** Whichever id fields a payload carries, if all of them sit in one family
      with a marked root, the key is that root. */
  lemma FamilyAgreement(f: Forest, p: Payload, root: Id)
    requires Candidates(p) != [] && root in f.marks
    requires forall c :: c in Candidates(p) ==> InFamily(f.links, c, root)
    ensures FamilyKey(f, p) == Str(root)
  {
    LinkedRootOfFamily(f.links, Candidates(p), root);
  }

  /** One valid id, in conversation_id. */
  ghost predicate OnlyConversation(p: Payload, c: Id) {
    ValidId(c) && Get(p, "conversation_id") == Str(c) && Candidates(p) == [c]
  }

  lemma LoneLinkedRoot(m: map<Id, Id>, c: Id)
    ensures FirstLinkedRoot(m, [c]) == if c in m && EndsWithin(m, c, 16) then Some(Root(m, c)) else None
  {
    assert [c][1..] == [];
  }

  lemma LoneMarked(marks: set<Id>, c: Id)
    ensures FirstMarked(marks, [c]) == if c in marks then Some(c) else None
  {
    assert [c][1..] == [];
  }

  lemma LoneChatKey(p: Payload, c: Id)
    requires OnlyConversation(p, c)
    ensures ChatKey(p) == Str(c)
  {
  }

  lemma LoneKey(f: Forest, p: Payload, c: Id)
    requires OnlyConversation(p, c)
    ensures FamilyKey(f, p) == Str(if c in f.links && EndsWithin(f.links, c, 16) then Root(f.links, c) else c)
  {
    assert Candidates(p) == [c];
    LoneLinkedRoot(f.links, c);
    LoneMarked(f.marks, c);
    LoneChatKey(p, c);
  }

  /** The bounded key is the true root exactly for ids within the bound; any
      other id keys on itself. */
  lemma BoundedKeyVersusRoot(f: Forest, p: Payload, c: Id)
    requires Acyclic(f.links) && OnlyConversation(p, c)
    ensures FamilyKey(f, p) == Str(Root(f.links, c)) <==> EndsWithin(f.links, c, 16)
    ensures !EndsWithin(f.links, c, 16) ==> FamilyKey(f, p) == Str(c)
  {
    LoneKey(f, p, c);
    AcyclicEnds(f.links, c);
    EndsAtRoot(f.links, c);
    if c !in f.links {
      assert Climb(f.links, c, 0) == Climb(f.links, c, 16) == c;
    } else {
      assert Root(f.links, c) !in f.links;
    }
  }

  /** Older descendants can be pushed past the bound: after a legal run over 18
      distinct ids the first one no longer keys on its family's root, though
      every link of the run was accepted. */
  lemma OldDescendantLosesKey(ids: seq<Id>, p: Payload)
    requires |ids| == 18 && NoRepeats(ids) && OnlyConversation(p, ids[0])
    ensures var before, after := Run(EMPTY, ChainWrites(ids[..17])), Run(EMPTY, ChainWrites(ids));
            && FamilyKey(before, p) == Str(Root(before.links, ids[0])) == Str(ids[16])
            && FamilyKey(after, p) == Str(ids[0]) != Str(Root(after.links, ids[0]))
  {
    var shorter := ids[..17];
    DepthIsUnbounded(shorter);
    DepthIsUnbounded(ids);
    RunKeepsForest(EMPTY, ChainWrites(shorter));
    RunKeepsForest(EMPTY, ChainWrites(ids));
    BoundedKeyVersusRoot(Run(EMPTY, ChainWrites(shorter)), p, ids[0]);
    BoundedKeyVersusRoot(Run(EMPTY, ChainWrites(ids)), p, ids[0]);
  }

  /** What one accepted write does to the key of an older descendant k links below
      the child: it stays the family's root iff the write leaves that id room. */
  lemma DescendantKeepsKeyIff(f: Forest, w: Write, p: Payload, c: Id, k: nat)
    requires Acyclic(f.links) && OnlyConversation(p, c) && Below(f.links, c, w.child, k)
    requires Accepts(f.links, w.child, w.parent) && w.fault != ReplaceFails
    ensures FamilyKey(WriteStep(f, w), p) == Str(Root(f.links, w.parent))
            <==> k < 16 && EndsWithin(f.links, w.parent, 15 - k)
  {
    var f' := WriteStep(f, w);
    WriteKeepsForest(f, w);
    BoundedKeyVersusRoot(f', p, c);
    DescendantWithinIff(f, w, c, k);
    SubtreeMerge(f, w, c);
  }

  // ---- Runs on which every id keeps its family's key ---------------------------

  /** Every event that carries one valid id keys on that id's true root. */
  ghost predicate KeysFollowRoots(f: Forest) {
    forall p, c :: OnlyConversation(p, c) ==> FamilyKey(f, p) == Str(Root(f.links, c))
  }

  ghost predicate IsValidForest(f: Forest) {
    Acyclic(f.links) && forall c :: c in f.links ==> ValidId(c)
  }

  ghost predicate IsValidWrite(f: Forest, w: Write) {
    ValidId(w.child)
  }

  function Lone(c: Id): Payload {
    map["conversation_id" := Str(c)]
  }

  lemma LoneIsOnly(c: Id)
    requires ValidId(c)
    ensures OnlyConversation(Lone(c), c)
  {
    var fields := IdFields(Lone(c));
    assert |fields| == 3 && fields[0] == Str(c) && fields[1] == Null && fields[2] == Null;
    assert ValidIds(fields, 1) == ValidIds(fields, 0) + [c];
    assert ValidIds(fields, 2) == ValidIds(fields, 1);
    assert ValidIds(fields, 3) == ValidIds(fields, 2);
  }

  lemma BoundedIffKeysFollow(f: Forest)
    requires IsValidForest(f)
    ensures Bounded(f) <==> KeysFollowRoots(f)
  {
    if Bounded(f) {
      forall p, c | OnlyConversation(p, c) ensures FamilyKey(f, p) == Str(Root(f.links, c)) {
        BoundedKeyVersusRoot(f, p, c);
      }
    }
    if KeysFollowRoots(f) {
      forall c ensures EndsWithin(f.links, c, 16) {
        if c in f.links {
          LoneIsOnly(c);
          BoundedKeyVersusRoot(f, Lone(c), c);
        }
      }
    }
  }

  lemma WriteKeepsValid(f: Forest, w: Write)
    requires IsValidForest(f) && IsValidWrite(f, w)
    ensures IsValidForest(WriteStep(f, w))
  {
    WriteKeepsForest(f, w);
  }

  /** From the empty store: in every state of a run every id keys on its family's
      root iff every write leaves room for what is below its child. */
  lemma RunKeepsKeysIff(ws: seq<Write>)
    requires forall w :: w in ws ==> ValidId(w.child)
    ensures Always(WriteStep, KeysFollowRoots, EMPTY, ws) <==> Admitted(WriteStep, RoomyStep, EMPTY, ws)
  {
    forall f, w | IsValidForest(f) && IsValidWrite(f, w)
      ensures IsValidForest(WriteStep(f, w))
    {
      WriteKeepsValid(f, w);
    }
    Invariant(WriteStep, IsValidForest, IsValidWrite, EMPTY, ws);
    RunKeepsBoundIff(EMPTY, ws);
    forall n | 0 <= n <= |ws|
      ensures Bounded(After(WriteStep, EMPTY, ws, n)) <==> KeysFollowRoots(After(WriteStep, EMPTY, ws, n))
    {
      assert IsValidForest(After(WriteStep, EMPTY, ws, n));
      BoundedIffKeysFollow(After(WriteStep, EMPTY, ws, n));
    }
  }

  // ---- A start, and what its family then keys on -----------------------------

  /** The ids a subagentStart payload asks to link, in the order they are tried. */
  function StartFields(p: Payload): seq<Json> {
    [Get(p, "subagent_id"), Get(p, "conversation_id"), Get(p, "session_id")]
  }

  /** The writes of one record_links call; `faults` says how each field's write dies. */
  function StartWrites(p: Payload, faults: seq<Fault>): seq<Write>
    requires |faults| == 3
  {
    var parent := Get(p, "parent_conversation_id");
    if IsValidId(parent) then WritesFor(parent.s, StartFields(p), faults) else []
  }

  function WritesFor(parent: Id, fields: seq<Json>, faults: seq<Fault>): (ws: seq<Write>)
    requires |fields| == |faults|
    ensures forall i :: 0 <= i < |ws| ==> ws[i].parent == parent && ws[i].fault in faults
  {
    if fields == [] then []
    else (if IsValidId(fields[0]) && fields[0].s != parent then [Write(fields[0].s, parent, faults[0])] else [])
         + WritesFor(parent, fields[1..], faults[1..])
  }

  const NO_FAULTS := [NoFault, NoFault, NoFault]

  ghost predicate HasChild(ws: seq<Write>, c: Id) {
    exists i :: 0 <= i < |ws| && ws[i].child == c
  }

  /** The children written are the valid field ids other than the parent. */
  lemma {:induction false} WritesForFields(parent: Id, fields: seq<Json>, faults: seq<Fault>, c: Id)
    requires |fields| == |faults|
    ensures HasChild(WritesFor(parent, fields, faults), c) <==> Str(c) in fields && ValidId(c) && c != parent
    decreases |fields|
  {
    if fields != [] {
      var rest := WritesFor(parent, fields[1..], faults[1..]);
      var head := if IsValidId(fields[0]) && fields[0].s != parent then [Write(fields[0].s, parent, faults[0])] else [];
      HasChildConcat(head, rest, c);
      WritesForFields(parent, fields[1..], faults[1..], c);
      assert HasChild(head, c) <==> fields[0] == Str(c) && IsValidId(fields[0]) && c != parent by {
        if head != [] { assert head[0].child == fields[0].s; }
      }
      assert Str(c) in fields <==> fields[0] == Str(c) || Str(c) in fields[1..];
    }
  }

  lemma HasChildConcat(a: seq<Write>, b: seq<Write>, c: Id)
    ensures HasChild(a + b, c) <==> HasChild(a, c) || HasChild(b, c)
  {
    var ws := a + b;
    if HasChild(b, c) {
      var i :| 0 <= i < |b| && b[i].child == c;
      assert ws[|a| + i].child == c;
    }
    if HasChild(a, c) {
      var i :| 0 <= i < |a| && a[i].child == c;
      assert ws[i].child == c;
    }
  }

  /** The ids one start puts in a family: its parent, and its valid subagent, conversation and session ids. */
  ghost predicate NamedByStart(p: Payload, c: Id) {
    || Str(c) == Get(p, "parent_conversation_id")
    || (IsValidId(Str(c)) && (Get(p, "subagent_id") == Str(c) || Get(p, "conversation_id") == Str(c)
                              || Get(p, "session_id") == Str(c)))
  }

  /** A start under a valid parent writes a link for each id it names, and for no other. */
  lemma StartWritesNamed(p: Payload, faults: seq<Fault>, c: Id)
    requires |faults| == 3 && IsValidId(Get(p, "parent_conversation_id"))
    requires c != Get(p, "parent_conversation_id").s
    ensures HasChild(StartWrites(p, faults), c) <==> NamedByStart(p, c)
  {
    WritesForFields(Get(p, "parent_conversation_id").s, StartFields(p), faults, c);
  }

  /** The helper's own id is tried first, then its conversation, then its session;
      each dies or not on its own. */
  lemma StartWritesInOrder(p: Payload, parent: Id, a: Id, b: Id, c: Id, faults: seq<Fault>)
    requires |faults| == 3 && IsValidId(Str(parent)) && IsValidId(Str(a)) && IsValidId(Str(b)) && IsValidId(Str(c))
    requires parent != a && parent != b && parent != c
    requires Get(p, "parent_conversation_id") == Str(parent) && Get(p, "subagent_id") == Str(a)
    requires Get(p, "conversation_id") == Str(b) && Get(p, "session_id") == Str(c)
    ensures StartWrites(p, faults)
            == [Write(a, parent, faults[0]), Write(b, parent, faults[1]), Write(c, parent, faults[2])]
  {
    var fields := StartFields(p);
    assert fields[1..][1..] == [fields[2]] && faults[1..][1..] == [faults[2]];
    assert WritesFor(parent, fields[1..][1..], faults[1..][1..]) == [Write(c, parent, faults[2])];
    assert WritesFor(parent, fields[1..], faults[1..]) == [Write(b, parent, faults[1])] + [Write(c, parent, faults[2])];
  }

  /** A start the family can grow by: a valid parent with at most 15 links. */
  predicate CanLink(f: Forest, start: Payload) {
    IsValidId(Get(start, "parent_conversation_id"))
    && EndsWithin(f.links, Get(start, "parent_conversation_id").s, 15)
  }

  /** Such a start links as it is told to, with nothing going wrong. */
  lemma StartIsWrites(f: Forest, start: Payload, parent: Id)
    requires CanLink(f, start) && parent == Get(start, "parent_conversation_id").s
    ensures StartWrites(start, NO_FAULTS) == WritesFor(parent, StartFields(start), NO_FAULTS)
    ensures forall w :: w in StartWrites(start, NO_FAULTS) ==> w.parent == parent && w.fault == NoFault
  {
    var ws := WritesFor(parent, StartFields(start), NO_FAULTS);
    forall w | w in ws ensures w.parent == parent && w.fault == NoFault {
      var i :| 0 <= i < |ws| && ws[i] == w;
      assert ws[i].fault in NO_FAULTS;
    }
  }

  lemma StartNames(f: Forest, start: Payload, parent: Id, c: Id)
    requires CanLink(f, start) && parent == Get(start, "parent_conversation_id").s && NamedByStart(start, c)
    ensures c == parent || HasChild(StartWrites(start, NO_FAULTS), c)
  {
    StartIsWrites(f, start, parent);
    WritesForFields(parent, StartFields(start), NO_FAULTS, c);
  }

  lemma StartPutsInFamily(f: Forest, start: Payload, parent: Id, c: Id)
    requires CanLink(f, start) && parent == Get(start, "parent_conversation_id").s && NamedByStart(start, c)
    ensures InFamily(Run(f, StartWrites(start, NO_FAULTS)).links, c, Root(f.links, parent))
  {
    StartIsWrites(f, start, parent);
    StartNames(f, start, parent, c);
    NamedIsInFamily(f, parent, StartWrites(start, NO_FAULTS), c);
  }

  lemma StartMarksRoot(f: Forest, start: Payload, parent: Id, child: Id)
    requires RootsMarked(f) && CanLink(f, start) && parent == Get(start, "parent_conversation_id").s
    requires NamedByStart(start, child) && child != parent
    ensures Root(f.links, parent) in Run(f, StartWrites(start, NO_FAULTS)).marks
  {
    StartIsWrites(f, start, parent);
    StartNames(f, start, parent, child);
    RootGetsMarked(f, parent, StartWrites(start, NO_FAULTS), child);
  }

  /** End to end: after an undisturbed start under a parent with at most 15
      links, every event whose ids the start named gets one key, the parent's
      root, whichever of the ids it carries. */
  lemma StartedFamilySharesKey(f: Forest, start: Payload, event: Payload)
    requires RootsMarked(f) && CanLink(f, start)
    requires exists c :: NamedByStart(start, c) && c != Get(start, "parent_conversation_id").s
    requires Candidates(event) != [] && forall c :: c in Candidates(event) ==> NamedByStart(start, c)
    ensures FamilyKey(Run(f, StartWrites(start, NO_FAULTS)), event)
            == Str(Root(f.links, Get(start, "parent_conversation_id").s))
  {
    var parent := Get(start, "parent_conversation_id").s;
    var f', root := Run(f, StartWrites(start, NO_FAULTS)), Root(f.links, parent);
    var child :| NamedByStart(start, child) && child != parent;
    StartMarksRoot(f, start, parent, child);
    forall c | c in Candidates(event) ensures InFamily(f'.links, c, root) { StartPutsInFamily(f, start, parent, c); }
    FamilyAgreement(f', event, root);
  }

  lemma RootGetsMarked(f: Forest, parent: Id, ws: seq<Write>, child: Id)
    requires RootsMarked(f) && EndsWithin(f.links, parent, 15)
    requires forall w :: w in ws ==> w.parent == parent && w.fault == NoFault
    requires child != parent && HasChild(ws, child)
    ensures Root(f.links, parent) in Run(f, ws).marks
  {
    SiblingsMarkRoot(f, parent, ws);
    if PassesThrough(f.links, parent, child) {
      var n: nat :| Climb(f.links, parent, n) == child;
      assert parent in f.links;
    } else {
      assert Accepts(f.links, child, parent);
    }
  }

  /** A named id ends at the parent's root, linked by the start or already above the parent. */
  lemma NamedIsInFamily(f: Forest, parent: Id, ws: seq<Write>, c: Id)
    requires forall w :: w in ws ==> w.parent == parent && w.fault == NoFault
    requires EndsWithin(f.links, parent, 15)
    requires c == parent || HasChild(ws, c)
    ensures InFamily(Run(f, ws).links, c, Root(f.links, parent))
  {
    var m, m', root := f.links, Run(f, ws).links, Root(f.links, parent);
    SiblingsAreIndependent(f, parent, ws);
    SiblingsKeepVerdicts(f, parent, ws);
    ParentChainKept(f, parent, ws);
    var n := 15;
    assert EndsWithin(m', parent, n) && Root(m', parent) == root;
    if PassesThrough(m, parent, c) || c == parent {
      assert Climb(m, parent, 0) == parent;
      var k: nat :| Climb(m, parent, k) == c;
      assert Climb(m', parent, k) == c;
      AboveEndsToo(m', parent, c, n);
    } else {
      assert Lands(m, parent, ws, c);
      BelowEndsOneLater(m', c, n);
    }
  }

  lemma {:induction false} ParentChainKept(f: Forest, parent: Id, ws: seq<Write>)
    requires forall i :: 0 <= i < |ws| ==> ws[i].parent == parent
    ensures forall n: nat :: Climb(Run(f, ws).links, parent, n) == Climb(f.links, parent, n)
    ensures EndsWithin(f.links, parent, 15) ==> EndsWithin(Run(f, ws).links, parent, 15)
    decreases |ws|
  {
    if ws != [] {
      var f' := WriteStep(f, ws[0]);
      ParentChainKept(f', parent, ws[1..]);
      SiblingSeesSameParent(f, ws[0], parent);
      if f' != f { OtherChainsKept(f.links, ws[0].child, parent, parent); }
    }
  }

  /** For a fresh helper id the bound is exact: it shares its parent's key iff
      the parent had at most 15 links. */
  lemma FreshHelperSharesKeyIff(f: Forest, parent: Id, c: Id, helperEvent: Payload, parentEvent: Payload)
    requires Acyclic(f.links) && RootsMarked(f)
    requires c !in f.links && !PassesThrough(f.links, parent, c)
    requires OnlyConversation(helperEvent, c) && OnlyConversation(parentEvent, parent)
    ensures var f' := WriteStep(f, Write(c, parent, NoFault));
            FamilyKey(f', helperEvent) == FamilyKey(f', parentEvent)
            <==> EndsWithin(f.links, parent, 15)
  {
    var w := Write(c, parent, NoFault);
    var f' := WriteStep(f, w);
    WriteKeepsForest(f, w);
    BoundedKeyVersusRoot(f', helperEvent, c);
    BoundedKeyVersusRoot(f', parentEvent, parent);
    assert Climb(f.links, c, 0) == c;
    assert Climb(f.links, parent, 0) == parent;
    if Accepts(f.links, c, parent) {
      FreshChildResolves(f, w);
      SubtreeMerge(f, w, c);
      SubtreeMerge(f, w, parent);
      AcyclicEnds(f.links, parent);
      SiblingSeesSameParent(f, w, c);
      assert EndsWithin(f'.links, parent, 15);
      EndStays(f'.links, parent, 15, 16);
    } else {
      assert Root(f.links, c) == c;
    }
  }
}
