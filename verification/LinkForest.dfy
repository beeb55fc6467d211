/** The helper-link state as a value: links from helper to parent, and the ids
    marked as family roots. One write is one step; a run is any list of steps. */
module LinkForest {
  import opened Lists
  import opened Chains
  import opened Runs

  type Id = string

  /** A chain of 16 links still resolves; one more does not. */
  const MAX_LINK_DEPTH := 16

  datatype Forest = Forest(links: map<Id, Id>, marks: set<Id>)

  const EMPTY := Forest(map[], {})

  /** Where a write may die: before the link file is replaced, or after that
      and before the root marker exists. */
  datatype Fault = NoFault | ReplaceFails | MarkFails

  datatype Write = Write(child: Id, parent: Id, fault: Fault)

  /** The guard: the parent can take one more link and the child is not above it. */
  ghost predicate Accepts(m: map<Id, Id>, child: Id, parent: Id) {
    EndsWithin(m, parent, 15) && !PassesThrough(m, parent, child)
  }

  ghost function WriteStep(f: Forest, w: Write): Forest {
    if !Accepts(f.links, w.child, w.parent) || w.fault == ReplaceFails then f
    else Forest(f.links[w.child := w.parent],
                if w.fault == MarkFails then f.marks else f.marks + {Root(f.links, w.parent)})
  }

  ghost function Run(f: Forest, ws: seq<Write>): Forest
    decreases |ws|
  {
    if ws == [] then f else Run(WriteStep(f, ws[0]), ws[1..])
  }

  /** Every linked id's unbounded root carries a marker. */
  ghost predicate RootsMarked(f: Forest) {
    forall c :: c in f.links ==> Root(f.links, c) in f.marks
  }

  // ---- One accepted write, on any link map ---------------------------------

  lemma AcceptedParentEnds(m: map<Id, Id>, child: Id, parent: Id)
    requires Accepts(m, child, parent)
    ensures Ends(m, parent) && child != parent
  {
    assert Climb(m, parent, 0) == parent;
  }

  /** Loops already in the store: a write adds none, keeps those that avoid the
      child, and breaks the one it is on, freeing every id on it. */
  lemma WriteOnlyBreaksLoops(f: Forest, w: Write, x: Id)
    requires Accepts(f.links, w.child, w.parent) && w.fault != ReplaceFails
    ensures OnCycle(WriteStep(f, w).links, x) <==> OnCycle(f.links, x) && !PassesThrough(f.links, x, w.child)
    ensures OnCycle(f.links, w.child) && PassesThrough(f.links, w.child, x)
            ==> !OnCycle(WriteStep(f, w).links, x) && Ends(WriteStep(f, w).links, x)
  {
    CyclesAfterLink(f.links, w.child, w.parent, x);
    if OnCycle(f.links, w.child) && PassesThrough(f.links, w.child, x) {
      OnSameCycle(f.links, w.child, x);
      AcceptedParentEnds(f.links, w.child, w.parent);
      RootsAfterLink(f.links, w.child, w.parent, x);
    }
  }

  lemma {:induction false} CycleMultiples(m: map<Id, Id>, c: Id, p: nat, k: nat)
    requires Climb(m, c, p) == c
    ensures Climb(m, c, k * p) == c
  {
    if k > 0 {
      CycleMultiples(m, c, p, k - 1);
      assert p + (k - 1) * p == k * p;
      ClimbAdd(m, c, p, (k - 1) * p);
    }
  }

  lemma OnSameCycle(m: map<Id, Id>, c: Id, x: Id)
    requires OnCycle(m, c) && PassesThrough(m, c, x)
    ensures PassesThrough(m, x, c)
  {
    var p: nat :| p > 0 && Climb(m, c, p) == c;
    var n: nat :| Climb(m, c, n) == x;
    CycleMultiples(m, c, p, n + 1);
    assert (n + 1) * p >= n by { assert (n + 1) * p == n * p + p; assert n * p >= n * 1; }
    ClimbAdd(m, c, n, (n + 1) * p - n);
  }

  /** The ids below the child move to the parent's root; every other chain,
      ending or not, stays identical link for link. */
  lemma SubtreeMerge(f: Forest, w: Write, x: Id)
    requires Accepts(f.links, w.child, w.parent) && w.fault != ReplaceFails
    ensures var m' := WriteStep(f, w).links;
            if PassesThrough(f.links, x, w.child)
            then Ends(m', x) && Root(m', x) == Root(f.links, w.parent)
            else forall n: nat :: Climb(m', x, n) == Climb(f.links, x, n)
    ensures Ends(f.links, x) && !PassesThrough(f.links, x, w.child)
            ==> Root(WriteStep(f, w).links, x) == Root(f.links, x)
  {
    AcceptedParentEnds(f.links, w.child, w.parent);
    RootsAfterLink(f.links, w.child, w.parent, x);
    if !PassesThrough(f.links, x, w.child) {
      OtherChainsKept(f.links, w.child, w.parent, x);
    }
  }

  /** A freshly linked child is within the walk's bound. */
  lemma FreshChildResolves(f: Forest, w: Write)
    requires Accepts(f.links, w.child, w.parent) && w.fault != ReplaceFails
    ensures EndsWithin(WriteStep(f, w).links, w.child, 16)
  {
    var m, m' := f.links, WriteStep(f, w).links;
    assert Climb(m, w.child, 0) == w.child;
    ChainRedirected(m, w.child, w.parent, w.child, 0);
    assert Climb(m', w.child, 0 + 1 + 15) == Climb(m, w.parent, 15);
    AcceptedParentEnds(m, w.child, w.parent);
    EndsAtRoot(m, w.parent);
    RootsAfterLink(m, w.child, w.parent, w.parent);
  }

  // ---- Whole runs ----------------------------------------------------------

  lemma WriteKeepsForest(f: Forest, w: Write)
    requires Acyclic(f.links)
    ensures Acyclic(WriteStep(f, w).links)
  {
    if Accepts(f.links, w.child, w.parent) { LinkKeepsForestIff(f.links, w.child, w.parent); }
  }

  /** No list of writes, dying wherever they like, makes a loop. */
  lemma {:induction false} RunKeepsForest(f: Forest, ws: seq<Write>)
    requires Acyclic(f.links)
    ensures Acyclic(Run(f, ws).links)
    decreases |ws|
  {
    if ws != [] {
      WriteKeepsForest(f, ws[0]);
      RunKeepsForest(WriteStep(f, ws[0]), ws[1..]);
    }
  }

  /** Dying before the marker is the one way to lose the marker invariant, and
      it loses it exactly when the parent's root had no marker yet. */
  lemma MarksKeptIff(f: Forest, w: Write)
    requires Acyclic(f.links) && RootsMarked(f)
    ensures RootsMarked(WriteStep(f, w)) <==>
            (Accepts(f.links, w.child, w.parent) && w.fault == MarkFails ==> Root(f.links, w.parent) in f.marks)
  {
    var f' := WriteStep(f, w);
    if Accepts(f.links, w.child, w.parent) && w.fault != ReplaceFails {
      forall x | x in f'.links
        ensures Root(f'.links, x) == Root(f.links, w.parent) || Root(f'.links, x) in f.marks
        ensures x == w.child ==> Root(f'.links, x) == Root(f.links, w.parent)
      {
        SubtreeMerge(f, w, x);
        AcyclicEnds(f.links, x);
        assert Climb(f.links, w.child, 0) == w.child;
      }
      assert w.child in f'.links;
    }
  }

  /** In every state that completed calls reach, every linked id's true root is
      marked, however long its chain has grown. */
  lemma {:induction false} RunKeepsMarks(f: Forest, ws: seq<Write>)
    requires Acyclic(f.links) && RootsMarked(f)
    requires forall i :: 0 <= i < |ws| ==> ws[i].fault != MarkFails
    ensures RootsMarked(Run(f, ws))
    decreases |ws|
  {
    if ws != [] {
      MarksKeptIff(f, ws[0]);
      WriteKeepsForest(f, ws[0]);
      RunKeepsMarks(WriteStep(f, ws[0]), ws[1..]);
    }
  }

  /** Two runs one after the other are one run. */
  lemma {:induction false} RunSplits(f: Forest, ws: seq<Write>, vs: seq<Write>)
    ensures Run(f, ws + vs) == Run(Run(f, ws), vs)
    decreases |ws|
  {
    if ws == [] {
      assert ws + vs == vs;
    } else {
      assert (ws + vs)[1..] == ws[1..] + vs;
      RunSplits(WriteStep(f, ws[0]), ws[1..], vs);
    }
  }

  /** What holds in every state reachable from the empty store. */
  lemma ReachableStates(ws: seq<Write>, a: Id, b: Id)
    ensures var f := Run(EMPTY, ws);
            && Acyclic(f.links) && Ends(f.links, a)
            && (Root(f.links, a) == Root(f.links, b) <==> Connected(f.links, a, b))
    ensures (forall i :: 0 <= i < |ws| ==> ws[i].fault != MarkFails) ==> RootsMarked(Run(EMPTY, ws))
  {
    assert Acyclic(EMPTY.links);
    RunKeepsForest(EMPTY, ws);
    AcyclicEnds(Run(EMPTY, ws).links, a);
    SameRootIffConnected(Run(EMPTY, ws).links, a, b);
    if forall i :: 0 <= i < |ws| ==> ws[i].fault != MarkFails { RunKeepsMarks(EMPTY, ws); }
  }

  // ---- The guard does not bound the depth ------------------------------------

  /** Link ids[0] to ids[1], then ids[1] to ids[2], and so on. */
  function ChainWrites(ids: seq<Id>): seq<Write> {
    if |ids| <= 1 then [] else [Write(ids[0], ids[1], NoFault)] + ChainWrites(ids[1..])
  }

  /** `ids` is a whole chain of `m`, and no id of `rest` has a link. */
  ghost predicate BuiltSoFar(m: map<Id, Id>, ids: seq<Id>, rest: seq<Id>) {
    && 0 < |ids|
    && (forall i :: 0 <= i < |ids| - 1 ==> ids[i] in m && m[ids[i]] == ids[i + 1])
    && ids[|ids| - 1] !in m
    && forall x :: x in rest ==> x !in m
  }

  lemma {:induction false} ClimbAlong(m: map<Id, Id>, ids: seq<Id>, k: nat)
    requires k < |ids|
    requires forall i :: 0 <= i < |ids| - 1 ==> ids[i] in m && m[ids[i]] == ids[i + 1]
    ensures Climb(m, ids[0], k) == ids[k]
  {
    if k > 0 {
      ClimbAlong(m, ids, k - 1);
      ClimbOne(m, ids[0], k - 1);
    }
  }

  lemma MoveOne(ids: seq<Id>, rest: seq<Id>)
    requires rest != []
    ensures ids + [rest[0]] + rest[1..] == ids + rest
  {
  }

  lemma {:induction false} BuildOn(f: Forest, ids: seq<Id>, rest: seq<Id>)
    requires BuiltSoFar(f.links, ids, rest) && NoRepeats(ids + rest)
    ensures BuiltSoFar(Run(f, ChainWrites([ids[|ids| - 1]] + rest)).links, ids + rest, [])
    decreases |rest|
  {
    var last := ids[|ids| - 1];
    if rest == [] {
      assert ids + rest == ids;
      assert ChainWrites([last] + rest) == [];
    } else {
      var w := Write(last, rest[0], NoFault);
      assert ([last] + rest)[1..] == [rest[0]] + rest[1..];
      assert ChainWrites([last] + rest) == [w] + ChainWrites([rest[0]] + rest[1..]);
      var all := ids + rest;
      assert all[|ids| - 1] == last && all[|ids|] == rest[0];
      forall n: nat ensures Climb(f.links, rest[0], n) == rest[0] {}
      assert EndsWithin(f.links, rest[0], 15);
      assert Accepts(f.links, w.child, w.parent);
      var f' := WriteStep(f, w);
      var ids', rest' := ids + [rest[0]], rest[1..];
      MoveOne(ids, rest);
      forall i | 0 <= i < |ids'| - 1 ensures ids'[i] in f'.links && f'.links[ids'[i]] == ids'[i + 1] {
        assert all[i] == ids'[i];
      }
      forall x | x in rest' ensures x !in f'.links {
        var j :| 0 <= j < |rest'| && rest'[j] == x;
        assert all[|ids| + 1 + j] == x;
      }
      BuildOn(f', ids', rest');
    }
  }

  lemma WholeChainDepth(m: map<Id, Id>, ids: seq<Id>)
    requires BuiltSoFar(m, ids, [])
    ensures EndsWithin(m, ids[0], |ids| - 1) && Root(m, ids[0]) == ids[|ids| - 1]
    ensures forall n: nat :: n < |ids| - 1 ==> !EndsWithin(m, ids[0], n)
  {
    forall n: nat | n < |ids| ensures Climb(m, ids[0], n) == ids[n] { ClimbAlong(m, ids, n); }
    assert EndsWithin(m, ids[0], |ids| - 1);
    EndsAtRoot(m, ids[0]);
  }

  /** From the empty store, a legal run gives its first id as many links as one
      likes: each write only sees the parent's side. */
  lemma DepthIsUnbounded(ids: seq<Id>)
    requires |ids| > 0 && NoRepeats(ids)
    ensures var m := Run(EMPTY, ChainWrites(ids)).links;
            && EndsWithin(m, ids[0], |ids| - 1) && Root(m, ids[0]) == ids[|ids| - 1]
            && forall n: nat :: n < |ids| - 1 ==> !EndsWithin(m, ids[0], n)
  {
    assert [ids[0]] + ids[1..] == ids;
    BuildOn(EMPTY, [ids[0]], ids[1..]);
    WholeChainDepth(Run(EMPTY, ChainWrites(ids)).links, ids);
  }

  // ---- When the bound is kept ------------------------------------------------------

  /** Every chain is within the walk's bound. */
  ghost predicate Bounded(f: Forest) {
    forall x :: EndsWithin(f.links, x, 16)
  }

  /** A write that takes effect leaves room for all that is below the child: an
      id k links below it, under a parent with at most 15 - k links. */
  ghost predicate RoomyStep(f: Forest, w: Write) {
    Accepts(f.links, w.child, w.parent) && w.fault != ReplaceFails ==>
      forall x, k: nat :: Below(f.links, x, w.child, k) ==>
        k < 16 && EndsWithin(f.links, w.parent, 15 - k)
  }

  /** What one accepted write does to the depth of any id below the child. */
  lemma DescendantWithinIff(f: Forest, w: Write, x: Id, k: nat)
    requires Accepts(f.links, w.child, w.parent) && w.fault != ReplaceFails && Below(f.links, x, w.child, k)
    ensures EndsWithin(WriteStep(f, w).links, x, 16)
            <==> k < 16 && EndsWithin(f.links, w.parent, 15 - k)
  {
    DepthAfterLink(f.links, w.child, w.parent, x, k, 16);
  }

  lemma RoomyKeepsBound(f: Forest, w: Write, x: Id)
    requires Bounded(f) && RoomyStep(f, w)
    ensures EndsWithin(WriteStep(f, w).links, x, 16)
  {
    if Accepts(f.links, w.child, w.parent) && w.fault != ReplaceFails {
      if n: nat :| Climb(f.links, x, n) == w.child {
        var k := FirstVisit(f.links, x, w.child, n);
        DescendantWithinIff(f, w, x, k);
      } else {
        OtherChainsKept(f.links, w.child, w.parent, x);
        var top := Climb(f.links, x, 16);
        assert EndsWithin(f.links, x, 16) && top != w.child;
        assert Climb(WriteStep(f, w).links, x, 16) == top;
      }
    }
  }

  /** One write keeps every chain within the bound iff it leaves room. */
  lemma StepKeepsBoundIff(f: Forest, w: Write)
    requires Bounded(f)
    ensures Bounded(WriteStep(f, w)) <==> RoomyStep(f, w)
  {
    if RoomyStep(f, w) {
      forall x ensures EndsWithin(WriteStep(f, w).links, x, 16) { RoomyKeepsBound(f, w, x); }
    }
    if Bounded(WriteStep(f, w)) && Accepts(f.links, w.child, w.parent) && w.fault != ReplaceFails {
      forall x, k: nat | Below(f.links, x, w.child, k)
        ensures k < 16 && EndsWithin(f.links, w.parent, 15 - k)
      {
        assert EndsWithin(WriteStep(f, w).links, x, 16);
        DescendantWithinIff(f, w, x, k);
      }
    }
  }

  /** A whole run keeps every chain within the bound, in every state, iff each of
      its writes left room when it was made. */
  lemma RunKeepsBoundIff(f: Forest, ws: seq<Write>)
    requires Bounded(f)
    ensures Always(WriteStep, Bounded, f, ws) <==> Admitted(WriteStep, RoomyStep, f, ws)
  {
    forall g, w | Bounded(g) ensures Bounded(WriteStep(g, w)) <==> RoomyStep(g, w) { StepKeepsBoundIff(g, w); }
    AlwaysIff(WriteStep, Bounded, RoomyStep, f, ws);
  }

  /** The states of a run are what its first writes leave. */
  lemma {:induction false} RunIsAfter(f: Forest, ws: seq<Write>, n: nat)
    requires n <= |ws|
    ensures After(WriteStep, f, ws, n) == Run(f, ws[..n])
    decreases n
  {
    if n > 0 {
      RunIsAfter(f, ws, n - 1);
      var before, w := ws[..n - 1], ws[n - 1];
      assert ws[..n] == before + [w];
      RunSplits(f, before, [w]);
      assert Run(Run(f, before), [w]) == Run(WriteStep(Run(f, before), w), []) by { assert [w][1..] == []; }
    }
  }

  // ---- Several children under one parent ------------------------------------

  /** A child of `ws` whose link the guard lets through on `m`. */
  ghost predicate Lands(m: map<Id, Id>, parent: Id, ws: seq<Write>, child: Id) {
    Accepts(m, child, parent) && exists i :: 0 <= i < |ws| && ws[i].child == child && ws[i].fault != ReplaceFails
  }

  lemma SiblingSeesSameParent(f: Forest, w: Write, c: Id)
    ensures var f' := WriteStep(f, w);
            && (Accepts(f'.links, c, w.parent) <==> Accepts(f.links, c, w.parent))
            && (EndsWithin(f.links, w.parent, 15)
                ==> EndsWithin(f'.links, w.parent, 15)
                    && Root(f'.links, w.parent) == Root(f.links, w.parent))
  {
    var f' := WriteStep(f, w);
    if f' != f {
      OtherChainsKept(f.links, w.child, w.parent, w.parent);
      AcceptedParentEnds(f.links, w.child, w.parent);
      RootsAfterLink(f.links, w.child, w.parent, w.parent);
      EndsAtRoot(f.links, w.parent);
      if n: nat :| Climb(f.links, w.parent, n) == c { assert Climb(f'.links, w.parent, n) == c; }
      if n: nat :| Climb(f'.links, w.parent, n) == c { assert Climb(f.links, w.parent, n) == c; }
    }
  }

  /** No sibling's link changes another sibling's verdict, or the parent's root. */
  lemma {:induction false} SiblingsKeepVerdicts(f: Forest, parent: Id, ws: seq<Write>)
    requires forall i :: 0 <= i < |ws| ==> ws[i].parent == parent
    ensures forall x :: Accepts(Run(f, ws).links, x, parent) <==> Accepts(f.links, x, parent)
    ensures EndsWithin(f.links, parent, 15) ==> Root(Run(f, ws).links, parent) == Root(f.links, parent)
    decreases |ws|
  {
    if ws != [] {
      forall c ensures Accepts(WriteStep(f, ws[0]).links, c, parent) <==> Accepts(f.links, c, parent) {
        SiblingSeesSameParent(f, ws[0], c);
      }
      SiblingSeesSameParent(f, ws[0], parent);
      SiblingsKeepVerdicts(WriteStep(f, ws[0]), parent, ws[1..]);
    }
  }

  lemma LandsSplits(f: Forest, parent: Id, ws: seq<Write>, x: Id)
    requires ws != [] && ws[0].parent == parent
    ensures Lands(f.links, parent, ws, x) <==>
            Lands(WriteStep(f, ws[0]).links, parent, ws[1..], x)
            || (Accepts(f.links, x, parent) && ws[0].child == x && ws[0].fault != ReplaceFails)
  {
    SiblingSeesSameParent(f, ws[0], x);
    if i :| 0 <= i < |ws| && ws[i].child == x && ws[i].fault != ReplaceFails {
      if i > 0 { assert ws[1..][i - 1] == ws[i]; }
    }
    if i :| 0 <= i < |ws[1..]| && ws[1..][i].child == x && ws[1..][i].fault != ReplaceFails {
      assert ws[i + 1].child == x;
    }
  }

  /** The writes of one start act as if all were checked at once against the store they found. */
  lemma {:induction false} SiblingsAreIndependent(f: Forest, parent: Id, ws: seq<Write>)
    requires forall i :: 0 <= i < |ws| ==> ws[i].parent == parent
    ensures var m' := Run(f, ws).links;
            forall x :: && (x in m' <==> x in f.links || Lands(f.links, parent, ws, x))
                        && (x in m' ==> m'[x] == if Lands(f.links, parent, ws, x) then parent else f.links[x])
    decreases |ws|
  {
    if ws != [] {
      SiblingsAreIndependent(WriteStep(f, ws[0]), parent, ws[1..]);
      forall x ensures var m' := Run(f, ws).links;
                       && (x in m' <==> x in f.links || Lands(f.links, parent, ws, x))
                       && (x in m' ==> m'[x] == if Lands(f.links, parent, ws, x) then parent else f.links[x])
      {
        LandsSplits(f, parent, ws, x);
      }
    }
  }

  lemma {:induction false} SiblingsMarkRoot(f: Forest, parent: Id, ws: seq<Write>)
    requires forall i :: 0 <= i < |ws| ==> ws[i].parent == parent
    ensures f.marks <= Run(f, ws).marks
    ensures (exists i :: 0 <= i < |ws| && ws[i].fault == NoFault && Accepts(f.links, ws[i].child, parent))
            ==> Root(f.links, parent) in Run(f, ws).marks
    decreases |ws|
  {
    if ws != [] {
      var f', rest := WriteStep(f, ws[0]), ws[1..];
      SiblingsMarkRoot(f', parent, rest);
      if i :| 0 <= i < |ws| && ws[i].fault == NoFault && Accepts(f.links, ws[i].child, parent) {
        if i > 0 {
          SiblingSeesSameParent(f, ws[0], ws[i].child);
          assert rest[i - 1] == ws[i];
        }
      }
    }
  }
}
