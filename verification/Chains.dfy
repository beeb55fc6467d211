/** Parent-pointer maps: what it means to follow links, and what one new link changes.

    Nothing here knows about files or ids. A map sends a child to its parent; an
    id outside the map ends its chain. The map is finite but may hold loops. */
module Chains {
  import opened Lists

  /** The id `n` links above `c`; stays at the end of the chain once it is reached. */
  function Climb<T(==)>(m: map<T, T>, c: T, n: nat): T {
    if n == 0 || c !in m then c else Climb(m, m[c], n - 1)
  }

  /** The chain from `c` has at most `n` links. */
  predicate EndsWithin<T(==)>(m: map<T, T>, c: T, n: nat) {
    Climb(m, c, n) !in m
  }

  ghost predicate Ends<T>(m: map<T, T>, c: T) {
    exists n: nat :: EndsWithin(m, c, n)
  }

  /** `x` is `c` or one of the ids above it. */
  ghost predicate PassesThrough<T>(m: map<T, T>, c: T, x: T) {
    exists n: nat :: Climb(m, c, n) == x
  }

  ghost predicate OnCycle<T>(m: map<T, T>, c: T) {
    c in m && exists n: nat :: n > 0 && Climb(m, c, n) == c
  }

  ghost predicate Acyclic<T(!new)>(m: map<T, T>) {
    forall c :: !OnCycle(m, c)
  }

  /** The unbounded root: no chain that ends needs more than |m| links. */
  function Root<T(==)>(m: map<T, T>, c: T): T {
    Climb(m, c, |m|)
  }

  /** The first `n` ids of the chain, `c` first. */
  function Prefix<T(==)>(m: map<T, T>, c: T, n: nat): (p: seq<T>)
    ensures |p| == n
    ensures forall i :: 0 <= i < n ==> p[i] == Climb(m, c, i)
  {
    seq(n, i requires 0 <= i < n => Climb(m, c, i))
  }

  // ---- Climbing ----------------------------------------------------------

  lemma {:induction false} ClimbAdd<T>(m: map<T, T>, c: T, i: nat, j: nat)
    ensures Climb(m, Climb(m, c, i), j) == Climb(m, c, i + j)
  {
    if i > 0 && c in m {
      ClimbAdd(m, m[c], i - 1, j);
    } else if c !in m {
      assert Climb(m, c, i) == c == Climb(m, c, j) == Climb(m, c, i + j);
    }
  }

  lemma ClimbOne<T>(m: map<T, T>, c: T, i: nat)
    ensures Climb(m, c, i) in m ==> Climb(m, c, i + 1) == m[Climb(m, c, i)]
    ensures Climb(m, c, i) !in m ==> Climb(m, c, i + 1) == Climb(m, c, i)
  {
    ClimbAdd(m, c, i, 1);
    var x := Climb(m, c, i);
    assert x in m ==> Climb(m, x, 1) == Climb(m, m[x], 0);
  }

  lemma EndStays<T>(m: map<T, T>, c: T, i: nat, j: nat)
    requires EndsWithin(m, c, i) && i <= j
    ensures Climb(m, c, j) == Climb(m, c, i) && EndsWithin(m, c, j)
  {
    ClimbAdd(m, c, i, j - i);
  }

  /** A chain that comes back to an id it can leave never ends. */
  lemma {:induction false} CycleKeepsGoing<T>(m: map<T, T>, c: T, p: nat, n: nat)
    requires c in m && p > 0 && Climb(m, c, p) == c
    ensures Climb(m, c, n) in m
    decreases n
  {
    if n < p {
      if Climb(m, c, n) !in m { EndStays(m, c, n, p); }
    } else {
      ClimbAdd(m, c, p, n - p);
      CycleKeepsGoing(m, c, p, n - p);
    }
  }

  lemma CycleNeverEnds<T>(m: map<T, T>, c: T, k: nat)
    requires OnCycle(m, Climb(m, c, k))
    ensures !Ends(m, c)
  {
    var x := Climb(m, c, k);
    var p: nat :| p > 0 && Climb(m, x, p) == x;
    forall n: nat ensures !EndsWithin(m, c, n) {
      if EndsWithin(m, c, n) {
        EndStays(m, c, n, n + k);
        ClimbAdd(m, c, k, n);
        CycleKeepsGoing(m, x, p, n);
      }
    }
  }

  lemma RepeatIsCycle<T>(m: map<T, T>, c: T, i: nat, j: nat)
    requires i < j && Climb(m, c, i) == Climb(m, c, j) && Climb(m, c, i) in m
    ensures OnCycle(m, Climb(m, c, i))
  {
    ClimbAdd(m, c, i, j - i);
  }

  // ---- Counting ----------------------------------------------------------

  /** More ids than the map has links: two positions coincide. */
  lemma Pigeonhole<T>(m: map<T, T>, c: T, n: nat) returns (i: nat, j: nat)
    requires n > |m|
    requires forall k: nat :: k < n ==> Climb(m, c, k) in m
    ensures i < j < n && Climb(m, c, i) == Climb(m, c, j)
  {
    var p := Prefix(m, c, n);
    if NoRepeats(p) {
      NoRepeatsCount(p);
      SubsetCount((set x | x in p), m.Keys);
      assert false;
    }
    i, j :| 0 <= i < j < n && p[i] == p[j];
  }

  lemma EndsAtRoot<T>(m: map<T, T>, c: T)
    requires Ends(m, c)
    ensures EndsWithin(m, c, |m|) && Root(m, c) !in m
    ensures forall n: nat :: EndsWithin(m, c, n) ==> Climb(m, c, n) == Root(m, c)
  {
    var e: nat :| EndsWithin(m, c, e);
    if Climb(m, c, |m|) in m {
      forall k: nat | k < |m| + 1 ensures Climb(m, c, k) in m {
        if Climb(m, c, k) !in m { EndStays(m, c, k, |m|); }
      }
      var i, j := Pigeonhole(m, c, |m| + 1);
      RepeatIsCycle(m, c, i, j);
      CycleNeverEnds(m, c, i);
      assert false;
    }
    forall n: nat | EndsWithin(m, c, n) ensures Climb(m, c, n) == Root(m, c) {
      EndStays(m, c, if n <= |m| then n else |m|, if n <= |m| then |m| else n);
    }
  }

  /** An id above `c` has no more links left than `c`, and the same root. */
  lemma AboveEndsToo<T>(m: map<T, T>, c: T, x: T, n: nat)
    requires EndsWithin(m, c, n) && PassesThrough(m, c, x)
    ensures EndsWithin(m, x, n) && EndsWithin(m, x, n + 1) && Root(m, x) == Root(m, c)
  {
    var k: nat :| Climb(m, c, k) == x;
    ClimbAdd(m, c, k, n);
    EndStays(m, c, n, k + n);
    EndStays(m, x, n, n + 1);
    EndsAtRoot(m, c);
    EndsAtRoot(m, x);
  }

  lemma BelowEndsOneLater<T>(m: map<T, T>, c: T, n: nat)
    requires c in m && EndsWithin(m, m[c], n)
    ensures EndsWithin(m, c, n + 1) && Root(m, c) == Root(m, m[c])
  {
    assert Climb(m, c, n + 1) == Climb(m, m[c], n);
    assert EndsWithin(m, c, n + 1);
    EndsAtRoot(m, c);
    EndsAtRoot(m, m[c]);
  }

  /** A chain ends unless it runs into a cycle. */
  lemma EndsUnlessCycle<T(!new)>(m: map<T, T>, c: T)
    ensures Ends(m, c) <==> forall k: nat :: !OnCycle(m, Climb(m, c, k))
  {
    if Ends(m, c) {
      forall k: nat ensures !OnCycle(m, Climb(m, c, k)) {
        if OnCycle(m, Climb(m, c, k)) { CycleNeverEnds(m, c, k); }
      }
    } else {
      forall k: nat ensures Climb(m, c, k) in m { assert !EndsWithin(m, c, k); }
      var i, j := Pigeonhole(m, c, |m| + 1);
      RepeatIsCycle(m, c, i, j);
    }
  }

  lemma AcyclicEnds<T(!new)>(m: map<T, T>, c: T)
    requires Acyclic(m)
    ensures Ends(m, c)
  {
    EndsUnlessCycle(m, c);
  }

  /** Every id the chain from `c` visits. */
  ghost function Reached<T>(m: map<T, T>, c: T): set<T> {
    set n: nat | n <= |m| :: Climb(m, c, n)
  }

  lemma {:induction false} ReachedEarly<T(!new)>(m: map<T, T>, c: T, n: nat) returns (k: nat)
    ensures k <= |m| && Climb(m, c, k) == Climb(m, c, n)
    decreases n
  {
    if n <= |m| {
      k := n;
    } else if Ends(m, c) {
      EndsAtRoot(m, c);
      EndStays(m, c, |m|, n);
      k := |m|;
    } else {
      forall k: nat ensures Climb(m, c, k) in m { assert !EndsWithin(m, c, k); }
      var i, j := Pigeonhole(m, c, |m| + 1);
      ClimbAdd(m, c, i, n - j);
      ClimbAdd(m, c, j, n - j);
      k := ReachedEarly(m, c, i + (n - j));
    }
  }

  /** |m| + 1 positions are enough: `Reached` is the whole chain. */
  lemma ReachedIsChain<T(!new)>(m: map<T, T>, c: T, x: T)
    ensures x in Reached(m, c) <==> PassesThrough(m, c, x)
  {
    if PassesThrough(m, c, x) {
      var n: nat :| Climb(m, c, n) == x;
      var k := ReachedEarly(m, c, n);
    }
  }

  // ---- One new link ------------------------------------------------------

  lemma {:induction false} FirstVisit<T>(m: map<T, T>, c: T, x: T, n: nat) returns (k: nat)
    requires Climb(m, c, n) == x
    ensures k <= n && Climb(m, c, k) == x
    ensures forall i: nat :: i < k ==> Climb(m, c, i) != x
    decreases n
  {
    if i: nat :| i < n && Climb(m, c, i) == x {
      k := FirstVisit(m, c, x, i);
    } else {
      k := n;
    }
  }

  /** Below the first visit to `child`, the new link is not seen. */
  lemma {:induction false} UpToChild<T>(m: map<T, T>, child: T, parent: T, x: T, k: nat)
    requires forall i: nat :: i < k ==> Climb(m, x, i) != child
    ensures Climb(m[child := parent], x, k) == Climb(m, x, k)
    decreases k
  {
    if k > 0 {
      UpToChild(m, child, parent, x, k - 1);
      ClimbOne(m, x, k - 1);
      ClimbOne(m[child := parent], x, k - 1);
    }
  }

  /** Frame: an id whose chain misses `child` keeps its whole chain. */
  lemma OtherChainsKept<T>(m: map<T, T>, child: T, parent: T, x: T)
    requires !PassesThrough(m, x, child)
    ensures forall n: nat :: Climb(m[child := parent], x, n) == Climb(m, x, n)
  {
    forall n: nat ensures Climb(m[child := parent], x, n) == Climb(m, x, n) {
      UpToChild(m, child, parent, x, n);
    }
  }

  /** Subtree merge: a chain through `child` goes on with the chain of `parent`. */
  lemma ChainRedirected<T>(m: map<T, T>, child: T, parent: T, x: T, k: nat)
    requires !PassesThrough(m, parent, child)
    requires Climb(m, x, k) == child && forall i: nat :: i < k ==> Climb(m, x, i) != child
    ensures forall i: nat :: i <= k ==> Climb(m[child := parent], x, i) == Climb(m, x, i)
    ensures forall j: nat :: Climb(m[child := parent], x, k + 1 + j) == Climb(m, parent, j)
  {
    var m' := m[child := parent];
    forall i: nat | i <= k ensures Climb(m', x, i) == Climb(m, x, i) {
      UpToChild(m, child, parent, x, i);
    }
    OtherChainsKept(m, child, parent, parent);
    forall j: nat ensures Climb(m', x, k + 1 + j) == Climb(m, parent, j) {
      ClimbAdd(m', x, k, 1 + j);
      assert Climb(m', child, 1 + j) == Climb(m', parent, j);
    }
  }

  /** `x` is `k` links below `child`, counted to where its chain first meets it. */
  ghost predicate Below<T>(m: map<T, T>, x: T, child: T, k: nat) {
    Climb(m, x, k) == child && forall i: nat :: i < k ==> Climb(m, x, i) != child
  }

  lemma NotYetAtChild<T>(m: map<T, T>, x: T, child: T, k: nat, n: nat)
    requires Below(m, x, child, k) && n < k
    ensures Climb(m, x, n) in m
  {
    if Climb(m, x, n) !in m { EndStays(m, x, n, k); }
  }

  /** How deep a new link leaves an id `k` links below the child: `k` links, the
      new one, and the parent's. */
  lemma DepthAfterLink<T>(m: map<T, T>, child: T, parent: T, x: T, k: nat, n: nat)
    requires !PassesThrough(m, parent, child) && Below(m, x, child, k)
    ensures EndsWithin(m[child := parent], x, n) <==> k < n && EndsWithin(m, parent, n - k - 1)
  {
    ChainRedirected(m, child, parent, x, k);
    if n < k {
      NotYetAtChild(m, x, child, k, n);
    } else if n > k {
      var j := n - k - 1;
      assert Climb(m[child := parent], x, k + 1 + j) == Climb(m, parent, j) != child;
    }
  }

  /** Exactly the cycles that avoid `child` survive a link to a parent whose chain avoids it. */
  lemma CyclesAfterLink<T>(m: map<T, T>, child: T, parent: T, x: T)
    requires !PassesThrough(m, parent, child)
    ensures OnCycle(m[child := parent], x) <==> OnCycle(m, x) && !PassesThrough(m, x, child)
  {
    var m' := m[child := parent];
    if PassesThrough(m, x, child) {
      var n: nat :| Climb(m, x, n) == child;
      var k := FirstVisit(m, x, child, n);
      ChainRedirected(m, child, parent, x, k);
      forall l: nat | l > k ensures Climb(m', x, l) != child {
        assert Climb(m', x, k + 1 + (l - k - 1)) == Climb(m, parent, l - k - 1);
      }
      if OnCycle(m', x) {
        // Going round once more would come back to the child.
        var p: nat :| p > 0 && Climb(m', x, p) == x;
        RoundAgain(m', x, p, k);
      }
    } else {
      OtherChainsKept(m, child, parent, x);
      assert x != child by { assert Climb(m, x, 0) == x; }
      if OnCycle(m', x) {
        var p: nat :| p > 0 && Climb(m', x, p) == x;
        assert Climb(m, x, p) == x;
      }
      if OnCycle(m, x) {
        var p: nat :| p > 0 && Climb(m, x, p) == x;
        assert Climb(m', x, p) == x;
      }
    }
  }

  lemma RoundAgain<T>(m: map<T, T>, x: T, p: nat, k: nat)
    requires p > 0 && Climb(m, x, p) == x
    ensures exists l: nat :: l > k && Climb(m, x, l) == Climb(m, x, k)
  {
    ClimbAdd(m, x, p, k);
    assert Climb(m, x, p + k) == Climb(m, x, k);
  }

  /** What the guard has to test: a link keeps a forest acyclic iff the
      parent's chain, the parent included, misses the child. */
  lemma LinkKeepsForestIff<T(!new)>(m: map<T, T>, child: T, parent: T)
    requires Acyclic(m)
    ensures Acyclic(m[child := parent]) <==> !PassesThrough(m, parent, child)
  {
    var m' := m[child := parent];
    if PassesThrough(m, parent, child) {
      var n: nat :| Climb(m, parent, n) == child;
      var k := FirstVisit(m, parent, child, n);
      UpToChild(m, child, parent, parent, k);
      assert Climb(m', child, k + 1) == child;
      assert OnCycle(m', child);
    } else {
      forall x ensures !OnCycle(m', x) { CyclesAfterLink(m, child, parent, x); }
    }
  }

  /** Where every id's chain ends after an accepted link, loops elsewhere or not. */
  lemma RootsAfterLink<T(!new)>(m: map<T, T>, child: T, parent: T, x: T)
    requires !PassesThrough(m, parent, child) && Ends(m, parent)
    ensures var m' := m[child := parent];
            && (PassesThrough(m, x, child) ==> Ends(m', x) && Root(m', x) == Root(m, parent))
            && (!PassesThrough(m, x, child) ==> (Ends(m', x) <==> Ends(m, x)))
            && (!PassesThrough(m, x, child) && Ends(m, x) ==> Root(m', x) == Root(m, x))
    ensures Root(m, parent) !in m[child := parent]
  {
    var m' := m[child := parent];
    EndsAtRoot(m, parent);
    assert Root(m, parent) != child;
    if PassesThrough(m, x, child) {
      var n: nat :| Climb(m, x, n) == child;
      var k := FirstVisit(m, x, child, n);
      ChainRedirected(m, child, parent, x, k);
      assert EndsWithin(m', x, k + 1 + |m|);
      EndsAtRoot(m', x);
    } else {
      OtherChainsKept(m, child, parent, x);
      if n: nat :| EndsWithin(m, x, n) {
        assert EndsWithin(m', x, n);
        EndsAtRoot(m, x);
        EndsAtRoot(m', x);
      }
      if n: nat :| EndsWithin(m', x, n) { assert EndsWithin(m, x, n); }
    }
  }

  // ---- Families: same root means connected --------------------------------

  ghost predicate Adjacent<T>(m: map<T, T>, a: T, b: T) {
    (a in m && m[a] == b) || (b in m && m[b] == a)
  }

  ghost predicate IsTrail<T>(m: map<T, T>, p: seq<T>, a: T, b: T) {
    && |p| > 0 && p[0] == a && p[|p| - 1] == b
    && forall i :: 0 <= i < |p| - 1 ==> Adjacent(m, p[i], p[i + 1])
  }

  /** `a` and `b` are joined by links, in whatever direction each is walked. */
  ghost predicate Connected<T(!new)>(m: map<T, T>, a: T, b: T) {
    exists p: seq<T> :: IsTrail(m, p, a, b)
  }

  lemma {:induction false} ChainConnects<T(!new)>(m: map<T, T>, a: T, n: nat)
    ensures Connected(m, a, Climb(m, a, n)) && Connected(m, Climb(m, a, n), a)
  {
    if n == 0 || a !in m {
      assert IsTrail(m, [a], a, a);
    } else {
      var b := Climb(m, a, n);
      ChainConnects(m, m[a], n - 1);
      var up :| IsTrail(m, up, m[a], b);
      var down :| IsTrail(m, down, b, m[a]);
      assert IsTrail(m, [a] + up, a, b);
      assert IsTrail(m, down + [a], b, a);
    }
  }

  lemma ConnectedTransitive<T(!new)>(m: map<T, T>, a: T, b: T, c: T)
    requires Connected(m, a, b) && Connected(m, b, c)
    ensures Connected(m, a, c)
  {
    var p :| IsTrail(m, p, a, b);
    var q :| IsTrail(m, q, b, c);
    var r := p + q[1..];
    forall i | 0 <= i < |r| - 1 ensures Adjacent(m, r[i], r[i + 1]) {
      if i == |p| - 1 {
        assert r[i] == q[0] && r[i + 1] == q[1];
      } else if i >= |p| {
        assert r[i] == q[i - |p| + 1] && r[i + 1] == q[i - |p| + 2];
      }
    }
    assert IsTrail(m, r, a, c);
  }

  lemma LinkKeepsRoot<T(!new)>(m: map<T, T>, a: T)
    requires Acyclic(m) && a in m
    ensures Root(m, m[a]) == Root(m, a)
  {
    AcyclicEnds(m, a);
    EndsAtRoot(m, a);
    EndStays(m, a, |m|, |m| + 1);
    assert Climb(m, a, |m| + 1) == Climb(m, m[a], |m|);
  }

  lemma {:induction false} TrailKeepsRoot<T(!new)>(m: map<T, T>, p: seq<T>, a: T, b: T)
    requires Acyclic(m) && IsTrail(m, p, a, b)
    ensures Root(m, a) == Root(m, b)
  {
    if |p| > 1 {
      assert Adjacent(m, p[0], p[1]);
      LinkKeepsRoot(m, if a in m && m[a] == p[1] then a else p[1]);
      assert IsTrail(m, p[1..], p[1], b);
      TrailKeepsRoot(m, p[1..], p[1], b);
    }
  }

  /** In a forest the root names the family: same root iff joined by links. */
  lemma SameRootIffConnected<T(!new)>(m: map<T, T>, a: T, b: T)
    requires Acyclic(m)
    ensures Root(m, a) == Root(m, b) <==> Connected(m, a, b)
  {
    if Root(m, a) == Root(m, b) {
      ChainConnects(m, a, |m|);
      ChainConnects(m, b, |m|);
      ConnectedTransitive(m, a, Root(m, a), b);
    }
    if Connected(m, a, b) {
      var p :| IsTrail(m, p, a, b);
      TrailKeepsRoot(m, p, a, b);
    }
  }

  // ---- A bounded walk ------------------------------------------------------

  datatype Problem = Clean | Loop | TooDeep

  /** Where a walk that reads one link at a time stops: at the end of the chain,
      at an id it has seen, or at an unseen id once `max` links are behind it. */
  ghost predicate StopsAt<T>(m: map<T, T>, c: T, max: nat, ids: seq<T>, problem: Problem) {
    && 0 < |ids| <= max + 1
    && ids == Prefix(m, c, |ids|)
    && NoRepeats(ids)
    && var last := ids[|ids| - 1];
       match problem
       case Clean => last !in m
       case Loop => last in m && m[last] in ids
       case TooDeep => last in m && m[last] !in ids && |ids| == max + 1
  }

  lemma {:induction false} WalkedChainIsClosed<T>(m: map<T, T>, c: T, ids: seq<T>, n: nat)
    requires 0 < |ids| && ids == Prefix(m, c, |ids|)
    requires ids[|ids| - 1] in m ==> m[ids[|ids| - 1]] in ids
    ensures Climb(m, c, n) in ids
    decreases n
  {
    if n < |ids| {
      assert ids[n] == Climb(m, c, n);
    } else {
      WalkedChainIsClosed(m, c, ids, n - 1);
      var i :| 0 <= i < |ids| && ids[i] == Climb(m, c, n - 1);
      ClimbOne(m, c, n - 1);
      ClimbOne(m, c, i);
      if i + 1 < |ids| { assert ids[i + 1] == Climb(m, c, n); }
    }
  }

  /** A walk that stopped cleanly or on a loop saw exactly the ids of the chain. */
  lemma WalkSawAll<T(!new)>(m: map<T, T>, c: T, max: nat, ids: seq<T>, problem: Problem)
    requires StopsAt(m, c, max, ids, problem) && problem != TooDeep
    ensures forall x :: x in ids <==> PassesThrough(m, c, x)
    ensures Reached(m, c) == (set x | x in ids) && |Reached(m, c)| == |ids|
  {
    forall x ensures (x in ids <==> PassesThrough(m, c, x)) && (x in ids <==> x in Reached(m, c)) {
      ReachedIsChain(m, c, x);
      if x in ids {
        var i :| 0 <= i < |ids| && ids[i] == x;
        assert Climb(m, c, i) == x;
      }
      if n: nat :| Climb(m, c, n) == x { WalkedChainIsClosed(m, c, ids, n); }
    }
    NoRepeatsCount(ids);
  }

  /** The three verdicts, for every map: a clean chain of at most `max` links; a
      chain that never ends and visits at most max + 1 ids; at least max + 2 ids. */
  lemma WalkClassifies<T(!new)>(m: map<T, T>, c: T, max: nat, ids: seq<T>, problem: Problem)
    requires StopsAt(m, c, max, ids, problem)
    ensures problem == Clean <==> EndsWithin(m, c, max)
    ensures problem == Loop <==> !Ends(m, c) && |Reached(m, c)| <= max + 1
    ensures problem == TooDeep <==> |Reached(m, c)| >= max + 2
    ensures problem == Clean ==> ids[|ids| - 1] == Root(m, c)
  {
    var k := |ids| - 1;
    var last := ids[k];
    assert last == Climb(m, c, k);
    if problem == TooDeep {
      var more := ids + [m[last]];
      ClimbOne(m, c, k);
      assert NoRepeats(more);
      NoRepeatsCount(more);
      forall x | x in more ensures x in Reached(m, c) {
        var i :| 0 <= i < |more| && more[i] == x;
        assert Climb(m, c, i) == x;
        ReachedIsChain(m, c, x);
      }
      SubsetCount((set x | x in more), Reached(m, c));
    } else {
      WalkSawAll(m, c, max, ids, problem);
      if problem == Clean {
        EndStays(m, c, k, max);
        EndsAtRoot(m, c);
      } else {
        ClimbOne(m, c, k);
        var i :| 0 <= i < |ids| && ids[i] == m[last];
        assert Climb(m, c, i) == Climb(m, c, k + 1);
        if Climb(m, c, i) !in m { EndStays(m, c, i, k); }
        RepeatIsCycle(m, c, i, k + 1);
        CycleNeverEnds(m, c, i);
      }
    }
  }
}
