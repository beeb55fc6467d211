/** Runs of any step function, and what follows for all of a run from one step. */
module Runs {

  /** The state once the first `n` events have happened. */
  function After<S, E>(step: (S, E) -> S, s: S, es: seq<E>, n: nat): S
    requires n <= |es|
    decreases n
  {
    if n == 0 then s else step(After(step, s, es, n - 1), es[n - 1])
  }

  /** What the first `n` events put out, in order. */
  function Log<S, E, W>(step: (S, E) -> S, out: (S, E) -> seq<W>, s: S, es: seq<E>, n: nat): seq<W>
    requires n <= |es|
    decreases n
  {
    if n == 0 then [] else Log(step, out, s, es, n - 1) + out(After(step, s, es, n - 1), es[n - 1])
  }

  /** Every event of the run is admitted by the state it meets. */
  ghost predicate Admitted<S, E>(step: (S, E) -> S, ok: (S, E) -> bool, s: S, es: seq<E>) {
    forall n :: 0 <= n < |es| ==> ok(After(step, s, es, n), es[n])
  }

  ghost predicate Always<S, E>(step: (S, E) -> S, inv: S -> bool, s: S, es: seq<E>) {
    forall n :: 0 <= n <= |es| ==> inv(After(step, s, es, n))
  }

  /** Induction over a run: `inv` may speak of how far the run has come. */
  lemma {:induction false} InvariantAt<S(!new), E(!new)>(
      step: (S, E) -> S, inv: (S, nat) -> bool, s: S, es: seq<E>, n: nat)
    requires inv(s, 0) && n <= |es|
    requires forall k: nat :: k < |es| && inv(After(step, s, es, k), k) ==>
               inv(step(After(step, s, es, k), es[k]), k + 1)
    ensures inv(After(step, s, es, n), n)
    decreases n
  {
    if n > 0 { InvariantAt(step, inv, s, es, n - 1); }
  }

  /** A run of two lists is a run of the one and then of the other. */
  lemma {:induction false} AfterBoth<S, E>(step: (S, E) -> S, s: S, es: seq<E>, fs: seq<E>, n: nat)
    requires n <= |fs|
    ensures After(step, s, es + fs, |es| + n) == After(step, After(step, s, es, |es|), fs, n)
    decreases n
  {
    if n == 0 {
      AfterFirst(step, s, es, fs, |es|);
    } else {
      AfterBoth(step, s, es, fs, n - 1);
      assert (es + fs)[|es| + n - 1] == fs[n - 1];
    }
  }

  lemma AfterThree<S, E>(step: (S, E) -> S, s: S, a: seq<E>, b: seq<E>, c: seq<E>, t: S, u: S)
    requires t == After(step, s, a, |a|) && u == After(step, t, b, |b|)
    ensures After(step, s, a + b + c, |a| + |b| + |c|) == After(step, u, c, |c|)
  {
    var ab := a + b;
    AfterBoth(step, s, a, b, |b|);
    assert |ab| == |a| + |b| && After(step, s, ab, |ab|) == u;
    AfterBoth(step, s, ab, c, |c|);
  }

  lemma AfterOne<S, E>(step: (S, E) -> S, s: S, e: E)
    ensures After(step, s, [e], 1) == step(s, e)
  {
    assert After(step, s, [e], 0) == s;
  }

  lemma AfterTwo<S, E>(step: (S, E) -> S, s: S, a: E, b: E)
    ensures After(step, s, [a, b], 2) == step(step(s, a), b)
  {
    assert After(step, s, [a, b], 0) == s;
    assert After(step, s, [a, b], 1) == step(s, a);
  }

  lemma {:induction false} AfterFirst<S, E>(step: (S, E) -> S, s: S, es: seq<E>, fs: seq<E>, n: nat)
    requires n <= |es|
    ensures After(step, s, es + fs, n) == After(step, s, es, n)
    decreases n
  {
    if n > 0 {
      AfterFirst(step, s, es, fs, n - 1);
      assert (es + fs)[n - 1] == es[n - 1];
    }
  }

  /** What every admitted step keeps, together with the log so far, every admitted run keeps. */
  lemma {:induction false} LogInvariant<S(!new), E(!new), W(!new)>(
      step: (S, E) -> S, out: (S, E) -> seq<W>, inv: (S, seq<W>) -> bool, ok: (S, E) -> bool, s: S, es: seq<E>, n: nat)
    requires inv(s, []) && Admitted(step, ok, s, es) && n <= |es|
    requires forall x, ws, e :: inv(x, ws) && ok(x, e) ==> inv(step(x, e), ws + out(x, e))
    ensures inv(After(step, s, es, n), Log(step, out, s, es, n))
    decreases n
  {
    if n > 0 { LogInvariant(step, out, inv, ok, s, es, n - 1); }
  }

  lemma {:induction false} InvariantUpTo<S(!new), E(!new)>(
      step: (S, E) -> S, inv: S -> bool, ok: (S, E) -> bool, s: S, es: seq<E>, n: nat)
    requires inv(s) && Admitted(step, ok, s, es) && n <= |es|
    requires forall x, e :: inv(x) && ok(x, e) ==> inv(step(x, e))
    ensures inv(After(step, s, es, n))
    decreases n
  {
    if n > 0 { InvariantUpTo(step, inv, ok, s, es, n - 1); }
  }

  lemma Invariant<S(!new), E(!new)>(step: (S, E) -> S, inv: S -> bool, ok: (S, E) -> bool, s: S, es: seq<E>)
    requires inv(s) && Admitted(step, ok, s, es)
    requires forall x, e :: inv(x) && ok(x, e) ==> inv(step(x, e))
    ensures Always(step, inv, s, es)
  {
    forall n | 0 <= n <= |es| ensures inv(After(step, s, es, n)) { InvariantUpTo(step, inv, ok, s, es, n); }
  }

  /** Where one step keeps `inv` exactly when it is admitted, a run keeps it
      always exactly when every event of it is admitted. */
  lemma AlwaysIff<S(!new), E(!new)>(step: (S, E) -> S, inv: S -> bool, ok: (S, E) -> bool, s: S, es: seq<E>)
    requires inv(s)
    requires forall x, e :: inv(x) ==> (inv(step(x, e)) <==> ok(x, e))
    ensures Always(step, inv, s, es) <==> Admitted(step, ok, s, es)
  {
    if Admitted(step, ok, s, es) { Invariant(step, inv, ok, s, es); }
    if Always(step, inv, s, es) {
      forall n | 0 <= n < |es| ensures ok(After(step, s, es, n), es[n]) {
        assert inv(After(step, s, es, n)) && inv(After(step, s, es, n + 1));
      }
    }
  }
}
