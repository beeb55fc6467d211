/** Lists without repetition, permutations, and concatenating a list of lists. */
module Lists {

  ghost predicate NoRepeats<T>(s: seq<T>) {
    forall i, j :: 0 <= i < j < |s| ==> s[i] != s[j]
  }

  lemma {:induction false} NoRepeatsCount<T>(s: seq<T>)
    requires NoRepeats(s)
    ensures |set x | x in s| == |s|
  {
    if s != [] {
      var k := |s| - 1;
      NoRepeatsCount(s[..k]);
      assert (set x | x in s) == (set x | x in s[..k]) + {s[k]};
    }
  }

  lemma SubsetCount<T>(a: set<T>, b: set<T>)
    requires a <= b
    ensures |a| <= |b|
  {
    assert b == a + (b - a);
  }

  // ---- The same elements in another order -----------------------------------------

  function Mapped<A, B>(f: A -> B, s: seq<A>): (t: seq<B>)
    ensures |t| == |s| && forall i :: 0 <= i < |s| ==> t[i] == f(s[i])
  {
    seq(|s|, i requires 0 <= i < |s| => f(s[i]))
  }

  function Without<T>(s: seq<T>, i: nat): seq<T>
    requires i < |s|
  {
    s[..i] + s[i + 1..]
  }

  lemma RemoveAt<T>(s: seq<T>, i: nat)
    requires i < |s|
    ensures multiset(s) == multiset(Without(s, i)) + multiset{s[i]}
  {
    assert s == s[..i] + [s[i]] + s[i + 1..];
  }

  lemma MappedWithout<A, B>(f: A -> B, s: seq<A>, i: nat)
    requires i < |s|
    ensures Mapped(f, Without(s, i)) == Without(Mapped(f, s), i)
  {
  }

  lemma RemoveSame<T>(a: seq<T>, b: seq<T>) returns (i: nat)
    requires multiset(a) == multiset(b) && a != []
    ensures i < |b| && b[i] == a[0] && multiset(Without(a, 0)) == multiset(Without(b, i))
  {
    assert a[0] in multiset(b);
    i :| 0 <= i < |b| && b[i] == a[0];
    RemoveAt(a, 0);
    RemoveAt(b, i);
    assert multiset(Without(a, 0)) == multiset(a) - multiset{a[0]};
    assert multiset(Without(b, i)) == multiset(b) - multiset{b[i]};
  }

  /** Mapping keeps permutations. */
  lemma {:induction false} MappedPermutation<A, B>(f: A -> B, a: seq<A>, b: seq<A>)
    requires multiset(a) == multiset(b)
    ensures multiset(Mapped(f, a)) == multiset(Mapped(f, b))
    decreases |a|
  {
    if a == [] {
      assert |multiset(b)| == 0;
    } else {
      var i := RemoveSame(a, b);
      MappedPermutation(f, Without(a, 0), Without(b, i));
      MappedWithout(f, a, 0);
      MappedWithout(f, b, i);
      RemoveAt(Mapped(f, a), 0);
      RemoveAt(Mapped(f, b), i);
    }
  }

  // ---- Flattening ------------------------------------------------------------------

  function Flat<T>(parts: seq<seq<T>>): seq<T> {
    if parts == [] then [] else Flat(parts[..|parts| - 1]) + parts[|parts| - 1]
  }

  lemma FlatGrows<T>(parts: seq<seq<T>>, i: nat)
    requires i < |parts|
    ensures Flat(parts[..i + 1]) == Flat(parts[..i]) + parts[i]
  {
    assert parts[..i + 1][..i] == parts[..i];
  }

  ghost predicate AllEmpty<T>(parts: seq<seq<T>>, n: nat)
    requires n <= |parts|
  {
    forall i :: 0 <= i < n ==> parts[i] == []
  }

  lemma {:induction false} FlatEmptyUpTo<T>(parts: seq<seq<T>>, n: nat)
    requires n <= |parts|
    ensures Flat(parts[..n]) == [] <==> AllEmpty(parts, n)
    decreases n
  {
    if n > 0 {
      FlatEmptyUpTo(parts, n - 1);
      FlatGrows(parts, n - 1);
      assert AllEmpty(parts, n) <==> AllEmpty(parts, n - 1) && parts[n - 1] == [];
    }
  }

  lemma FlatEmptyIff<T>(parts: seq<seq<T>>)
    ensures Flat(parts) == [] <==> forall i :: 0 <= i < |parts| ==> parts[i] == []
  {
    FlatEmptyUpTo(parts, |parts|);
    assert parts[..|parts|] == parts;
  }
}
