/** Python's order on policy keys, where it is defined, and sorting by it. */
module SweepOrder {
  import opened SweepReport

  predicate TextLess(s: string, t: string) {
    t != "" && (s == "" || s[0] < t[0] || (s[0] == t[0] && TextLess(s[1..], t[1..])))
  }

  predicate PartLess(a: Part, b: Part) {
    match (a, b)
    case (PNum(x), PNum(y)) => x < y
    case (PText(s), PText(t)) => TextLess(s, t)
    case _ => false
  }

  /** `<` on two different parts raises unless both are numbers or both are texts. */
  predicate PartsCompare(a: Part, b: Part) {
    a == b || (a.PNum? && b.PNum?) || (a.PText? && b.PText?)
  }

  /** Tuples compare by the first place they differ in. */
  predicate KeyLess(a: Key, b: Key) {
    if a.tool != b.tool then PartLess(a.tool, b.tool) else PartLess(a.caseLabel, b.caseLabel)
  }

  predicate KeysCompare(a: Key, b: Key) {
    if a.tool != b.tool then PartsCompare(a.tool, b.tool) else PartsCompare(a.caseLabel, b.caseLabel)
  }

  /** sorted() raises iff two of the keys do not compare: it has to compare neighbours. */
  predicate Sortable(keys: set<Key>) {
    forall a, b :: a in keys && b in keys ==> KeysCompare(a, b)
  }

  predicate Ascending(ks: seq<Key>) {
    forall i, j :: 0 <= i < j < |ks| ==> KeyLess(ks[i], ks[j])
  }

  // ---- A total order -----------------------------------------------------------

  lemma {:induction false} TextTotal(s: string, t: string)
    ensures TextLess(s, t) || TextLess(t, s) || s == t
    ensures !(TextLess(s, t) && TextLess(t, s)) && !TextLess(s, s)
    decreases |s|
  {
    if s != "" {
      TextTotal(s[1..], s[1..]);
      if t != "" && s[0] == t[0] {
        TextTotal(s[1..], t[1..]);
        if s[1..] == t[1..] { assert s == [s[0]] + s[1..] == t; }
      }
    }
  }

  lemma {:induction false} TextTransitive(s: string, t: string, u: string)
    requires TextLess(s, t) && TextLess(t, u)
    ensures TextLess(s, u)
    decreases |s|
  {
    if s != "" && s[0] == t[0] == u[0] { TextTransitive(s[1..], t[1..], u[1..]); }
  }

  lemma PartTotal(a: Part, b: Part)
    requires PartsCompare(a, b)
    ensures PartLess(a, b) || PartLess(b, a) || a == b
    ensures !(PartLess(a, b) && PartLess(b, a)) && !PartLess(a, a)
  {
    if a.PText? {
      TextTotal(a.s, a.s);
      if b.PText? { TextTotal(a.s, b.s); }
    }
  }

  lemma PartTransitive(a: Part, b: Part, c: Part)
    requires PartLess(a, b) && PartLess(b, c)
    ensures PartLess(a, c)
  {
    if a.PText? { TextTransitive(a.s, b.s, c.s); }
  }

  lemma KeyTotal(a: Key, b: Key)
    requires KeysCompare(a, b)
    ensures KeyLess(a, b) || KeyLess(b, a) || a == b
    ensures !KeyLess(a, a)
  {
    PartTotal(a.caseLabel, a.caseLabel);
    if a.tool != b.tool { PartTotal(a.tool, b.tool); } else { PartTotal(a.caseLabel, b.caseLabel); }
  }

  lemma KeyTransitive(a: Key, b: Key, c: Key)
    requires KeyLess(a, b) && KeyLess(b, c) && KeysCompare(a, b) && KeysCompare(b, c)
    ensures KeyLess(a, c) && KeysCompare(a, c)
  {
    if a.tool == b.tool == c.tool {
      PartTransitive(a.caseLabel, b.caseLabel, c.caseLabel);
    } else if a.tool != b.tool && b.tool != c.tool {
      PartTransitive(a.tool, b.tool, c.tool);
      PartTotal(a.tool, b.tool);
    }
  }

  /** Why comparing neighbours decides it: a list whose neighbours all compare
      and ascend is a list of keys that all compare. */
  lemma {:induction false} NeighboursDecide(ks: seq<Key>, i: nat, j: nat)
    requires i < j < |ks|
    requires forall k :: 0 <= k < |ks| - 1 ==> KeysCompare(ks[k], ks[k + 1]) && KeyLess(ks[k], ks[k + 1])
    ensures KeysCompare(ks[i], ks[j]) && KeyLess(ks[i], ks[j])
    decreases j
  {
    if i < j - 1 {
      NeighboursDecide(ks, i, j - 1);
      KeyTransitive(ks[i], ks[j - 1], ks[j]);
    }
  }

  /** `m` comes first among `keys`. */
  predicate IsLeast(keys: set<Key>, m: Key) {
    m in keys && forall k :: k in keys ==> k == m || KeyLess(m, k)
  }

  lemma {:induction false} LeastExists(keys: set<Key>) returns (m: Key)
    requires keys != {} && Sortable(keys)
    ensures IsLeast(keys, m)
    decreases |keys|
  {
    var a :| a in keys;
    var rest := keys - {a};
    m := a;
    if rest != {} {
      var n := LeastExists(rest);
      KeyTotal(a, n);
      if KeyLess(n, a) {
        m := n;
      } else {
        forall k | k in rest ensures KeyLess(a, k) {
          if k != n { KeyTransitive(a, n, k); }
        }
      }
    }
    forall k | k in keys ensures k == m || KeyLess(m, k) { assert k == a || k in rest; }
  }

  /** All of `ks` comes before all of `keys`. */
  predicate Before(ks: seq<Key>, keys: set<Key>) {
    forall i, k :: 0 <= i < |ks| && k in keys ==> KeyLess(ks[i], k)
  }

  lemma LeastIsNext(ks: seq<Key>, todo: set<Key>, key: Key)
    requires Ascending(ks) && Before(ks, todo) && IsLeast(todo, key)
    ensures key in todo && Ascending(ks + [key]) && Before(ks + [key], todo - {key})
  {
    forall k | k in todo - {key} ensures KeyLess(key, k) { assert k in todo; }
  }

  method SortedKeys(keys: set<Key>) returns (ks: seq<Key>)
    requires Sortable(keys)
    ensures Ascending(ks) && |ks| == |keys| && forall k :: k in ks <==> k in keys
  {
    ks := [];
    var todo := keys;
    while todo != {}
      invariant todo <= keys && |ks| + |todo| == |keys|
      invariant forall k :: k in ks <==> k in keys - todo
      invariant Ascending(ks) && Before(ks, todo)
      decreases |todo|
    {
      ghost var least := LeastExists(todo);
      var key :| IsLeast(todo, key);
      LeastIsNext(ks, todo, key);
      ks := ks + [key];
      todo := todo - {key};
    }
  }
}
