/** Re-judging a catalog sweep against its route policy. */
module SweepJudge {
  import opened Text
  import opened Lists
  import opened Json
  import opened SweepReport
  import opened SweepOrder

  /** What one result counts as. */
  datatype Kind =
    | NoRow | BadLedger | Refusal | NotPassed
    | RefusedShared | RefusedPending | Strict | Tolerant
    | Raises

  datatype Failure = Judged(ofResult: Option<Key>, kind: Kind) | NoResult(key: Key)

  datatype Summary = Summary(
    exercised: nat, routes: nat, shared: nat, pending: nat, strict: nat, tolerant: nat, errors: nat)

  /** The exit: 0 for Pass, 1 for Fail and for Unreadable, a traceback for Raised. */
  datatype Verdict = Unreadable | Raised | Fail(summary: Summary) | Pass(summary: Summary)

  function Ledger(row: PolicyRow, r: Result): Kind {
    if r.passed && r.noMembers then Raises
    else if r.passed && r.disclosed then (if row.cls.SharedKeyOnly? then RefusedShared else RefusedPending)
    else if row.named then BadLedger
    else Raises
  }

  function Allowlisted(row: PolicyRow, r: Result): Kind {
    if r.refusal || !r.passed then (if !row.named then Raises else if r.refusal then Refusal else NotPassed)
    else if row.strict then Strict
    else Tolerant
  }

  function Classify(policy: map<Key, PolicyRow>, r: Result): Kind {
    if r.key.None? then Raises
    else if r.key.value !in policy then NoRow
    else
      var row := policy[r.key.value];
      if r.route.None? || row.cls.Unhashable? then Raises
      else if row.cls.OtherClass? then Allowlisted(row, r)
      else Ledger(row, r)
  }

  function Kinds(policy: map<Key, PolicyRow>, results: seq<Result>): (ks: seq<Kind>)
    ensures |ks| == |results| && forall i :: 0 <= i < |results| ==> ks[i] == Classify(policy, results[i])
  {
    seq(|results|, i requires 0 <= i < |results| => Classify(policy, results[i]))
  }

  /** The keys of the first `n` results. */
  function Seen(results: seq<Result>, n: nat): set<Key>
    requires n <= |results|
  {
    if n == 0 then {}
    else Seen(results, n - 1) + if results[n - 1].key.Some? then {results[n - 1].key.value} else {}
  }

  /** The result's route counts: it has a policy row, and a route with a hash. */
  predicate Routed(policy: map<Key, PolicyRow>, r: Result) {
    r.key.Some? && r.key.value in policy && r.route.Some?
  }

  /** The routes of the first `n` results that have a policy row. */
  function Routes(policy: map<Key, PolicyRow>, results: seq<Result>, n: nat): set<Part>
    requires n <= |results|
  {
    if n == 0 then {}
    else Routes(policy, results, n - 1) + if Routed(policy, results[n - 1]) then {results[n - 1].route.value} else {}
  }

  /** How many of the first `n` kinds are `k`. */
  function Count(ks: seq<Kind>, k: Kind, n: nat): nat
    requires n <= |ks|
  {
    if n == 0 then 0 else Count(ks, k, n - 1) + if ks[n - 1] == k then 1 else 0
  }

  predicate IsError(k: Kind) {
    k == NoRow || k == BadLedger || k == Refusal || k == NotPassed
  }

  /** One result: its counter goes up. */
  function Bump(s: Summary, k: Kind): Summary {
    var s := s.(exercised := s.exercised + 1);
    match k
    case RefusedShared => s.(shared := s.shared + 1)
    case RefusedPending => s.(pending := s.pending + 1)
    case Strict => s.(strict := s.strict + 1)
    case Tolerant => s.(tolerant := s.tolerant + 1)
    case Raises => s
    case _ => s.(errors := s.errors + 1)
  }

  /** The counters after the first `n` results. */
  function CountKinds(ks: seq<Kind>, n: nat): Summary
    requires n <= |ks|
  {
    if n == 0 then Summary(0, 0, 0, 0, 0, 0, 0) else Bump(CountKinds(ks, n - 1), ks[n - 1])
  }

  /** The policy rows without a result. */
  function Unswept(policy: map<Key, PolicyRow>, results: seq<Result>): set<Key> {
    policy.Keys - Seen(results, |results|)
  }

  /** The printed summary, from the kinds and the sizes of the route and missing-row sets. */
  function Totals(ks: seq<Kind>, routes: nat, missing: nat): Summary {
    var s := CountKinds(ks, |ks|);
    s.(routes := routes, errors := s.errors + missing)
  }

  /** What ends the judge after the results: policy keys that do not sort, or a
      row without a result that lacks what its failure line prints. */
  predicate RowsRaise(policy: map<Key, PolicyRow>, unswept: set<Key>) {
    !Sortable(policy.Keys) || exists k :: k in unswept && k in policy && !policy[k].named
  }

  function VerdictOf(ks: seq<Kind>, routes: nat, missing: nat, rowsRaise: bool): Verdict {
    if Raises in ks || rowsRaise then Raised
    else if Totals(ks, routes, missing).errors == 0 then Pass(Totals(ks, routes, missing))
    else Fail(Totals(ks, routes, missing))
  }

  function Judgement(policy: map<Key, PolicyRow>, results: seq<Result>): Verdict {
    var unswept := Unswept(policy, results);
    VerdictOf(Kinds(policy, results), |Routes(policy, results, |results|)|, |unswept|, RowsRaise(policy, unswept))
  }

  /** The verdict on two files that load. */
  function JudgedFiles(policyFile: Json, reportFile: Json): Verdict {
    match (ReadPolicy(policyFile), ReadReport(reportFile))
    case (Some(policy), Some(results)) => Judgement(policy, results)
    case _ => Raised
  }

  /** A line for each of the first `n` results that is an error. */
  function ErrorLines(results: seq<Result>, ks: seq<Kind>, n: nat): seq<Failure>
    requires n <= |results| == |ks|
  {
    if n == 0 then []
    else ErrorLines(results, ks, n - 1) + if IsError(ks[n - 1]) then [Judged(results[n - 1].key, ks[n - 1])] else []
  }

  // ---- The judge -----------------------------------------------------------

  /** Each counter is how many results are of its kind. */
  lemma {:induction false} CountersCount(ks: seq<Kind>, n: nat)
    requires n <= |ks|
    ensures CountKinds(ks, n) ==
            Summary(n, 0, Count(ks, RefusedShared, n), Count(ks, RefusedPending, n), Count(ks, Strict, n),
                    Count(ks, Tolerant, n),
                    Count(ks, NoRow, n) + Count(ks, BadLedger, n) + Count(ks, Refusal, n) + Count(ks, NotPassed, n))
    decreases n
  {
    if n > 0 { CountersCount(ks, n - 1); }
  }

  lemma {:induction false} ErrorLineCount(results: seq<Result>, ks: seq<Kind>, n: nat)
    requires n <= |results| == |ks|
    ensures |ErrorLines(results, ks, n)| == CountKinds(ks, n).errors
    decreases n
  {
    if n > 0 {
      ErrorLineCount(results, ks, n - 1);
    }
  }

  method JudgeOne(policy: map<Key, PolicyRow>, r: Result) returns (k: Kind)
    ensures k == Classify(policy, r)
  {
    if r.key.None? { return Raises; }
    if r.key.value !in policy { return NoRow; }
    var row := policy[r.key.value];
    if r.route.None? || row.cls == Unhashable { return Raises; }
    if row.cls != OtherClass {
      if r.passed && r.noMembers { return Raises; }
      if r.passed && r.disclosed { return if row.cls == SharedKeyOnly then RefusedShared else RefusedPending; }
      return if row.named then BadLedger else Raises;
    }
    if r.refusal { return if row.named then Refusal else Raises; }
    if !r.passed { return if row.named then NotPassed else Raises; }
    return if row.strict then Strict else Tolerant;
  }

  method JudgeResults(policy: map<Key, PolicyRow>, results: seq<Result>)
    returns (raised: bool, s: Summary, routes: set<Part>, seen: set<Key>, failures: seq<Failure>)
    ensures raised <==> Raises in Kinds(policy, results)
    ensures !raised ==> s == CountKinds(Kinds(policy, results), |results|)
    ensures !raised ==> seen == Seen(results, |results|) && routes == Routes(policy, results, |results|)
    ensures !raised ==> failures == ErrorLines(results, Kinds(policy, results), |results|)
  {
    ghost var ks := Kinds(policy, results);
    raised, s, routes, seen, failures := false, Summary(0, 0, 0, 0, 0, 0, 0), {}, {}, [];
    for i := 0 to |results|
      invariant s == CountKinds(ks, i) && failures == ErrorLines(results, ks, i)
      invariant seen == Seen(results, i) && routes == Routes(policy, results, i)
      invariant forall j :: 0 <= j < i ==> ks[j] != Raises
    {
      var res := results[i];
      var k := JudgeOne(policy, res);
      if k == Raises {
        assert ks[i] == Raises;
        raised := true;
        return;
      }
      seen := seen + {res.key.value};
      if res.key.value in policy { routes := routes + {res.route.value}; }
      s := Bump(s, k);
      if IsError(k) { failures := failures + [Judged(res.key, k)]; }
    }
  }

  /** `missing` has a line for every policy row without a result, in key order. */
  ghost predicate IsMissing(policy: map<Key, PolicyRow>, seen: set<Key>, missing: seq<Failure>) {
    exists ks :: InOrder(ks, policy.Keys - seen) && missing == NoResults(ks)
  }

  ghost predicate InOrder(ks: seq<Key>, keys: set<Key>) {
    Ascending(ks) && |ks| == |keys| && forall k :: k in ks <==> k in keys
  }

  function NoResults(ks: seq<Key>): (fs: seq<Failure>)
    ensures |fs| == |ks| && forall i :: 0 <= i < |ks| ==> fs[i] == NoResult(ks[i])
  {
    seq(|ks|, i requires 0 <= i < |ks| => NoResult(ks[i]))
  }

  /** The keys of the first `n` that were not seen. */
  function Unseen(ks: seq<Key>, seen: set<Key>, n: nat): seq<Key>
    requires n <= |ks|
  {
    if n == 0 then [] else Unseen(ks, seen, n - 1) + if ks[n - 1] in seen then [] else [ks[n - 1]]
  }

  lemma {:induction false} UnseenAre(ks: seq<Key>, seen: set<Key>, n: nat, k: Key)
    requires n <= |ks|
    ensures k in Unseen(ks, seen, n) <==> k in ks[..n] && k !in seen
    decreases n
  {
    if n > 0 {
      UnseenAre(ks, seen, n - 1, k);
      assert ks[..n] == ks[..n - 1] + [ks[n - 1]];
    }
  }

  lemma {:induction false} UnseenAscend(ks: seq<Key>, seen: set<Key>, n: nat)
    requires Ascending(ks) && n <= |ks|
    ensures Ascending(Unseen(ks, seen, n))
    decreases n
  {
    if n > 0 {
      var before := Unseen(ks, seen, n - 1);
      UnseenAscend(ks, seen, n - 1);
      forall i | 0 <= i < |before| ensures KeyLess(before[i], ks[n - 1]) {
        UnseenAre(ks, seen, n - 1, before[i]);
        var j :| 0 <= j < n - 1 && ks[..n - 1][j] == before[i];
        assert ks[j] == before[i];
      }
    }
  }

  predicate Printable(policy: map<Key, PolicyRow>, seen: set<Key>, k: Key) {
    k in seen || (k in policy && policy[k].named)
  }

  lemma UnseenGrows(ks: seq<Key>, seen: set<Key>, n: nat)
    requires n < |ks|
    ensures NoResults(Unseen(ks, seen, n + 1)) ==
            NoResults(Unseen(ks, seen, n)) + if ks[n] in seen then [] else [NoResult(ks[n])]
  {
  }

  /** The loop over the sorted rows; it ends at one without a result that cannot be printed. */
  method JudgeUnseen(policy: map<Key, PolicyRow>, ks: seq<Key>, seen: set<Key>)
    returns (raised: bool, missing: seq<Failure>)
    requires forall k :: k in ks ==> k in policy
    ensures raised <==> exists i :: 0 <= i < |ks| && !Printable(policy, seen, ks[i])
    ensures !raised ==> missing == NoResults(Unseen(ks, seen, |ks|))
  {
    missing := [];
    for i := 0 to |ks|
      invariant missing == NoResults(Unseen(ks, seen, i))
      invariant forall j :: 0 <= j < i ==> Printable(policy, seen, ks[j])
    {
      UnseenGrows(ks, seen, i);
      if ks[i] in seen { continue; }
      if !policy[ks[i]].named { return true, missing; }
      missing := missing + [NoResult(ks[i])];
    }
    return false, missing;
  }

  lemma MissingInOrder(policy: map<Key, PolicyRow>, seen: set<Key>, ks: seq<Key>)
    requires InOrder(ks, policy.Keys)
    ensures IsMissing(policy, seen, NoResults(Unseen(ks, seen, |ks|)))
    ensures |Unseen(ks, seen, |ks|)| == |policy.Keys - seen|
  {
    UnseenAscend(ks, seen, |ks|);
    assert ks[..|ks|] == ks;
    forall k ensures k in Unseen(ks, seen, |ks|) <==> k in policy.Keys - seen { UnseenAre(ks, seen, |ks|, k); }
    AscendingCount(Unseen(ks, seen, |ks|), policy.Keys - seen);
  }

  /** One line for every policy row without a result, in key order. */
  method JudgeMissing(policy: map<Key, PolicyRow>, seen: set<Key>) returns (raised: bool, missing: seq<Failure>)
    ensures raised <==> RowsRaise(policy, policy.Keys - seen)
    ensures !raised ==> IsMissing(policy, seen, missing) && |missing| == |policy.Keys - seen|
  {
    if !Sortable(policy.Keys) { return true, []; }
    var ks := SortedKeys(policy.Keys);
    raised, missing := JudgeUnseen(policy, ks, seen);
    MissingInOrder(policy, seen, ks);
    assert RowsRaise(policy, policy.Keys - seen) <==> exists k :: k in ks && !Printable(policy, seen, k);
    if k :| k in ks && !Printable(policy, seen, k) {
      var i :| 0 <= i < |ks| && ks[i] == k;
      assert !Printable(policy, seen, ks[i]);
    }
  }

  lemma AscendingCount(ks: seq<Key>, keys: set<Key>)
    requires Ascending(ks) && forall k :: k in ks <==> k in keys
    ensures InOrder(ks, keys)
  {
    forall i, j | 0 <= i < j < |ks| ensures ks[i] != ks[j] { KeyTotal(ks[i], ks[i]); }
    NoRepeatsCount(ks);
    assert (set k | k in ks) == keys;
  }

  method JudgeReport(policy: map<Key, PolicyRow>, results: seq<Result>) returns (v: Verdict, failures: seq<Failure>)
    ensures v == Judgement(policy, results)
    ensures v != Raised ==>
              var judged := ErrorLines(results, Kinds(policy, results), |results|);
              && (v.Fail? || v.Pass?) && |failures| == v.summary.errors
              && judged <= failures
              && IsMissing(policy, Seen(results, |results|), failures[|judged|..])
  {
    var raised, s, routes, seen;
    raised, s, routes, seen, failures := JudgeResults(policy, results);
    if raised { return Raised, failures; }
    ErrorLineCount(results, Kinds(policy, results), |results|);
    var rowsRaise, missing := JudgeMissing(policy, seen);
    if rowsRaise { return Raised, failures + missing; }
    ghost var judged := failures;
    failures := failures + missing;
    assert failures[|judged|..] == missing;
    s := s.(routes := |routes|, errors := s.errors + |missing|);
    v := if failures != [] then Fail(s) else Pass(s);
  }

  /** A file counts as loaded if it is JSON, and not just `null`. */
  predicate Loaded(file: Option<Json>) {
    file.Some? && file.value != Null
  }

  method Judge(policyFile: Option<Json>, reportFile: Option<Json>) returns (v: Verdict, failures: seq<Failure>)
    ensures v == Unreadable <==> policyFile in {None, Some(Null)} || reportFile in {None, Some(Null)}
    ensures v != Unreadable ==> v == JudgedFiles(policyFile.value, reportFile.value)
    ensures v.Fail? || v.Pass? ==> v.summary.errors == |failures|
  {
    if !Loaded(policyFile) || !Loaded(reportFile) { return Unreadable, []; }
    var policy, results := ReadPolicy(policyFile.value), ReadReport(reportFile.value);
    if policy.None? || results.None? { return Raised, []; }
    v, failures := JudgeReport(policy.value, results.value);
  }

  // ---- What a verdict means --------------------------------------------------

  lemma {:induction false} EveryKindCounted(ks: seq<Kind>, n: nat)
    requires n <= |ks| && forall i :: 0 <= i < n ==> ks[i] != Raises
    ensures var s := CountKinds(ks, n); s.shared + s.pending + s.strict + s.tolerant + s.errors == s.exercised == n
    decreases n
  {
    if n > 0 {
      EveryKindCounted(ks, n - 1);
    }
  }

  lemma TotalsConserve(ks: seq<Kind>, routes: nat, missing: nat)
    requires Raises !in ks
    ensures var s := Totals(ks, routes, missing);
            s.exercised == |ks| && s.exercised + missing == s.shared + s.pending + s.strict + s.tolerant + s.errors
  {
    EveryKindCounted(ks, |ks|);
  }

  /** Every result and every policy row without one is counted once. */
  lemma Conservation(policy: map<Key, PolicyRow>, results: seq<Result>)
    requires Judgement(policy, results) != Raised
    ensures var v := Judgement(policy, results);
            && (v.Pass? || v.Fail?)
            && var s := v.summary;
            && s.exercised == |results|
            && s.exercised + |Unswept(policy, results)| == s.shared + s.pending + s.strict + s.tolerant + s.errors
  {
    TotalsConserve(Kinds(policy, results), |Routes(policy, results, |results|)|, |Unswept(policy, results)|);
  }

  /** What the policy asks of one result. */
  predicate Satisfies(policy: map<Key, PolicyRow>, r: Result) {
    && r.key.Some? && r.key.value in policy && r.passed
    && if policy[r.key.value].cls.OtherClass? then !r.refusal else r.disclosed
  }

  /** What one result raises on: an entry without a key; a route or a class
      without a hash, once the row is found; a ledger result that claims to pass
      with an actual that holds no members; a failure line about a row that
      lacks what it prints. */
  predicate Malformed(policy: map<Key, PolicyRow>, r: Result) {
    || r.key.None?
    || (r.key.value in policy
        && var row := policy[r.key.value];
           || r.route.None? || row.cls.Unhashable?
           || (!row.cls.OtherClass? && r.passed && r.noMembers)
           || (!row.named && !Satisfies(policy, r)))
  }

  predicate IsGood(k: Kind) {
    !IsError(k) && k != Raises
  }

  lemma RaisesIff(policy: map<Key, PolicyRow>, r: Result)
    requires !(r.disclosed && r.noMembers)
    ensures Classify(policy, r) == Raises <==> Malformed(policy, r)
  {
  }

  lemma GoodKind(policy: map<Key, PolicyRow>, r: Result)
    requires !(r.disclosed && r.noMembers)
    ensures IsGood(Classify(policy, r)) <==> Satisfies(policy, r) && !Malformed(policy, r)
  {
  }

  lemma {:induction false} NoErrorsIff(ks: seq<Kind>, n: nat)
    requires n <= |ks|
    ensures CountKinds(ks, n).errors == 0 <==> forall i :: 0 <= i < n ==> !IsError(ks[i])
    decreases n
  {
    if n > 0 { NoErrorsIff(ks, n - 1); }
  }

  ghost predicate HasKey(results: seq<Result>, n: nat, k: Key)
    requires n <= |results|
  {
    exists i :: 0 <= i < n && results[i].key == Some(k)
  }

  lemma {:induction false} SeenIff(results: seq<Result>, n: nat, k: Key)
    requires n <= |results|
    ensures k in Seen(results, n) <==> HasKey(results, n, k)
    decreases n
  {
    if n > 0 { SeenIff(results, n - 1, k); }
  }

  ghost predicate AllSatisfy(policy: map<Key, PolicyRow>, results: seq<Result>) {
    forall i :: 0 <= i < |results| ==> Satisfies(policy, results[i]) && !Malformed(policy, results[i])
  }

  lemma GoodIffSatisfied(policy: map<Key, PolicyRow>, results: seq<Result>)
    requires forall r :: r in results ==> !(r.disclosed && r.noMembers)
    ensures AllSatisfy(policy, results) <==> forall i :: 0 <= i < |results| ==> IsGood(Kinds(policy, results)[i])
  {
    forall i | 0 <= i < |results|
      ensures IsGood(Kinds(policy, results)[i]) <==> Satisfies(policy, results[i]) && !Malformed(policy, results[i])
    {
      GoodKind(policy, results[i]);
    }
  }

  lemma PassIffAllGood(ks: seq<Kind>, routes: nat, missing: nat, rowsRaise: bool)
    ensures VerdictOf(ks, routes, missing, rowsRaise).Pass?
            <==> missing == 0 && !rowsRaise && forall i :: 0 <= i < |ks| ==> IsGood(ks[i])
  {
    NoErrorsIff(ks, |ks|);
    assert Raises in ks <==> exists i :: 0 <= i < |ks| && ks[i] == Raises;
  }

  lemma SeenIsPolicy(policy: map<Key, PolicyRow>, results: seq<Result>)
    requires AllSatisfy(policy, results)
    ensures |Unswept(policy, results)| == 0 <==> Seen(results, |results|) == policy.Keys
  {
    var seen := Seen(results, |results|);
    forall k | k in seen ensures k in policy {
      SeenIff(results, |results|, k);
      var i :| 0 <= i < |results| && results[i].key == Some(k);
      assert Satisfies(policy, results[i]);
    }
    assert |Unswept(policy, results)| == 0 <==> Unswept(policy, results) == {};
    assert seen == policy.Keys ==> Unswept(policy, results) == {};
    if Unswept(policy, results) == {} {
      forall k | k in policy ensures k in seen { assert k !in Unswept(policy, results); }
    }
  }

  /** Exit 0 iff the policy's keys sort, the results cover exactly those keys, and
      each satisfies its row, whatever a refusal's pass flag claims. */
  lemma PassExactly(policy: map<Key, PolicyRow>, results: seq<Result>)
    requires forall r :: r in results ==> !(r.disclosed && r.noMembers)
    ensures Judgement(policy, results).Pass? <==>
            Sortable(policy.Keys) && Seen(results, |results|) == policy.Keys && AllSatisfy(policy, results)
  {
    var unswept := Unswept(policy, results);
    PassIffAllGood(Kinds(policy, results), |Routes(policy, results, |results|)|, |unswept|, RowsRaise(policy, unswept));
    GoodIffSatisfied(policy, results);
    if AllSatisfy(policy, results) {
      SeenIsPolicy(policy, results);
      assert |unswept| == 0 ==> unswept == {};
    }
  }

  lemma RaisesInKinds(policy: map<Key, PolicyRow>, results: seq<Result>)
    requires forall r :: r in results ==> !(r.disclosed && r.noMembers)
    ensures Raises in Kinds(policy, results) <==> exists r :: r in results && Malformed(policy, r)
  {
    var ks := Kinds(policy, results);
    if Raises in ks {
      var i :| 0 <= i < |ks| && ks[i] == Raises;
      RaisesIff(policy, results[i]);
      assert results[i] in results;
    }
    if r :| r in results && Malformed(policy, r) {
      var i :| 0 <= i < |results| && results[i] == r;
      RaisesIff(policy, r);
      assert ks[i] == Raises;
    }
  }

  ghost predicate SomeMalformed(policy: map<Key, PolicyRow>, results: seq<Result>) {
    exists r :: r in results && Malformed(policy, r)
  }

  /** Once both files are read, the judge raises iff a result is malformed, the
      policy's keys do not sort, or a missing row lacks what its line prints. */
  lemma JudgementRaisesIff(policy: map<Key, PolicyRow>, results: seq<Result>)
    requires forall r :: r in results ==> !(r.disclosed && r.noMembers)
    ensures Judgement(policy, results) == Raised <==>
            SomeMalformed(policy, results) || RowsRaise(policy, Unswept(policy, results))
  {
    RaisesInKinds(policy, results);
  }

  lemma KindsOfPermutation(policy: map<Key, PolicyRow>, a: seq<Result>, b: seq<Result>)
    requires multiset(a) == multiset(b)
    ensures multiset(Kinds(policy, a)) == multiset(Kinds(policy, b))
  {
    var classify := (r: Result) => Classify(policy, r);
    MappedPermutation(classify, a, b);
    assert Kinds(policy, a) == Mapped(classify, a) && Kinds(policy, b) == Mapped(classify, b);
  }

  lemma {:induction false} CountIsMultiplicity(ks: seq<Kind>, k: Kind, n: nat)
    requires n <= |ks|
    ensures Count(ks, k, n) == multiset(ks[..n])[k]
    decreases n
  {
    if n > 0 {
      CountIsMultiplicity(ks, k, n - 1);
      assert ks[..n] == ks[..n - 1] + [ks[n - 1]];
    }
  }

  lemma CountOfPermutation(ka: seq<Kind>, kb: seq<Kind>, k: Kind)
    requires multiset(ka) == multiset(kb) && |ka| == |kb|
    ensures Count(ka, k, |ka|) == Count(kb, k, |kb|) && (k in ka <==> k in kb)
  {
    CountIsMultiplicity(ka, k, |ka|);
    CountIsMultiplicity(kb, k, |kb|);
    assert ka[..|ka|] == ka && kb[..|kb|] == kb;
    assert k in ka <==> k in multiset(ka);
    assert k in kb <==> k in multiset(kb);
  }

  lemma CountersOfPermutation(ka: seq<Kind>, kb: seq<Kind>)
    requires multiset(ka) == multiset(kb) && |ka| == |kb|
    ensures CountKinds(ka, |ka|) == CountKinds(kb, |kb|)
  {
    CountersCount(ka, |ka|);
    CountersCount(kb, |kb|);
    forall k ensures Count(ka, k, |ka|) == Count(kb, k, |kb|) { CountOfPermutation(ka, kb, k); }
  }

  lemma {:induction false} RoutesIff(policy: map<Key, PolicyRow>, results: seq<Result>, n: nat, route: Part)
    requires n <= |results|
    ensures route in Routes(policy, results, n) <==>
            exists i :: 0 <= i < n && Routed(policy, results[i]) && results[i].route.value == route
    decreases n
  {
    if n > 0 { RoutesIff(policy, results, n - 1, route); }
  }

  lemma SeenWithin(a: seq<Result>, b: seq<Result>)
    requires forall r :: r in a ==> r in b
    ensures Seen(a, |a|) <= Seen(b, |b|)
  {
    forall k | k in Seen(a, |a|) ensures k in Seen(b, |b|) {
      SeenIff(a, |a|, k);
      SeenIff(b, |b|, k);
      var i :| 0 <= i < |a| && a[i].key == Some(k);
      assert a[i] in b;
    }
  }

  lemma RoutesWithin(policy: map<Key, PolicyRow>, a: seq<Result>, b: seq<Result>)
    requires forall r :: r in a ==> r in b
    ensures Routes(policy, a, |a|) <= Routes(policy, b, |b|)
  {
    forall x | x in Routes(policy, a, |a|) ensures x in Routes(policy, b, |b|) {
      RoutesIff(policy, a, |a|, x);
      RoutesIff(policy, b, |b|, x);
      var i :| 0 <= i < |a| && Routed(policy, a[i]) && a[i].route.value == x;
      assert a[i] in b;
    }
  }

  lemma PermutationMembers<T>(a: seq<T>, b: seq<T>)
    requires multiset(a) == multiset(b)
    ensures |a| == |b| && forall r :: r in a <==> r in b
  {
    assert |multiset(a)| == |a| && |multiset(b)| == |b|;
    forall r ensures r in a <==> r in b { assert r in a <==> r in multiset(a); assert r in b <==> r in multiset(b); }
  }

  lemma VerdictOfPermutation(ka: seq<Kind>, kb: seq<Kind>, routes: nat, missing: nat, rowsRaise: bool)
    requires multiset(ka) == multiset(kb)
    ensures VerdictOf(ka, routes, missing, rowsRaise) == VerdictOf(kb, routes, missing, rowsRaise)
  {
    PermutationMembers(ka, kb);
    CountersOfPermutation(ka, kb);
  }

  lemma SetsOfPermutation(policy: map<Key, PolicyRow>, a: seq<Result>, b: seq<Result>)
    requires multiset(a) == multiset(b)
    ensures Unswept(policy, a) == Unswept(policy, b) && Routes(policy, a, |a|) == Routes(policy, b, |b|)
  {
    PermutationMembers(a, b);
    SeenWithin(a, b);
    SeenWithin(b, a);
    RoutesWithin(policy, a, b);
    RoutesWithin(policy, b, a);
  }

  lemma JudgementOfPermutation(policy: map<Key, PolicyRow>, a: seq<Result>, b: seq<Result>)
    requires multiset(a) == multiset(b)
    ensures Judgement(policy, a) == Judgement(policy, b)
  {
    SetsOfPermutation(policy, a, b);
    KindsOfPermutation(policy, a, b);
    var unswept := Unswept(policy, a);
    VerdictOfPermutation(Kinds(policy, a), Kinds(policy, b), |Routes(policy, a, |a|)|, |unswept|,
        RowsRaise(policy, unswept));
  }
}
