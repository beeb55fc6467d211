/** The judge on its two files as they are: what it takes to pass, and what it
    raises on, in the files' own fields. */
module SweepFiles {
  import opened Text
  import opened TextLaws
  import opened Lists
  import opened Json
  import opened SweepReport
  import opened SweepOrder
  import opened SweepJudge

  // ---- Keys --------------------------------------------------------------------

  /** A list or an object; nothing else lacks a hash. */
  predicate IsBag(j: Json) {
    j.Arr? || j.Obj?
  }

  /** A number by its value, with true for 1 and false for 0. */
  ghost predicate IsNumber(j: Json, x: real) {
    || (j == Bool(true) && x == 1.0) || (j == Bool(false) && x == 0.0)
    || (exists i :: j == Int(i) && x == i as real) || j == Float(x)
  }

  /** Two values are one key part iff Python takes them for equal. */
  lemma PartIff(j: Json)
    ensures PartOf(j) == None <==> IsBag(j)
    ensures PartOf(j) == Some(PNull) <==> j == Null
    ensures forall s :: PartOf(j) == Some(PText(s)) <==> j == Str(s)
    ensures forall x :: PartOf(j) == Some(PNum(x)) <==> IsNumber(j, x)
  {
  }

  /** A row answers to its tool and label, both of them present. */
  predicate RowAnswers(row: Json, k: Key) {
    && row.Obj? && "tool" in row.fields && "label" in row.fields
    && PartOf(row.fields["tool"]) == Some(k.tool) && PartOf(row.fields["label"]) == Some(k.caseLabel)
  }

  /** A result answers to its tool and label, null where absent. */
  predicate ResultAnswers(res: Json, k: Key) {
    && res.Obj?
    && PartOf(Get(res.fields, "tool")) == Some(k.tool) && PartOf(Get(res.fields, "label")) == Some(k.caseLabel)
  }

  lemma AnswersIff(j: Json, k: Key)
    ensures RowKey(j) == Some(k) <==> RowAnswers(j, k)
    ensures ResultKey(j) == Some(k) <==> ResultAnswers(j, k)
  {
  }

  ghost predicate SomeRow(rows: seq<Json>, k: Key) {
    exists row :: row in rows && RowAnswers(row, k)
  }

  ghost predicate SomeResult(items: seq<Json>, k: Key) {
    exists res :: res in items && ResultAnswers(res, k)
  }

  predicate IsLastAt(rows: seq<Json>, k: Key, i: nat) {
    i < |rows| && RowAnswers(rows[i], k) && forall j :: i < j < |rows| ==> !RowAnswers(rows[j], k)
  }

  /** `row` is the last of `rows` that answers to `k`. */
  ghost predicate IsRowFor(rows: seq<Json>, k: Key, row: Json) {
    exists i: nat :: IsLastAt(rows, k, i) && rows[i] == row
  }

  /** Keys compare iff, where they first differ, both hold numbers or both hold texts. */
  predicate Compare(a: Key, b: Key) {
    || a == b
    || (a.tool != b.tool && ((a.tool.PNum? && b.tool.PNum?) || (a.tool.PText? && b.tool.PText?)))
    || (a.tool == b.tool && ((a.caseLabel.PNum? && b.caseLabel.PNum?) || (a.caseLabel.PText? && b.caseLabel.PText?)))
  }

  lemma CompareIff(a: Key, b: Key)
    ensures KeysCompare(a, b) <==> Compare(a, b)
  {
  }

  /** The rows' keys can be sorted. */
  ghost predicate RowsSort(rows: seq<Json>) {
    forall row, other, a, b :: row in rows && other in rows && RowAnswers(row, a) && RowAnswers(other, b)
      ==> Compare(a, b)
  }

  ghost predicate FirstDiffer(s: string, t: string, i: nat) {
    i < |s| && i < |t| && s[i] != t[i] && s[..i] == t[..i]
  }

  lemma DifferLater(s: string, t: string, i: nat)
    requires s != "" && t != "" && s[0] == t[0]
    ensures FirstDiffer(s, t, i + 1) <==> FirstDiffer(s[1..], t[1..], i)
    ensures s < t <==> s[1..] < t[1..]
  {
    assert s == [s[0]] + s[1..] && t == [t[0]] + t[1..];
    if i + 1 <= |s| && i + 1 <= |t| {
      assert s[..i + 1] == [s[0]] + s[1..][..i] && t[..i + 1] == [t[0]] + t[1..][..i];
      assert s[..i + 1] == t[..i + 1] ==> s[1..][..i] == s[..i + 1][1..] == t[..i + 1][1..] == t[1..][..i];
    }
  }

  /** `s` has the smaller character where the two first differ. */
  ghost predicate SmallerAt(s: string, t: string, i: nat) {
    FirstDiffer(s, t, i) && s[i] < t[i]
  }

  lemma HeadsDiffer(s: string, t: string, i: nat)
    requires s != "" && t != "" && s[0] != t[0]
    ensures SmallerAt(s, t, i) <==> i == 0 && s[0] < t[0]
    ensures !(s < t)
  {
    if 0 < i <= |s| && i <= |t| { assert s[..i][0] != t[..i][0]; }
  }

  /** Texts come in the order of their first different characters, a beginning before what it begins. */
  lemma {:induction false} TextLessIff(s: string, t: string)
    ensures TextLess(s, t) <==> s < t || exists i: nat :: SmallerAt(s, t, i)
    decreases |s|
  {
    if s == "" || t == "" {
    } else if s[0] == t[0] {
      TextLessIff(s[1..], t[1..]);
      DifferLater(s, t, 0);
      if i: nat :| SmallerAt(s[1..], t[1..], i) {
        DifferLater(s, t, i);
        assert SmallerAt(s, t, i + 1);
      }
      if i: nat :| SmallerAt(s, t, i) {
        DifferLater(s, t, i - 1);
        assert SmallerAt(s[1..], t[1..], i - 1);
      }
    } else {
      forall i: nat ensures SmallerAt(s, t, i) <==> i == 0 && s[0] < t[0] { HeadsDiffer(s, t, i); }
      HeadsDiffer(s, t, 0);
    }
  }

  /** Keys come by tool and then by label, numbers by size. */
  lemma KeyLessIff(a: Key, b: Key)
    requires KeysCompare(a, b)
    ensures KeyLess(a, b) <==>
            || (a.tool.PNum? && b.tool.PNum? && a.tool.x < b.tool.x)
            || (a.tool.PText? && b.tool.PText? && TextLess(a.tool.s, b.tool.s))
            || (a.tool == b.tool && a.caseLabel.PNum? && b.caseLabel.PNum? && a.caseLabel.x < b.caseLabel.x)
            || (a.tool == b.tool && a.caseLabel.PText? && b.caseLabel.PText? && TextLess(a.caseLabel.s, b.caseLabel.s))
  {
    if a.tool == b.tool && a.tool.PText? { TextTotal(a.tool.s, a.tool.s); }
  }

  // ---- The fields that decide -------------------------------------------------------

  /** The list a file holds under `name`; a file without it, or with an empty string or object there, holds none. */
  ghost predicate HoldsList(file: Json, name: string, items: seq<Json>) {
    && file.Obj?
    && if name !in file.fields then items == []
       else file.fields[name] == Arr(items) || (items == [] && file.fields[name] in {Str(""), Obj(map[])})
  }

  lemma ItemsIff(file: Json, name: string, items: seq<Json>)
    ensures ItemsOf(file, name) == Some(items) <==> HoldsList(file, name, items)
  {
  }

  function RouteField(r: Payload): Json {
    if "route" in r then r["route"] else Str("")
  }

  function ClassField(row: Payload): Json {
    if "class" in row then row["class"] else Str("")
  }

  predicate IsFalsy(j: Json) {
    j in {Null, Bool(false), Int(0), Float(0.0), Str(""), Arr([]), Obj(map[])}
  }

  function ActualField(r: Payload): Json {
    if "actual" in r && !IsFalsy(r["actual"]) then r["actual"] else Str("")
  }

  /** A refusal: one of four texts, or one that begins like an HTTP 403. */
  predicate ShowsRefusal(a: Json) {
    || a == Str("route_denied_403") || a == Str("route_denied_403 (disclosed)")
    || a == Str("route_denied_403 (undisclosed)") || a == Str("http_403")
    || (a.Str? && "http_403" <= a.s)
  }

  /** A disclosure: in a text anywhere, in a list as an item, in an object as a field name. */
  ghost predicate ShowsDisclosure(a: Json) {
    match a
    case Str(s) => exists i: nat :: OccursAt(s, "(disclosed)", i)
    case Arr(items) => Str("(disclosed)") in items
    case Obj(fields) => "(disclosed)" in fields
    case _ => false
  }

  predicate IsLedgerClass(j: Json) {
    j == Str("shared_key_only") || j == Str("pending_row_filtering")
  }

  /** What a row asks of a result: a route and a class with a hash, a true pass
      flag, and a disclosed or an unrefused actual by the class. */
  ghost predicate Complies(row: Payload, r: Payload) {
    && !IsBag(RouteField(r)) && !IsBag(ClassField(row)) && Get(r, "pass") == Bool(true)
    && if IsLedgerClass(ClassField(row)) then ShowsDisclosure(ActualField(r)) else !ShowsRefusal(ActualField(r))
  }

  /** What a row and a result make the judge raise on. */
  ghost predicate Breaks(row: Payload, r: Payload) {
    || IsBag(RouteField(r)) || IsBag(ClassField(row))
    || (IsLedgerClass(ClassField(row)) && Get(r, "pass") == Bool(true)
        && !ActualField(r).Str? && !IsBag(ActualField(r)))
    || (!("method" in row && "path" in row) && !Complies(row, r))
  }

  lemma ActualIs(r: Payload)
    ensures ActualOf(r) == ActualField(r)
    ensures IsRefusal(ActualOf(r)) <==> ShowsRefusal(ActualField(r))
    ensures IsDisclosed(ActualOf(r)) <==> ShowsDisclosure(ActualField(r))
    ensures HasNoMembers(ActualOf(r)) <==> !ActualField(r).Str? && !IsBag(ActualField(r))
  {
    var a := ActualField(r);
    if "actual" in r { assert Truthy(r["actual"]) <==> !IsFalsy(r["actual"]); }
    if a.Str? { ContainsIff(a.s, "(disclosed)"); }
  }

  lemma ClassIs(row: Json)
    requires row.Obj?
    ensures var cls := ReadRow(row).cls;
            && (cls == Unhashable <==> IsBag(ClassField(row.fields)))
            && (cls == SharedKeyOnly <==> ClassField(row.fields) == Str("shared_key_only"))
            && (cls == PendingRowFiltering <==> ClassField(row.fields) == Str("pending_row_filtering"))
  {
  }

  lemma ResultIs(res: Json)
    requires res.Obj?
    ensures var r := ReadResult(res);
            && (r.route == None <==> IsBag(RouteField(res.fields)))
            && (r.passed <==> Get(res.fields, "pass") == Bool(true))
            && (r.refusal <==> ShowsRefusal(ActualField(res.fields)))
            && (r.disclosed <==> ShowsDisclosure(ActualField(res.fields)))
            && (r.noMembers <==> !ActualField(res.fields).Str? && !IsBag(ActualField(res.fields)))
  {
    ActualIs(res.fields);
  }

  // ---- Rows and results ----------------------------------------------------------------

  lemma RowOfPolicy(rows: seq<Json>, k: Key, row: Json)
    requires PolicyTo(rows, |rows|).Some? && IsRowFor(rows, k, row)
    ensures k in PolicyTo(rows, |rows|).value && row.Obj? && PolicyTo(rows, |rows|).value[k] == ReadRow(row)
  {
    var i: nat :| IsLastAt(rows, k, i) && rows[i] == row;
    forall j | i <= j < |rows|
      ensures RowKey(rows[j]) == Some(k) <==> RowAnswers(rows[j], k)
    {
      AnswersIff(rows[j], k);
    }
    LastRowWins(rows, |rows|, i);
  }

  lemma {:induction false} PolicyHasRow(rows: seq<Json>, n: nat, k: Key)
    requires n <= |rows| && PolicyTo(rows, n).Some?
    ensures k in PolicyTo(rows, n).value <==> exists i :: 0 <= i < n && RowKey(rows[i]) == Some(k)
    decreases n
  {
    if n > 0 { PolicyHasRow(rows, n - 1, k); }
  }

  lemma {:induction false} LastAnswer(rows: seq<Json>, n: nat, k: Key) returns (i: nat)
    requires n <= |rows| && exists j :: 0 <= j < n && RowAnswers(rows[j], k)
    ensures i < n && RowAnswers(rows[i], k) && forall j :: i < j < n ==> !RowAnswers(rows[j], k)
    decreases n
  {
    if RowAnswers(rows[n - 1], k) { i := n - 1; } else { i := LastAnswer(rows, n - 1, k); }
  }

  /** The policy has a key exactly if a row answers to it, and then the last such row decides. */
  lemma PolicyIff(rows: seq<Json>, k: Key)
    requires PolicyTo(rows, |rows|).Some?
    ensures k in PolicyTo(rows, |rows|).value <==> SomeRow(rows, k)
    ensures k in PolicyTo(rows, |rows|).value ==> exists row :: IsRowFor(rows, k, row)
  {
    PolicyHasRow(rows, |rows|, k);
    forall i | 0 <= i < |rows|
      ensures RowKey(rows[i]) == Some(k) <==> RowAnswers(rows[i], k)
    {
      AnswersIff(rows[i], k);
    }
    if row :| row in rows && RowAnswers(row, k) {
      var i :| 0 <= i < |rows| && rows[i] == row;
      assert RowKey(rows[i]) == Some(k);
    }
    if k in PolicyTo(rows, |rows|).value {
      var i := LastAnswer(rows, |rows|, k);
      assert IsLastAt(rows, k, i);
      assert IsRowFor(rows, k, rows[i]);
    }
  }

  lemma CompliesIff(policy: map<Key, PolicyRow>, row: Json, res: Json, k: Key)
    requires row.Obj? && ResultAnswers(res, k) && k in policy && policy[k] == ReadRow(row)
    ensures Satisfies(policy, ReadResult(res)) && !Malformed(policy, ReadResult(res))
            <==> Complies(row.fields, res.fields)
    ensures Malformed(policy, ReadResult(res)) <==> Breaks(row.fields, res.fields)
  {
    AnswersIff(res, k);
    ClassIs(row);
    ResultIs(res);
    NotBoth(ActualField(res.fields));
  }

  /** What holds no members discloses nothing. */
  lemma NotBoth(a: Json)
    ensures !a.Str? && !IsBag(a) ==> !ShowsDisclosure(a)
  {
  }

  /** Which counter a result that complies goes into, by its row's class and accepted answers. */
  lemma CountedAs(policy: map<Key, PolicyRow>, row: Json, res: Json, k: Key)
    requires row.Obj? && ResultAnswers(res, k) && k in policy && policy[k] == ReadRow(row)
    requires Complies(row.fields, res.fields)
    ensures var kind := Classify(policy, ReadResult(res));
            && (kind == RefusedShared <==> ClassField(row.fields) == Str("shared_key_only"))
            && (kind == RefusedPending <==> ClassField(row.fields) == Str("pending_row_filtering"))
            && (kind == Strict <==> !IsLedgerClass(ClassField(row.fields))
                                    && ("accept" !in row.fields || row.fields["accept"] == Arr([Str("ok")])))
            && (kind == Tolerant <==> !IsLedgerClass(ClassField(row.fields))
                                      && "accept" in row.fields && row.fields["accept"] != Arr([Str("ok")]))
  {
    AnswersIff(res, k);
    ClassIs(row);
    ResultIs(res);
    NotBoth(ActualField(res.fields));
  }

  // ---- Passing -----------------------------------------------------------------------------

  /** A result answers to a row that it complies with. */
  ghost predicate IsAccepted(rows: seq<Json>, res: Json) {
    exists k, row :: ResultAnswers(res, k) && IsRowFor(rows, k, row) && Complies(row.fields, res.fields)
  }

  lemma AcceptedIff(rows: seq<Json>, res: Json)
    requires PolicyTo(rows, |rows|).Some?
    ensures var policy := PolicyTo(rows, |rows|).value;
            Satisfies(policy, ReadResult(res)) && !Malformed(policy, ReadResult(res)) <==> IsAccepted(rows, res)
  {
    var policy := PolicyTo(rows, |rows|).value;
    if ReadResult(res).key.Some? {
      var k := ReadResult(res).key.value;
      AnswersIff(res, k);
      PolicyIff(rows, k);
      forall row | IsRowFor(rows, k, row) ensures Complies(row.fields, res.fields) <==>
        Satisfies(policy, ReadResult(res)) && !Malformed(policy, ReadResult(res))
      {
        RowOfPolicy(rows, k, row);
        CompliesIff(policy, row, res, k);
      }
    }
    if IsAccepted(rows, res) {
      var k, row :| ResultAnswers(res, k) && IsRowFor(rows, k, row) && Complies(row.fields, res.fields);
      AnswersIff(res, k);
      assert ReadResult(res).key == Some(k);
    }
  }

  /** The rows can be read: each answers to some key. */
  ghost predicate RowsRead(rows: seq<Json>) {
    forall row :: row in rows ==> exists k :: RowAnswers(row, k)
  }

  lemma ReadsIff(row: Json)
    ensures RowKey(row).Some? <==> exists k :: RowAnswers(row, k)
  {
    if RowKey(row).Some? { AnswersIff(row, RowKey(row).value); }
    if k :| RowAnswers(row, k) { AnswersIff(row, k); }
  }

  lemma RowsReadIff(rows: seq<Json>)
    ensures PolicyTo(rows, |rows|).Some? <==> RowsRead(rows)
  {
    PolicyReadsIff(rows, |rows|);
    forall row ensures RowKey(row).Some? <==> exists k :: RowAnswers(row, k) { ReadsIff(row); }
    if RowsRead(rows) {
      forall i | 0 <= i < |rows| ensures RowKey(rows[i]).Some? { assert rows[i] in rows; }
    }
  }

  /** Every key that a row answers to is one that a result answers to, and the other way round. */
  ghost predicate SameKeys(rows: seq<Json>, items: seq<Json>) {
    forall k :: SomeRow(rows, k) <==> SomeResult(items, k)
  }

  lemma SeenInFile(items: seq<Json>, k: Key)
    ensures k in Seen(ReadResults(items), |items|) <==> SomeResult(items, k)
  {
    var results := ReadResults(items);
    SeenIff(results, |items|, k);
    forall i | 0 <= i < |items|
      ensures results[i].key == Some(k) <==> ResultAnswers(items[i], k)
    {
      AnswersIff(items[i], k);
    }
    if i :| 0 <= i < |items| && results[i].key == Some(k) { assert items[i] in items && ResultAnswers(items[i], k); }
    if res :| res in items && ResultAnswers(res, k) {
      var i :| 0 <= i < |items| && items[i] == res;
      assert results[i].key == Some(k);
    }
  }

  lemma SameKeysIff(rows: seq<Json>, items: seq<Json>)
    requires PolicyTo(rows, |rows|).Some?
    ensures Seen(ReadResults(items), |items|) == PolicyTo(rows, |rows|).value.Keys <==> SameKeys(rows, items)
  {
    var policy, seen := PolicyTo(rows, |rows|).value, Seen(ReadResults(items), |items|);
    forall k
      ensures k in policy <==> SomeRow(rows, k)
      ensures k in seen <==> SomeResult(items, k)
    {
      PolicyIff(rows, k);
      SeenInFile(items, k);
    }
    assert seen == policy.Keys <==> forall k :: k in seen <==> k in policy;
  }

  lemma RowsSortIff(rows: seq<Json>)
    requires PolicyTo(rows, |rows|).Some?
    ensures Sortable(PolicyTo(rows, |rows|).value.Keys) <==> RowsSort(rows)
  {
    var keys := PolicyTo(rows, |rows|).value.Keys;
    forall k ensures k in keys <==> SomeRow(rows, k) { PolicyIff(rows, k); }
    forall a, b ensures KeysCompare(a, b) <==> Compare(a, b) { CompareIff(a, b); }
  }

  /** What it takes for two files to pass: lists of rows and results, rows that
      read and sort, the same keys on both sides, and every result accepted. */
  ghost predicate MayPass(rows: seq<Json>, items: seq<Json>) {
    RowsRead(rows) && RowsSort(rows) && SameKeys(rows, items) && AllAccepted(rows, items)
  }

  lemma PassInTheFile(rows: seq<Json>, items: seq<Json>)
    requires PolicyTo(rows, |rows|).Some?
    ensures Judgement(PolicyTo(rows, |rows|).value, ReadResults(items)).Pass? <==> MayPass(rows, items)
  {
    var policy, results := PolicyTo(rows, |rows|).value, ReadResults(items);
    ResultsAreSound(items);
    PassExactly(policy, results);
    RowsReadIff(rows);
    RowsSortIff(rows);
    SameKeysIff(rows, items);
    if AllSatisfy(policy, results) { SatisfiedAreAccepted(rows, items); }
    if AllAccepted(rows, items) { AcceptedAreSatisfied(rows, items); }
  }

  ghost predicate AllAccepted(rows: seq<Json>, items: seq<Json>) {
    forall res :: res in items ==> IsAccepted(rows, res)
  }

  lemma SatisfiedAreAccepted(rows: seq<Json>, items: seq<Json>)
    requires PolicyTo(rows, |rows|).Some? && AllSatisfy(PolicyTo(rows, |rows|).value, ReadResults(items))
    ensures AllAccepted(rows, items)
  {
    forall res | res in items ensures IsAccepted(rows, res) {
      var i :| 0 <= i < |items| && items[i] == res;
      assert ReadResults(items)[i] == ReadResult(res);
      AcceptedIff(rows, res);
    }
  }

  lemma AcceptedAreSatisfied(rows: seq<Json>, items: seq<Json>)
    requires PolicyTo(rows, |rows|).Some? && AllAccepted(rows, items)
    ensures AllSatisfy(PolicyTo(rows, |rows|).value, ReadResults(items))
  {
    var policy, results := PolicyTo(rows, |rows|).value, ReadResults(items);
    forall i | 0 <= i < |results| ensures Satisfies(policy, results[i]) && !Malformed(policy, results[i]) {
      assert IsAccepted(rows, items[i]);
      AcceptedIff(rows, items[i]);
    }
  }

  /** Exit 0 on two files that load, in the files' own fields. */
  lemma AcceptsExactly(policyFile: Json, reportFile: Json)
    ensures JudgedFiles(policyFile, reportFile).Pass? <==>
            exists rows, items :: HoldsList(policyFile, "rows", rows) && HoldsList(reportFile, "results", items)
              && MayPass(rows, items)
  {
    forall rows ensures ItemsOf(policyFile, "rows") == Some(rows) <==> HoldsList(policyFile, "rows", rows) {
      ItemsIff(policyFile, "rows", rows);
    }
    forall items ensures ItemsOf(reportFile, "results") == Some(items) <==> HoldsList(reportFile, "results", items) {
      ItemsIff(reportFile, "results", items);
    }
    if ItemsOf(policyFile, "rows").Some? && ItemsOf(reportFile, "results").Some? {
      var rows, items := ItemsOf(policyFile, "rows").value, ItemsOf(reportFile, "results").value;
      RowsReadIff(rows);
      if PolicyTo(rows, |rows|).Some? { PassInTheFile(rows, items); }
    }
  }

  // ---- Raising -----------------------------------------------------------------------------

  /** A result that is no object or whose tool or label is a list or an object, or one that breaks on its row. */
  ghost predicate IsBroken(rows: seq<Json>, res: Json) {
    || (forall k :: !ResultAnswers(res, k))
    || exists k, row :: ResultAnswers(res, k) && IsRowFor(rows, k, row) && Breaks(row.fields, res.fields)
  }

  lemma BrokenIff(rows: seq<Json>, res: Json)
    requires PolicyTo(rows, |rows|).Some?
    ensures Malformed(PolicyTo(rows, |rows|).value, ReadResult(res)) <==> IsBroken(rows, res)
  {
    var policy := PolicyTo(rows, |rows|).value;
    if ReadResult(res).key.Some? {
      var k := ReadResult(res).key.value;
      AnswersIff(res, k);
      PolicyIff(rows, k);
      forall row | IsRowFor(rows, k, row)
        ensures Breaks(row.fields, res.fields) <==> Malformed(policy, ReadResult(res))
      {
        RowOfPolicy(rows, k, row);
        CompliesIff(policy, row, res, k);
      }
      forall other ensures ResultAnswers(res, other) <==> other == k { AnswersIff(res, other); }
      assert ResultAnswers(res, k);
      if IsBroken(rows, res) {
        var other, row :| ResultAnswers(res, other) && IsRowFor(rows, other, row) && Breaks(row.fields, res.fields);
        RowOfPolicy(rows, k, row);
      }
    } else {
      forall k ensures !ResultAnswers(res, k) { AnswersIff(res, k); }
    }
  }

  /** A row without a result that lacks the method or path its line prints. */
  ghost predicate IsUnprintable(rows: seq<Json>, items: seq<Json>, k: Key, row: Json) {
    && IsRowFor(rows, k, row) && !SomeResult(items, k)
    && !("method" in row.fields && "path" in row.fields)
  }

  ghost predicate LacksText(policy: map<Key, PolicyRow>, unswept: set<Key>, k: Key) {
    k in unswept && k in policy && !policy[k].named
  }

  lemma UnprintableIff(rows: seq<Json>, items: seq<Json>, k: Key)
    requires PolicyTo(rows, |rows|).Some?
    ensures var policy := PolicyTo(rows, |rows|).value;
            LacksText(policy, Unswept(policy, ReadResults(items)), k)
            <==> exists row :: IsUnprintable(rows, items, k, row)
  {
    var policy := PolicyTo(rows, |rows|).value;
    PolicyIff(rows, k);
    SeenInFile(items, k);
    forall row | IsRowFor(rows, k, row)
      ensures k in policy && (policy[k].named <==> "method" in row.fields && "path" in row.fields)
    {
      RowOfPolicy(rows, k, row);
    }
    if LacksText(policy, Unswept(policy, ReadResults(items)), k) {
      var row :| IsRowFor(rows, k, row);
      assert IsUnprintable(rows, items, k, row);
    }
  }

  /** What makes two lists of rows and results raise. */
  ghost predicate MustRaise(rows: seq<Json>, items: seq<Json>) {
    || !RowsRead(rows) || (exists res :: res in items && IsBroken(rows, res))
    || !RowsSort(rows) || exists k, row :: IsUnprintable(rows, items, k, row)
  }

  lemma RowsRaiseIs(policy: map<Key, PolicyRow>, unswept: set<Key>)
    ensures RowsRaise(policy, unswept) <==> !Sortable(policy.Keys) || exists k :: LacksText(policy, unswept, k)
  {
    if k :| LacksText(policy, unswept, k) { assert k in unswept && k in policy && !policy[k].named; }
    if k :| k in unswept && k in policy && !policy[k].named { assert LacksText(policy, unswept, k); }
  }

  lemma SomeUnprintableIff(rows: seq<Json>, items: seq<Json>)
    requires PolicyTo(rows, |rows|).Some?
    ensures var policy := PolicyTo(rows, |rows|).value;
            (exists k :: LacksText(policy, Unswept(policy, ReadResults(items)), k))
            <==> exists k, row :: IsUnprintable(rows, items, k, row)
  {
    var policy := PolicyTo(rows, |rows|).value;
    var unswept := Unswept(policy, ReadResults(items));
    if k :| LacksText(policy, unswept, k) { UnprintableIff(rows, items, k); }
    if k, row :| IsUnprintable(rows, items, k, row) { UnprintableIff(rows, items, k); }
  }

  lemma RowsRaiseIff(rows: seq<Json>, items: seq<Json>)
    requires PolicyTo(rows, |rows|).Some?
    ensures var policy := PolicyTo(rows, |rows|).value;
            RowsRaise(policy, Unswept(policy, ReadResults(items)))
            <==> !RowsSort(rows) || exists k, row :: IsUnprintable(rows, items, k, row)
  {
    RowsSortIff(rows);
    SomeUnprintableIff(rows, items);
    RowsRaiseIs(PolicyTo(rows, |rows|).value, Unswept(PolicyTo(rows, |rows|).value, ReadResults(items)));
  }

  lemma MalformedIsBroken(rows: seq<Json>, items: seq<Json>)
    requires PolicyTo(rows, |rows|).Some? && SomeMalformed(PolicyTo(rows, |rows|).value, ReadResults(items))
    ensures exists res :: res in items && IsBroken(rows, res)
  {
    var r :| r in ReadResults(items) && Malformed(PolicyTo(rows, |rows|).value, r);
    var i :| 0 <= i < |items| && ReadResults(items)[i] == r;
    BrokenIff(rows, items[i]);
    assert items[i] in items;
  }

  lemma BrokenIsMalformed(rows: seq<Json>, items: seq<Json>)
    requires PolicyTo(rows, |rows|).Some? && exists res :: res in items && IsBroken(rows, res)
    ensures SomeMalformed(PolicyTo(rows, |rows|).value, ReadResults(items))
  {
    var res :| res in items && IsBroken(rows, res);
    var i :| 0 <= i < |items| && items[i] == res;
    BrokenIff(rows, res);
    assert ReadResults(items)[i] == ReadResult(res) && ReadResults(items)[i] in ReadResults(items);
  }

  lemma SomeBrokenIff(rows: seq<Json>, items: seq<Json>)
    requires PolicyTo(rows, |rows|).Some?
    ensures SomeMalformed(PolicyTo(rows, |rows|).value, ReadResults(items))
            <==> exists res :: res in items && IsBroken(rows, res)
  {
    if SomeMalformed(PolicyTo(rows, |rows|).value, ReadResults(items)) { MalformedIsBroken(rows, items); }
    if exists res :: res in items && IsBroken(rows, res) { BrokenIsMalformed(rows, items); }
  }

  /** The judge raises on two files that load iff one of them is no object with a
      list to go through, or their rows and results make it raise. */
  lemma RaisesExactly(policyFile: Json, reportFile: Json)
    ensures JudgedFiles(policyFile, reportFile) == Raised <==>
            forall rows, items ::
              HoldsList(policyFile, "rows", rows) && HoldsList(reportFile, "results", items) ==> MustRaise(rows, items)
  {
    forall rows ensures ItemsOf(policyFile, "rows") == Some(rows) <==> HoldsList(policyFile, "rows", rows) {
      ItemsIff(policyFile, "rows", rows);
    }
    forall items ensures ItemsOf(reportFile, "results") == Some(items) <==> HoldsList(reportFile, "results", items) {
      ItemsIff(reportFile, "results", items);
    }
    if ItemsOf(policyFile, "rows").Some? && ItemsOf(reportFile, "results").Some? {
      RaiseInTheFile(ItemsOf(policyFile, "rows").value, ItemsOf(reportFile, "results").value);
    }
  }

  lemma RaiseInTheFile(rows: seq<Json>, items: seq<Json>)
    ensures (PolicyTo(rows, |rows|) == None || Judgement(PolicyTo(rows, |rows|).value, ReadResults(items)) == Raised)
            <==> MustRaise(rows, items)
  {
    RowsReadIff(rows);
    if PolicyTo(rows, |rows|).Some? {
      ResultsAreSound(items);
      JudgementRaisesIff(PolicyTo(rows, |rows|).value, ReadResults(items));
      SomeBrokenIff(rows, items);
      RowsRaiseIff(rows, items);
    }
  }

  /** The policy file of one allowlisted row, and the report file of one result
      that passed and was not refused. */
  function OneRow(tool: string, caseLabel: string, cls: Json): Json {
    Obj(map["rows" := Arr([Obj(map["tool" := Str(tool), "label" := Str(caseLabel), "class" := cls])])])
  }

  function OneResult(tool: string, caseLabel: string, route: Json): Json {
    Obj(map["results" := Arr([Obj(map["tool" := Str(tool), "label" := Str(caseLabel), "route" := route,
                                      "pass" := Bool(true)])])])
  }

  lemma ReadOneRow(tool: string, caseLabel: string, cls: Json)
    ensures ReadPolicy(OneRow(tool, caseLabel, cls))
            == Some(map[Key(PText(tool), PText(caseLabel)) := PolicyRow(ClassOf(cls), true, false)])
  {
    var file := OneRow(tool, caseLabel, cls);
    var rows := ItemsOf(file, "rows").value;
    assert |rows| == 1 && PolicyTo(rows, 0) == Some(map[]);
  }

  lemma EmptyActual()
    ensures !IsRefusal(Str("")) && !IsDisclosed(Str("")) && !HasNoMembers(Str(""))
  {
    assert |DISCLOSED| > 0;
    assert forall r :: r in REFUSALS ==> |r| > 0;
  }

  lemma ReadOneResult(tool: string, caseLabel: string, route: Json)
    ensures ReadReport(OneResult(tool, caseLabel, route))
            == Some([Result(Some(Key(PText(tool), PText(caseLabel))), PartOf(route), true, false, false, false)])
  {
    var items := ItemsOf(OneResult(tool, caseLabel, route), "results").value;
    assert |items| == 1;
    assert ActualOf(items[0].fields) == Str("");
    EmptyActual();
    assert ReadResults(items) == [ReadResult(items[0])];
  }

  lemma OneKeySeen(r: Result, k: Key)
    requires r.key == Some(k)
    ensures Seen([r], 1) == {k}
  {
    assert Seen([r], 0) == {};
  }

  lemma OneKeySorts(k: Key)
    ensures Sortable({k})
  {
  }

  /** One passed, unrefused result under its one allowlisted row: it satisfies the
      row, and the verdict hangs on whether it is malformed. */
  lemma OneJudged(row: PolicyRow, r: Result, k: Key)
    requires r == Result(Some(k), r.route, true, false, false, false)
    requires row.cls.OtherClass? || (row.cls.Unhashable? && !row.named)
    ensures var policy := map[k := row];
            && (Judgement(policy, [r]) == Raised <==> Malformed(policy, r))
            && (Judgement(policy, [r]).Pass? <==> row.cls.OtherClass? && !Malformed(policy, r))
  {
    var policy := map[k := row];
    OneKeySeen(r, k);
    OneKeySorts(k);
    assert policy.Keys == {k};
    assert Unswept(policy, [r]) == {};
    assert SomeMalformed(policy, [r]) <==> Malformed(policy, r) by { assert r in [r]; }
    JudgementRaisesIff(policy, [r]);
    PassExactly(policy, [r]);
    assert AllSatisfy(policy, [r]) <==> Satisfies(policy, r) && !Malformed(policy, r) by { assert [r][0] == r; }
  }

  /** The same two files pass with a route and a class that have a hash, and raise
      when either is a list or an object. */
  lemma UnhashableRaises(tool: string, caseLabel: string, cls: Json, route: Json)
    requires ClassOf(cls).OtherClass? || ClassOf(cls).Unhashable?
    ensures var v := JudgedFiles(OneRow(tool, caseLabel, cls), OneResult(tool, caseLabel, route));
            && (v == Raised <==> PartOf(cls) == None || PartOf(route) == None)
            && (v.Pass? <==> PartOf(cls).Some? && PartOf(route).Some?)
  {
    var k := Key(PText(tool), PText(caseLabel));
    ReadOneRow(tool, caseLabel, cls);
    ReadOneResult(tool, caseLabel, route);
    OneJudged(PolicyRow(ClassOf(cls), true, false), Result(Some(k), PartOf(route), true, false, false, false), k);
  }

  /** Two report files that list the same results in any two orders get the same
      verdict, the same printed counts, and raise alike. */
  lemma OrderIndependent(policyFile: Json, a: Json, b: Json)
    requires ItemsOf(a, "results").Some? && ItemsOf(b, "results").Some?
    requires multiset(ItemsOf(a, "results").value) == multiset(ItemsOf(b, "results").value)
    ensures JudgedFiles(policyFile, a) == JudgedFiles(policyFile, b)
  {
    var items, others := ItemsOf(a, "results").value, ItemsOf(b, "results").value;
    MappedPermutation(ReadResult, items, others);
    assert ReadResults(items) == Mapped(ReadResult, items) && ReadResults(others) == Mapped(ReadResult, others);
    if ReadPolicy(policyFile).Some? {
      JudgementOfPermutation(ReadPolicy(policyFile).value, ReadResults(items), ReadResults(others));
    }
  }
}
