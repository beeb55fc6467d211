/** What the sweep judge reads from its two files, whatever JSON they hold. */
module SweepReport {
  import opened Text
  import opened Json

  /** A value as a dict key or a set member: numbers by value, booleans as numbers. */
  datatype Part = PNull | PNum(x: real) | PText(s: string)

  datatype Key = Key(tool: Part, caseLabel: Part)

  /** Lists and objects have no hash. */
  function PartOf(j: Json): Option<Part> {
    match j
    case Null => Some(PNull)
    case Bool(b) => Some(PNum(if b then 1.0 else 0.0))
    case Int(i) => Some(PNum(i as real))
    case Float(x) => Some(PNum(x))
    case Str(s) => Some(PText(s))
    case _ => None
  }

  function KeyOf(tool: Json, caseLabel: Json): Option<Key> {
    if PartOf(tool).Some? && PartOf(caseLabel).Some? then Some(Key(PartOf(tool).value, PartOf(caseLabel).value))
    else None
  }

  /** p.get(k, d) */
  function GetElse(p: Payload, k: string, d: Json): Json {
    if k in p then p[k] else d
  }

  /** What a loop over `j` goes through; None where it raises, at once or on its
      first item, which for a string or an object is no object. */
  function Items(j: Json): Option<seq<Json>> {
    match j
    case Arr(items) => Some(items)
    case Obj(fields) => if fields == map[] then Some([]) else None
    case Str(s) => if s == "" then Some([]) else None
    case _ => None
  }

  /** The items of a file's list; None where reading them raises. */
  function ItemsOf(file: Json, name: string): Option<seq<Json>> {
    if file.Obj? then Items(GetElse(file.fields, name, Arr([]))) else None
  }

  // ---- Policy rows ---------------------------------------------------------------

  /** The two ledger classes, all other hashable classes, and those without a hash. */
  datatype Class = SharedKeyOnly | PendingRowFiltering | OtherClass | Unhashable

  /** `strict`: only the plain "ok" answer is accepted. `named`: the row has the
      method and path that a failure line about it prints. */
  datatype PolicyRow = PolicyRow(cls: Class, strict: bool, named: bool)

  function ClassOf(j: Json): Class {
    if j == Str("shared_key_only") then SharedKeyOnly
    else if j == Str("pending_row_filtering") then PendingRowFiltering
    else if PartOf(j).Some? then OtherClass
    else Unhashable
  }

  function ReadRow(row: Json): PolicyRow
    requires row.Obj?
  {
    var p := row.fields;
    PolicyRow(ClassOf(GetElse(p, "class", Str(""))),
              GetElse(p, "accept", Arr([Str("ok")])) == Arr([Str("ok")]),
              "method" in p && "path" in p)
  }

  function RowKey(row: Json): (k: Option<Key>)
    ensures k.Some? ==> row.Obj?
  {
    if row.Obj? && "tool" in row.fields && "label" in row.fields then
      KeyOf(row.fields["tool"], row.fields["label"])
    else None
  }

  /** The policy dict of the first `n` rows: of rows with one key the last stays. */
  function PolicyTo(rows: seq<Json>, n: nat): Option<map<Key, PolicyRow>>
    requires n <= |rows|
  {
    if n == 0 then Some(map[])
    else
      var before, key := PolicyTo(rows, n - 1), RowKey(rows[n - 1]);
      if before.Some? && key.Some? then Some(before.value[key.value := ReadRow(rows[n - 1])]) else None
  }

  function ReadPolicy(file: Json): Option<map<Key, PolicyRow>> {
    var rows := ItemsOf(file, "rows");
    if rows.None? then None else PolicyTo(rows.value, |rows.value|)
  }

  /** The policy reads iff its rows can be gone through and each has a key. */
  lemma {:induction false} PolicyReadsIff(rows: seq<Json>, n: nat)
    requires n <= |rows|
    ensures PolicyTo(rows, n).Some? <==> forall i :: 0 <= i < n ==> RowKey(rows[i]).Some?
    decreases n
  {
    if n > 0 { PolicyReadsIff(rows, n - 1); }
  }

  lemma {:induction false} LastRowWins(rows: seq<Json>, n: nat, i: nat)
    requires i < n <= |rows| && PolicyTo(rows, n).Some?
    requires forall j :: i < j < n ==> RowKey(rows[j]) != RowKey(rows[i])
    ensures RowKey(rows[i]).Some? && RowKey(rows[i]).value in PolicyTo(rows, n).value
    ensures PolicyTo(rows, n).value[RowKey(rows[i]).value] == ReadRow(rows[i])
    decreases n
  {
    if i < n - 1 { LastRowWins(rows, n - 1, i); }
  }

  // ---- Results -------------------------------------------------------------------

  /** A result as the judge's tests see it. `key` is None for an entry that is no
      object or whose tool or label has no hash; `noMembers`: asking what the
      actual contains raises. */
  datatype Result = Result(
    key: Option<Key>, route: Option<Part>, passed: bool, refusal: bool, disclosed: bool, noMembers: bool)

  const REFUSALS := {"route_denied_403", "route_denied_403 (disclosed)", "route_denied_403 (undisclosed)", "http_403"}
  const DISCLOSED := "(disclosed)"

  function ActualOf(p: Payload): Json {
    Or(GetElse(p, "actual", Str("")), Str(""))
  }

  predicate IsRefusal(actual: Json) {
    actual.Str? && (actual.s in REFUSALS || "http_403" <= actual.s)
  }

  /** "(disclosed)" in actual, where that does not raise. */
  predicate IsDisclosed(actual: Json) {
    match actual
    case Str(s) => Contains(s, DISCLOSED)
    case Arr(items) => Str(DISCLOSED) in items
    case Obj(fields) => DISCLOSED in fields
    case _ => false
  }

  predicate HasNoMembers(actual: Json) {
    !actual.Str? && !actual.Arr? && !actual.Obj?
  }

  predicate IsPassed(p: Payload) {
    Get(p, "pass") == Bool(true)
  }

  function ResultKey(res: Json): Option<Key> {
    if res.Obj? then KeyOf(Get(res.fields, "tool"), Get(res.fields, "label")) else None
  }

  function ReadResult(res: Json): Result {
    if !res.Obj? then Result(None, None, false, false, false, false)
    else
      var p := res.fields;
      var actual := ActualOf(p);
      Result(ResultKey(res), PartOf(GetElse(p, "route", Str(""))), IsPassed(p),
             IsRefusal(actual), IsDisclosed(actual), HasNoMembers(actual))
  }

  function ReadResults(items: seq<Json>): (results: seq<Result>)
    ensures |results| == |items| && forall i :: 0 <= i < |items| ==> results[i] == ReadResult(items[i])
  {
    seq(|items|, i requires 0 <= i < |items| => ReadResult(items[i]))
  }

  function ReadReport(file: Json): Option<seq<Result>> {
    var items := ItemsOf(file, "results");
    if items.None? then None else Some(ReadResults(items.value))
  }

  /** A disclosed actual has members. */
  lemma ResultsAreSound(items: seq<Json>)
    ensures forall r :: r in ReadResults(items) ==> !(r.disclosed && r.noMembers)
  {
    forall r | r in ReadResults(items) ensures !(r.disclosed && r.noMembers) {
      var i :| 0 <= i < |items| && ReadResults(items)[i] == r;
      if items[i].Obj? { assert HasNoMembers(ActualOf(items[i].fields)) ==> !IsDisclosed(ActualOf(items[i].fields)); }
    }
  }
}
