/**
 * The operations the HTTP layer drives: adding a record through the form or
 * the JSON endpoint, and clearing the ledger; and the invariant that every
 * ledger these operations can produce verifies clean.
 */
module Service {
  import opened Wrappers
  import opened Chain
  import opened Verification
  import opened Queries

  /**
   * Add a record from form fields. Any empty field is refused; otherwise a
   * record linked to the current last one is appended.
   */
  function AddRecord(h: Hasher, l: Ledger, timestamp: string,
                     name: string, age: string, land: string, uid: string): (r: Result<Ledger, Failure>)
    ensures r.Failure? <==> name == "" || age == "" || land == "" || uid == ""
    ensures r.Failure? ==> r.error == ValidationError(FieldsRequired)
    ensures r.Success? ==> |r.value| == |l| + 1 && r.value[..|l|] == l
    ensures r.Success? ==> var x := r.value[|l|];
              && x.timestamp == timestamp && x.name == name && x.age == age
              && x.land == land && x.uid == uid
              && x.previousHash == PreviousHash(l)
              && CalculateHash(h, x) == x.hash
    ensures r.Success? && ValidChain(h, l) ==> ValidChain(h, r.value)
  {
    if name == "" || age == "" || land == "" || uid == "" then
      Failure(ValidationError(FieldsRequired))
    else
      Success(Append(h, l, timestamp, name, uid, age, land))
  }

  /** The keys a JSON request must carry, in the order they are checked. */
  const RequiredFields: seq<string> := ["name", "age", "land", "uid"]

  /** The first of `fields` that `data` lacks, if any. */
  function FirstMissing(data: map<string, string>, fields: seq<string>): (r: Option<string>)
    ensures r.None? <==> forall i :: 0 <= i < |fields| ==> fields[i] in data
    ensures r.Some? ==> exists i :: 0 <= i < |fields| && fields[i] == r.value
                                 && fields[i] !in data
                                 && forall j :: 0 <= j < i ==> fields[j] in data
  {
    if |fields| == 0 then None
    else if fields[0] !in data then Some(fields[0])
    else
      var rest := FirstMissing(data, fields[1..]);
      assert forall i :: 1 <= i < |fields| ==> fields[i] == fields[1..][i - 1];
      rest
  }

  /** A successful JSON add: the new ledger, the position reported back, and the record. */
  datatype Added = Added(ledger: Ledger, blockIndex: nat, record: Record)

  /**
   * Add a record from a JSON object. An empty body is refused, then the first
   * missing required key is named; values are taken as given (empty strings
   * included) and the new record's index is reported back.
   */
  function ApiAddRecord(h: Hasher, l: Ledger, timestamp: string, data: map<string, string>)
    : (r: Result<Added, Failure>)
    ensures |data| == 0 <==> r == Failure(ValidationError(NoJsonData))
    ensures |data| > 0 && FirstMissing(data, RequiredFields).Some? ==>
              r == Failure(ValidationError(MissingField(FirstMissing(data, RequiredFields).value)))
    ensures r.Success? <==> |data| > 0 && forall f :: f in RequiredFields ==> f in data
    ensures r.Failure? && r.error.ValidationError? && r.error.reason.MissingField? ==>
              var f := r.error.reason.field;
              && |data| > 0 && f !in data
              && exists i :: 0 <= i < |RequiredFields| && RequiredFields[i] == f
                          && forall j :: 0 <= j < i ==> RequiredFields[j] in data
    ensures r.Success? ==>
              && r.value.blockIndex == |l|
              && |r.value.ledger| == |l| + 1
              && r.value.ledger[..|l|] == l
              && r.value.ledger[r.value.blockIndex] == r.value.record
              && r.value.record.name == data["name"] && r.value.record.age == data["age"]
              && r.value.record.land == data["land"] && r.value.record.uid == data["uid"]
              && r.value.record.timestamp == timestamp
              && r.value.record.previousHash == PreviousHash(l)
              && CalculateHash(h, r.value.record) == r.value.record.hash
    ensures r.Success? && ValidChain(h, l) ==> ValidChain(h, r.value.ledger)
  {
    if |data| == 0 then Failure(ValidationError(NoJsonData))
    else
      match FirstMissing(data, RequiredFields)
      case Some(f) => Failure(ValidationError(MissingField(f)))
      case None =>
        assert RequiredFields[1] in data && RequiredFields[2] in data;
        var l' := Append(h, l, timestamp, data["name"], data["uid"], data["age"], data["land"]);
        Success(Added(l', |l'| - 1, l'[|l'| - 1]))
  }

  /** A request that changes the ledger. */
  datatype Op =
    | FormSubmit(timestamp: string, name: string, age: string, land: string, uid: string)
    | ApiSubmit(timestamp: string, data: map<string, string>)
    | ClearAll

  /**
   * The ledger after one request. A clear empties it. An add either is refused
   * and leaves the ledger as it was, or is accepted and appends exactly one
   * record, so earlier records are never touched. Every request keeps the
   * chain invariants.
   */
  function Step(h: Hasher, l: Ledger, op: Op): (l': Ledger)
    ensures op.ClearAll? ==> l' == []
    ensures !op.ClearAll? ==> l <= l' && |l'| <= |l| + 1
    ensures op.FormSubmit? ==>
              (|l'| == |l| + 1 <==> AddRecord(h, l, op.timestamp, op.name, op.age, op.land, op.uid).Success?)
    ensures op.ApiSubmit? ==> (|l'| == |l| + 1 <==> ApiAddRecord(h, l, op.timestamp, op.data).Success?)
    ensures op.FormSubmit? && AddRecord(h, l, op.timestamp, op.name, op.age, op.land, op.uid).Success? ==>
              l' == AddRecord(h, l, op.timestamp, op.name, op.age, op.land, op.uid).value
    ensures op.ApiSubmit? && ApiAddRecord(h, l, op.timestamp, op.data).Success? ==>
              l' == ApiAddRecord(h, l, op.timestamp, op.data).value.ledger
    ensures ValidChain(h, l) ==> ValidChain(h, l')
  {
    match op
    case FormSubmit(ts, name, age, land, uid) =>
      (match AddRecord(h, l, ts, name, age, land, uid)
       case Success(l') => l'
       case Failure(_) => l)
    case ApiSubmit(ts, data) =>
      (match ApiAddRecord(h, l, ts, data)
       case Success(a) => a.ledger
       case Failure(_) => l)
    case ClearAll => []
  }

  /** The ledger after a sequence of requests, applied in order. */
  function Run(h: Hasher, l: Ledger, ops: seq<Op>): Ledger
    decreases |ops|
  {
    if |ops| == 0 then l else Run(h, Step(h, l, ops[0]), ops[1..])
  }

  lemma {:induction false} RunPreservesValid(h: Hasher, l: Ledger, ops: seq<Op>)
    requires ValidChain(h, l)
    ensures ValidChain(h, Run(h, l, ops))
    decreases |ops|
  {
    if |ops| > 0 {
      RunPreservesValid(h, Step(h, l, ops[0]), ops[1..]);
    }
  }

  /**
   * Every ledger reached from the empty one by adds and clears verifies
   * clean: valid, every record counted, no issues.
   */
  lemma ReachableVerifiesClean(h: Hasher, ops: seq<Op>)
    ensures var l := Run(h, [], ops);
            Verify(h, l) == Report(true, |l|, [])
  {
    RunPreservesValid(h, [], ops);
    ValidChainVerifiesClean(h, Run(h, [], ops));
  }

  /**
   * Without a clear the ledger is append-only: the starting ledger stays a
   * prefix of every later one, so no record is ever changed or removed.
   */
  lemma {:induction false} AppendOnlyWithoutClear(h: Hasher, l: Ledger, ops: seq<Op>)
    requires forall i :: 0 <= i < |ops| ==> !ops[i].ClearAll?
    ensures l <= Run(h, l, ops)
    ensures |l| <= |Run(h, l, ops)|
    decreases |ops|
  {
    if |ops| > 0 {
      var l' := Step(h, l, ops[0]);
      assert l <= l';
      AppendOnlyWithoutClear(h, l', ops[1..]);
    }
  }

  /**
   * Clearing empties the ledger whatever state it was in, even a tampered
   * one: the scan is then valid over zero records, the statistics report
   * nothing, and clearing again changes nothing.
   */
  lemma ClearResets(h: Hasher, l: Ledger)
    ensures Verify(h, Step(h, l, ClearAll)) == Report(true, 0, [])
    ensures GetStats(Step(h, l, ClearAll)) == Stats(0, 0, 0, None, None)
    ensures Step(h, Step(h, l, ClearAll), ClearAll) == Step(h, l, ClearAll)
  {
  }

  lemma ScenarioUids(l: Ledger)
    requires |l| == 3 && l[0].uid == "X" && l[1].uid == "Y" && l[2].uid == "X"
    ensures |Uids(l)| == 2
  {
    assert "X" != "Y" by { assert "X"[0] != "Y"[0]; }
    var p1, p2 := l[..1], l[..2];
    assert p1[..0] == [];
    assert Uids(p1) == {"X"};
    assert p2[..1] == p1;
    assert Uids(p2) == {"X", "Y"};
    assert l[..2] == p2;
    assert Uids(l) == {"X", "Y"};
  }

  lemma ScenarioMatches(l: Ledger)
    requires |l| == 3 && l[0].uid == "X" && l[1].uid == "Y" && l[2].uid == "X"
    ensures MatchIndices(l, "X", 0) == [0, 2]
    ensures MatchIndices(l, "Z", 0) == []
  {
    assert "X" != "Y" by { assert "X"[0] != "Y"[0]; }
    assert "X" != "Z" && "Y" != "Z" by { assert "X"[0] != "Z"[0] && "Y"[0] != "Z"[0]; }
    assert MatchIndices(l, "X", 2) == [2];
    assert MatchIndices(l, "X", 1) == [2];
    assert MatchIndices(l, "Z", 2) == [];
    assert MatchIndices(l, "Z", 1) == [];
  }

  /**
   * A ledger whose uids are X, Y, X: the uid lookup returns the record at
   * index 0, the history of X is the records at indices 0 and 2 in that
   * order, an unknown uid is not found, and two distinct uids are counted.
   */
  lemma LookupScenario(l: Ledger)
    requires |l| == 3 && l[0].uid == "X" && l[1].uid == "Y" && l[2].uid == "X"
    ensures GetRecord(l, Some("X")) == Success(l[0])
    ensures GetHistory(l, Some("X")) == Success([l[0], l[2]])
    ensures GetHistory(l, Some("Z")) == Failure(NotFound)
    ensures GetStats(l).uniqueUids == 2
  {
    ScenarioMatches(l);
    assert History(l, "X") == [l[0], l[2]];
    assert History(l, "Z") == [];
    FirstIndexIsFirstMatch(l, "X", 0);
    ScenarioUids(l);
  }

  /** Three form submissions, applied to the empty ledger one at a time. */
  lemma RunThree(h: Hasher, a: Op, b: Op, c: Op)
    ensures Run(h, [], [a, b, c]) == Step(h, Step(h, Step(h, [], a), b), c)
  {
    var ops := [a, b, c];
    var l1 := Step(h, [], a);
    var l2 := Step(h, l1, b);
    assert ops[1..] == [b, c];
    assert [b, c][1..] == [c];
    assert Run(h, [], ops) == Run(h, l1, [b, c]);
    assert Run(h, l1, [b, c]) == Run(h, l2, [c]);
    assert Run(h, l2, [c]) == Run(h, Step(h, l2, c), []);
  }

  /** The ledger three form submissions with uids X, Y, X build from the empty one. */
  function ThreeSubmissions(h: Hasher, t0: string, t1: string, t2: string): Ledger {
    Run(h, [], [FormSubmit(t0, "Ann", "35", "plot 1", "X"),
                FormSubmit(t1, "Bob", "42", "plot 2", "Y"),
                FormSubmit(t2, "Ann", "35", "plot 3", "X")])
  }

  lemma ThreeSubmissionsShape(h: Hasher, t0: string, t1: string, t2: string)
    ensures var l := ThreeSubmissions(h, t0, t1, t2);
            |l| == 3 && l[0].uid == "X" && l[1].uid == "Y" && l[2].uid == "X"
  {
    var a := FormSubmit(t0, "Ann", "35", "plot 1", "X");
    var b := FormSubmit(t1, "Bob", "42", "plot 2", "Y");
    var c := FormSubmit(t2, "Ann", "35", "plot 3", "X");
    RunThree(h, a, b, c);
    var l1 := Step(h, [], a);
    var l2 := Step(h, l1, b);
    var l3 := Step(h, l2, c);
    assert l1 == Append(h, [], t0, "Ann", "X", "35", "plot 1");
    assert l2 == Append(h, l1, t1, "Bob", "Y", "42", "plot 2");
    assert l3 == Append(h, l2, t2, "Ann", "X", "35", "plot 3");
    assert l3[0] == l1[0] && l3[1] == l2[1];
  }

  /**
   * Three form submissions with uids X, Y, X: three blocks, two distinct
   * uids and a clean scan.
   */
  lemma ThreeRecordScenario(h: Hasher, t0: string, t1: string, t2: string)
    ensures GetStats(ThreeSubmissions(h, t0, t1, t2)).totalBlocks == 3
    ensures GetStats(ThreeSubmissions(h, t0, t1, t2)).uniqueUids == 2
    ensures Verify(h, ThreeSubmissions(h, t0, t1, t2)) == Report(true, 3, [])
  {
    var l := ThreeSubmissions(h, t0, t1, t2);
    ThreeSubmissionsShape(h, t0, t1, t2);
    ScenarioUids(l);
    RunPreservesValid(h, [], [FormSubmit(t0, "Ann", "35", "plot 1", "X"),
                              FormSubmit(t1, "Bob", "42", "plot 2", "Y"),
                              FormSubmit(t2, "Ann", "35", "plot 3", "X")]);
    ValidChainVerifiesClean(h, l);
  }
}
