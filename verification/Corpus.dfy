/** Acceptance corpora (internal/acceptance/schema.go) and the validation that everything
    after it relies on (ValidateCorpus in internal/acceptance/loader.go). */
module Corpus {
  import opened Wrappers
  import opened Sequences

  datatype DataValue = DataValue(inlined: Option<string>, fixture: string)

  datatype CommandValue = CommandValue(argv: seq<string>, stdin: DataValue)

  datatype EventValue = EventValue(contract: string, event: string, input: DataValue)

  datatype Target = Target(kind: string, command: Option<CommandValue>, native: Option<EventValue>)

  datatype Actor = Actor(id: string, kind: string)

  datatype Assignment = Assignment(id: string, parties: string, role: string, state: string)

  datatype Evidence = Evidence(id: int, subject: string, value: DataValue)

  /** `rest` stands for the fields no mutation touches. */
  datatype Setup = Setup(rest: string, actors: seq<Actor>, assignments: seq<Assignment>, evidence: seq<Evidence>)

  datatype Expectation = Expectation(oracle: string, rest: string)

  datatype Case = Case(
    id: string, class_: string, target: Target, setup: Setup, expected: Expectation,
    delta: string, provenance: string, mutations: seq<string>)

  datatype Operator = Operator(id: string, compatible: seq<string>, oracle: string, maxPerCase: int)

  datatype Corpus = Corpus(schema: string, id: string, maxGenerated: int, cases: seq<Case>, operators: seq<Operator>)

  const SCHEMA := "pasture.acceptance-corpus/v1"
  const MUST_PASS := "must-pass"
  const MUST_FAIL := "must-fail"
  const MAX_CASES := 1024
  const MAX_OPERATORS := 64
  const MAX_GENERATED := 4096

  const REMOVE_ACTOR := "remove-actor"
  const UNKNOWN_ACTOR := "unknown-actor"
  const WRONG_ACTOR_KIND := "wrong-actor-kind"
  const ENDED_ASSIGNMENT := "ended-assignment"
  const WRONG_ROLE := "wrong-assignment-role"
  const WRONG_SUBJECT := "wrong-subject"
  const CHANGED_COMMAND := "changed-command"
  const CHANGED_EVIDENCE := "changed-evidence"
  const UNKNOWN_FIELD := "unknown-json-field"
  const TRAILING_JSON := "trailing-json"
  const EVENT_MISMATCH := "native-event-mismatch"

  predicate KnownOperator(id: string) {
    id in [REMOVE_ACTOR, UNKNOWN_ACTOR, WRONG_ACTOR_KIND, ENDED_ASSIGNMENT, WRONG_ROLE, WRONG_SUBJECT,
           CHANGED_COMMAND, CHANGED_EVIDENCE, UNKNOWN_FIELD, TRAILING_JSON, EVENT_MISMATCH]
  }

  predicate KnownOracle(oracle: string) {
    oracle in ["success", "validation-error", "authority-error", "identity-conflict", "gate-rejection",
               "native-transport", "no-writes"]
  }

  predicate KnownKind(kind: string) {
    kind == "production-command" || kind == "native-event"
  }

  predicate KnownClass(class_: string) {
    class_ == MUST_PASS || class_ == MUST_FAIL
  }

  predicate LowerAlnum(c: char) {
    'a' <= c <= 'z' || '0' <= c <= '9'
  }

  predicate IdChar(c: char) {
    LowerAlnum(c) || c == '.' || c == '_' || c == '-'
  }

  /** ^[a-z0-9][a-z0-9._-]{0,127}$ */
  predicate CorpusId(id: string) {
    1 <= |id| <= 128 && LowerAlnum(id[0]) && forall i | 0 <= i < |id| :: IdChar(id[i])
  }

  function CaseId(c: Case): string { c.id }

  function OperatorId(op: Operator): string { op.id }

  predicate OperatorOk(op: Operator) {
    && KnownOperator(op.id) && KnownOracle(op.oracle) && op.maxPerCase == 1
    && op.compatible != [] && forall kind | kind in op.compatible :: KnownKind(kind)
  }

  ghost predicate Declared(ops: seq<Operator>, id: string) {
    exists op :: op in ops && op.id == id
  }

  /** `checked` stands for the field checks of target, setup, delta, expectation and provenance. */
  ghost predicate RowOk(row: Case, ops: seq<Operator>, checked: Case -> bool) {
    && CorpusId(row.id) && KnownClass(row.class_) && checked(row)
    && |row.mutations| <= MAX_OPERATORS && NoRepeats(row.mutations)
    && forall id | id in row.mutations :: Declared(ops, id)
  }

  ghost predicate OperatorsOk(ops: seq<Operator>) {
    DistinctOn(OperatorId, ops) && forall op | op in ops :: OperatorOk(op) && NoRepeats(op.compatible)
  }

  ghost predicate RowsOk(rows: seq<Case>, ops: seq<Operator>, checked: Case -> bool) {
    DistinctOn(CaseId, rows) && forall row | row in rows :: RowOk(row, ops, checked)
  }

  ghost predicate HasClass(rows: seq<Case>, class_: string) {
    exists row :: row in rows && row.class_ == class_
  }

  ghost predicate CorpusOk(c: Corpus, checked: Case -> bool) {
    && c.schema == SCHEMA && CorpusId(c.id)
    && 0 < c.maxGenerated <= MAX_GENERATED
    && 0 < |c.cases| <= MAX_CASES && 0 < |c.operators| <= MAX_OPERATORS
    && OperatorsOk(c.operators)
    && RowsOk(c.cases, c.operators, checked)
    && HasClass(c.cases, MUST_PASS) && HasClass(c.cases, MUST_FAIL)
  }

  method Repeats(items: seq<string>) returns (repeated: bool)
    ensures repeated <==> !NoRepeats(items)
  {
    var seen: set<string> := {};
    for i := 0 to |items|
      invariant NoRepeats(items[..i]) && forall x :: x in seen <==> x in items[..i]
    {
      assert items[..i + 1] == items[..i] + [items[i]];
      if items[i] in seen {
        var k :| 0 <= k < i && items[..i][k] == items[i];
        assert items[k] == items[i];
        return true;
      }
      seen := seen + {items[i]};
    }
    assert items[..|items|] == items;
    return false;
  }

  method ValidateOperators(ops: seq<Operator>) returns (byId: map<string, Operator>, ok: bool)
    ensures ok <==> OperatorsOk(ops)
    ensures ok ==> forall id :: id in byId <==> Declared(ops, id)
  {
    byId := map[];
    for i := 0 to |ops|
      invariant OperatorsOk(ops[..i]) && forall id :: id in byId <==> Declared(ops[..i], id)
    {
      var op := ops[i];
      assert ops[..i + 1] == ops[..i] + [op] && op in ops;
      var repeated := Repeats(op.compatible);
      if !OperatorOk(op) || repeated {
        return byId, false;
      }
      DeclaredStep(ops[..i], op);
      if op.id in byId {
        DeclaredTwice(ops, i);
        return byId, false;
      }
      OneMoreOperator(ops[..i], op);
      byId := byId[op.id := op];
    }
    assert ops[..|ops|] == ops;
    return byId, true;
  }

  lemma DeclaredStep(ops: seq<Operator>, op: Operator)
    ensures forall id :: Declared(ops + [op], id) <==> Declared(ops, id) || id == op.id
  {
    assert op in ops + [op];
  }

  lemma OneMoreOperator(ops: seq<Operator>, op: Operator)
    requires DistinctOn(OperatorId, ops) && !Declared(ops, op.id)
    ensures DistinctOn(OperatorId, ops + [op])
  {
    forall i | 0 <= i < |ops| ensures ops[i].id != op.id {
      assert ops[i] in ops;
    }
  }

  lemma DeclaredTwice(ops: seq<Operator>, i: nat)
    requires i < |ops| && Declared(ops[..i], ops[i].id)
    ensures !DistinctOn(OperatorId, ops)
  {
    var op :| op in ops[..i] && op.id == ops[i].id;
    var k :| 0 <= k < i && ops[..i][k] == op;
    assert OperatorId(ops[k]) == OperatorId(ops[i]);
  }

  method ValidateMutations(mutations: seq<string>, byId: map<string, Operator>, ghost ops: seq<Operator>) returns (ok: bool)
    requires forall id :: id in byId <==> Declared(ops, id)
    ensures ok <==> |mutations| <= MAX_OPERATORS && NoRepeats(mutations) && forall id | id in mutations :: Declared(ops, id)
  {
    if |mutations| > MAX_OPERATORS {
      return false;
    }
    var seen: set<string> := {};
    for i := 0 to |mutations|
      invariant NoRepeats(mutations[..i]) && forall x :: x in seen <==> x in mutations[..i]
      invariant forall k | 0 <= k < i :: mutations[k] in byId
    {
      assert mutations[..i + 1] == mutations[..i] + [mutations[i]];
      if mutations[i] in seen {
        var k :| 0 <= k < i && mutations[..i][k] == mutations[i];
        assert mutations[k] == mutations[i];
        return false;
      }
      seen := seen + {mutations[i]};
      if mutations[i] !in byId {
        assert mutations[i] in mutations;
        return false;
      }
    }
    assert mutations[..|mutations|] == mutations;
    return true;
  }

  method ValidateRows(rows: seq<Case>, byId: map<string, Operator>, ghost ops: seq<Operator>, checked: Case -> bool)
    returns (passing: bool, failing: bool, ok: bool)
    requires forall id :: id in byId <==> Declared(ops, id)
    ensures ok <==> RowsOk(rows, ops, checked)
    ensures ok ==> (passing <==> HasClass(rows, MUST_PASS)) && (failing <==> HasClass(rows, MUST_FAIL))
  {
    var ids: set<string> := {};
    passing, failing := false, false;
    for i := 0 to |rows|
      invariant RowsOk(rows[..i], ops, checked)
      invariant forall id :: id in ids <==> exists k :: 0 <= k < i && rows[k].id == id
      invariant passing <==> exists k :: 0 <= k < i && rows[k].class_ == MUST_PASS
      invariant failing <==> exists k :: 0 <= k < i && rows[k].class_ == MUST_FAIL
    {
      var row := rows[i];
      assert rows[..i + 1] == rows[..i] + [row] && row in rows;
      if !CorpusId(row.id) {
        return passing, failing, false;
      }
      if row.id in ids {
        var k :| 0 <= k < i && rows[k].id == row.id;
        assert CaseId(rows[k]) == CaseId(rows[i]);
        return passing, failing, false;
      }
      ids := ids + {row.id};
      var mutationsOk := ValidateMutations(row.mutations, byId, ops);
      if !KnownClass(row.class_) || !checked(row) || !mutationsOk {
        return passing, failing, false;
      }
      passing := passing || row.class_ == MUST_PASS;
      failing := failing || row.class_ == MUST_FAIL;
    }
    assert rows[..|rows|] == rows;
    forall class_ ensures HasClass(rows, class_) <==> exists k :: 0 <= k < |rows| && rows[k].class_ == class_ {
      if k :| 0 <= k < |rows| && rows[k].class_ == class_ {
        assert rows[k] in rows;
      }
    }
    return passing, failing, true;
  }

  /** ValidateCorpus accepts exactly well-formed corpora. */
  method ValidateCorpus(c: Corpus, checked: Case -> bool) returns (ok: bool)
    ensures ok <==> CorpusOk(c, checked)
  {
    if c.schema != SCHEMA || !CorpusId(c.id) || c.maxGenerated <= 0 || c.maxGenerated > MAX_GENERATED {
      return false;
    }
    if |c.cases| == 0 || |c.cases| > MAX_CASES || |c.operators| == 0 || |c.operators| > MAX_OPERATORS {
      return false;
    }
    var byId, operatorsOk := ValidateOperators(c.operators);
    if !operatorsOk {
      return false;
    }
    var passing, failing, rowsOk := ValidateRows(c.cases, byId, c.operators, checked);
    return rowsOk && passing && failing;
  }
}
