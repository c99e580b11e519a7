/** Evaluating observed mutants against an expansion (EvaluateMutations in
    internal/acceptance/report.go), and that every expansion passes the evaluator's checks. */
module Evaluation {
  import opened Wrappers
  import opened Orders
  import opened Sequences
  import opened Corpus
  import opened Expansion
  import Text

  datatype Observation = Observation(mutantId: string, oracle: string, result: string, command: seq<string>)

  datatype MutantResult = MutantResult(
    mutantId: string, sourceId: string, operatorId: string, expected: string, observed: string,
    result: string, command: seq<string>, killed: bool)

  datatype Report = Report(operators: seq<Accounting>, mutants: seq<MutantResult>)

  datatype Failure = Survived(mutantId: string) | NotExecuted(mutantId: string) | NoneExecuted(op: string) | NoneKilled(op: string)

  datatype Verdict = Rejected | Failing(report: Report, failures: seq<Failure>) | Passed(report: Report)

  const MAX_RESULT_BYTES := 0x10_0000
  const MAX_ARGS := 256
  const MAX_ARG_BYTES := 0x1_0000

  function AccountId(a: Accounting): string { a.operatorId }

  function ObservedId(o: Observation): string { o.mutantId }

  // ----- structure -----

  ghost predicate SourcesOk(sources: seq<Case>) {
    DistinctOn(CaseId, sources) && forall s | s in sources :: s.id != ""
  }

  ghost predicate HasSource(sources: seq<Case>, id: string) {
    exists s :: s in sources && s.id == id
  }

  ghost predicate MutantOk(m: Mutant, sources: seq<Case>, checked: Case -> bool) {
    && m.row.id != "" && m.sourceId != "" && HasSource(sources, m.sourceId)
    && KnownOperator(m.operatorId) && KnownOracle(m.oracle)
    && m.row.expected.oracle == m.oracle
    && CompletedOk(m.row, checked)
  }

  ghost predicate MutantsOk(mutants: seq<Mutant>, sources: seq<Case>, checked: Case -> bool) {
    DistinctOn(MutantIdOf, mutants) && forall m | m in mutants :: MutantOk(m, sources, checked)
  }

  predicate AccountOk(a: Accounting, sources: nat, made: nat) {
    && KnownOperator(a.operatorId)
    && a.selected >= 0 && a.incompatible >= 0 && a.duplicate == 0
    && a.selected <= sources && a.incompatible <= sources - a.selected
    && a.executed == 0 && a.killed == 0 && a.survived == 0
    && made != 0 && a.selected == made
  }

  ghost predicate AccountsOk(accounting: seq<Accounting>, sources: nat, mutants: seq<Mutant>) {
    DistinctOn(AccountId, accounting)
    && forall a | a in accounting :: AccountOk(a, sources, MadeBy(mutants, a.operatorId))
  }

  ghost predicate HasAccount(accounting: seq<Accounting>, op: string) {
    exists a :: a in accounting && a.operatorId == op
  }

  /** Everything the evaluator demands of an expansion. */
  ghost predicate Structural(e: Expansion, checked: Case -> bool) {
    && 0 < |e.sources| <= MAX_CASES && 0 < |e.mutants| <= MAX_GENERATED && 0 < |e.accounting| <= MAX_OPERATORS
    && SourcesOk(e.sources)
    && MutantsOk(e.mutants, e.sources, checked)
    && AccountsOk(e.accounting, |e.sources|, e.mutants)
    && forall m | m in e.mutants :: HasAccount(e.accounting, m.operatorId)
  }

  // ----- an expansion is structural -----

  /** Every request names one of the sources and one of the operators. */
  ghost predicate From(rs: seq<Request>, sources: seq<Case>, ops: seq<Operator>) {
    forall r | r in rs :: r.source in sources && r.operator in ops && r.operator.id in r.source.mutations
  }

  lemma {:induction false} RequestsOfFrom(source: Case, ops: seq<Operator>, n: nat)
    requires n <= |source.mutations| && forall id | id in source.mutations :: id in ById(ops)
    ensures forall r | r in RequestsOf(source, ById(ops), n) ::
              r.source == source && r.operator in ops && r.operator.id in source.mutations
    ensures |SortStrings(source.mutations)| == |source.mutations|
    ensures forall i | 0 <= i < n :: RequestsOf(source, ById(ops), n)[i].operator.id == SortStrings(source.mutations)[i]
  {
    hide SortStrings, ById, Declared;
    SortedSize(source.mutations);
    ByIdMembers(ops);
    if n > 0 {
      RequestsOfFrom(source, ops, n - 1);
      assert SortStrings(source.mutations)[n - 1] in multiset(SortStrings(source.mutations));
    }
  }

  lemma {:induction false} RequestsFrom(sources: seq<Case>, ops: seq<Operator>)
    requires AllDeclared(sources, ById(ops))
    ensures From(Requests(sources, ById(ops)), sources, ops)
    decreases |sources|
  {
    if sources != [] {
      var last := sources[|sources| - 1];
      assert last in sources;
      RequestsFrom(sources[..|sources| - 1], ops);
      RequestsOfFrom(last, ops, |last.mutations|);
    }
  }

  /** A source and an operator meet in at most one request. */
  ghost predicate DistinctRequests(rs: seq<Request>) {
    forall i, j | 0 <= i < j < |rs| :: rs[i].source.id != rs[j].source.id || rs[i].operator.id != rs[j].operator.id
  }

  lemma {:induction false} RequestsAreDistinct(sources: seq<Case>, ops: seq<Operator>)
    requires AllDeclared(sources, ById(ops)) && DistinctOn(CaseId, sources)
    requires forall s | s in sources :: NoRepeats(s.mutations)
    ensures DistinctRequests(Requests(sources, ById(ops)))
    decreases |sources|
  {
    if sources != [] {
      var n := |sources| - 1;
      var last := sources[n];
      assert last in sources;
      RequestsAreDistinct(sources[..n], ops);
      RequestsFrom(sources[..n], ops);
      RequestsOfFrom(last, ops, |last.mutations|);
      NoRepeatsPermuted(SortStrings(last.mutations), last.mutations);
      var a, b := Requests(sources[..n], ById(ops)), RequestsOf(last, ById(ops), |last.mutations|);
      forall i, j | 0 <= i < |a| && 0 <= j < |b| ensures a[i].source.id != b[j].source.id {
        assert a[i] in a && b[j] in b;
        assert a[i].source in sources[..n];
        var k :| 0 <= k < n && sources[k] == a[i].source;
        assert CaseId(sources[k]) != CaseId(sources[n]);
      }
    }
  }

  /** A mutant comes from one request. */
  lemma {:induction false} ProducedFrom(rs: seq<Request>, tools: Tools)
    ensures forall m | m in Produced(rs, tools) :: exists r :: r in rs && Judge(r, tools) == Made(m)
    decreases |rs|
  {
    if rs != [] {
      var last, rest := rs[|rs| - 1], rs[..|rs| - 1];
      ProducedFrom(rest, tools);
      assert rs == rest + [last];
      forall m | m in Produced(rs, tools) ensures exists r :: r in rs && Judge(r, tools) == Made(m) {
        if m in Produced(rest, tools) {
          var r :| r in rest && Judge(r, tools) == Made(m);
          assert r in rs;
        } else {
          assert last in rs && Judge(last, tools) == Made(m);
        }
      }
    }
  }

  lemma MadeIsNamed(r: Request, m: Mutant, tools: Tools)
    requires Judge(r, tools) == Made(m)
    ensures m.row.id == MutantId(r.source.id, r.operator.id) && m.sourceId == r.source.id
    ensures m.operatorId == r.operator.id && m.oracle == r.operator.oracle == m.row.expected.oracle
  {
  }

  /** Mutant ids are distinct because requests are. */
  lemma {:induction false} ProducedAreDistinct(rs: seq<Request>, tools: Tools)
    requires DistinctRequests(rs) && forall r | r in rs :: KnownOperator(r.operator.id)
    ensures DistinctOn(MutantIdOf, Produced(rs, tools))
    decreases |rs|
  {
    if rs != [] {
      var n := |rs| - 1;
      ProducedAreDistinct(rs[..n], tools);
      var made := Produced(rs[..n], tools);
      if Judge(rs[n], tools).Made? {
        var m := Judge(rs[n], tools).mutant;
        forall i | 0 <= i < |made| ensures made[i].row.id != m.row.id {
          ProducedFrom(rs[..n], tools);
          assert made[i] in made;
          var r :| r in rs[..n] && Judge(r, tools) == Made(made[i]);
          var k :| 0 <= k < n && rs[k] == r;
          MadeIsNamed(r, made[i], tools);
          MadeIsNamed(rs[n], m, tools);
          OperatorsHaveNoUnderscore(r.operator.id);
          OperatorsHaveNoUnderscore(rs[n].operator.id);
          MutantIdInjective(r.source.id, r.operator.id, rs[n].source.id, rs[n].operator.id);
        }
      }
    }
  }

  /** How many requests name an operator. */
  function Touches(rs: seq<Request>, op: string): nat {
    if rs == [] then 0 else Touches(rs[..|rs| - 1], op) + if rs[|rs| - 1].operator.id == op then 1 else 0
  }

  lemma {:induction false} TouchesConcat(a: seq<Request>, b: seq<Request>, op: string)
    ensures Touches(a + b, op) == Touches(a, op) + Touches(b, op)
    decreases |b|
  {
    if b == [] {
      assert a + b == a;
    } else {
      assert (a + b)[..|a + b| - 1] == a + b[..|b| - 1];
      TouchesConcat(a, b[..|b| - 1], op);
    }
  }

  /** Every request an operator touches is made, skipped or refused. */
  lemma {:induction false} CountedRequests(rs: seq<Request>, op: string, tools: Tools)
    ensures MadeBy(Produced(rs, tools), op) + SkippedBy(rs, tools, op) <= Touches(rs, op)
    decreases |rs|
  {
    if rs == [] {
      assert Mapped(OperatorOf, Produced(rs, tools)) == [];
    } else {
      var last, rest := rs[|rs| - 1], rs[..|rs| - 1];
      CountedRequests(rest, op, tools);
      if Judge(last, tools).Made? {
        var m := Judge(last, tools).mutant;
        MadeIsNamed(last, m, tools);
        assert Produced(rs, tools) == Produced(rest, tools) + [m];
        MadeByStep(Produced(rest, tools), m, op);
      } else {
        assert Produced(rs, tools) == Produced(rest, tools);
      }
    }
  }

  lemma {:induction false} TouchesIds(rs: seq<Request>, ids: seq<string>, op: string)
    requires |rs| == |ids| && forall i | 0 <= i < |rs| :: rs[i].operator.id == ids[i]
    ensures Touches(rs, op) == multiset(ids)[op]
    decreases |rs|
  {
    if rs != [] {
      var n := |rs| - 1;
      TouchesIds(rs[..n], ids[..n], op);
      assert ids == ids[..n] + [ids[n]];
    }
  }

  lemma TouchesOf(source: Case, ops: seq<Operator>, op: string)
    requires forall id | id in source.mutations :: id in ById(ops)
    requires NoRepeats(source.mutations)
    ensures Touches(RequestsOf(source, ById(ops), |source.mutations|), op) <= 1
  {
    var sorted := SortStrings(source.mutations);
    RequestsOfFrom(source, ops, |source.mutations|);
    TouchesIds(RequestsOf(source, ById(ops), |source.mutations|), sorted, op);
    NoRepeatsPermuted(sorted, source.mutations);
    NoRepeatsCount(sorted);
  }

  /** An operator is selected or incompatible at most once a source. */
  lemma {:induction false} AtMostOncePerSource(sources: seq<Case>, ops: seq<Operator>, op: string)
    requires AllDeclared(sources, ById(ops)) && forall s | s in sources :: NoRepeats(s.mutations)
    ensures Touches(Requests(sources, ById(ops)), op) <= |sources|
    decreases |sources|
  {
    if sources != [] {
      var n := |sources| - 1;
      var last := sources[n];
      assert last in sources;
      AtMostOncePerSource(sources[..n], ops, op);
      TouchesOf(last, ops, op);
      TouchesConcat(Requests(sources[..n], ById(ops)), RequestsOf(last, ById(ops), |last.mutations|), op);
    }
  }

  lemma MadeSome(mutants: seq<Mutant>, op: string)
    ensures MadeBy(mutants, op) > 0 ==> |mutants| > 0
  {
    assert |multiset(Mapped(OperatorOf, mutants))| == |mutants|;
  }

  lemma MadeByPermuted(a: seq<Mutant>, b: seq<Mutant>, op: string)
    requires multiset(a) == multiset(b)
    ensures MadeBy(a, op) == MadeBy(b, op)
  {
    MappedPermuted(OperatorOf, a, b);
  }

  /** Facts of a valid corpus, sorted. */
  lemma SortedCorpus(c: Corpus, checked: Case -> bool)
    requires CorpusOk(c, checked)
    ensures var sources, ops := SortCases(c.cases), SortOperators(c.operators);
            && |sources| == |c.cases| && |ops| == |c.operators|
            && SourcesOk(sources) && DistinctOn(OperatorId, ops)
            && (forall s | s in sources :: CorpusId(s.id) && NoRepeats(s.mutations))
            && (forall op | op in ops :: KnownOperator(op.id) && KnownOracle(op.oracle))
  {
    var sources, ops := SortCases(c.cases), SortOperators(c.operators);
    assert |multiset(sources)| == |multiset(c.cases)| && |multiset(ops)| == |multiset(c.operators)|;
    NoRepeatsPermuted(sources, c.cases);
    NoRepeatsPermuted(ops, c.operators);
    DistinctOnPermuted(CaseId, sources, c.cases);
    DistinctOnPermuted(OperatorId, ops, c.operators);
    assert forall s | s in sources :: RowOk(s, c.operators, checked);
    assert forall op | op in ops :: OperatorOk(op);
  }

  lemma ProducedOk(sources: seq<Case>, ops: seq<Operator>, rs: seq<Request>, tools: Tools, m: Mutant)
    requires From(rs, sources, ops) && (forall r | r in rs :: RequestOk(r, tools)) && m in Produced(rs, tools)
    requires SourcesOk(sources) && forall op | op in ops :: KnownOperator(op.id) && KnownOracle(op.oracle)
    ensures MutantOk(m, sources, tools.checked)
    ensures exists op :: op in ops && op.id == m.operatorId
  {
    ProducedFrom(rs, tools);
    var r :| r in rs && Judge(r, tools) == Made(m);
    MadeIsNamed(r, m, tools);
    assert RequestOk(r, tools);
  }

  lemma AccountsAreOk(ops: seq<Operator>, sources: seq<Case>, mutants: seq<Mutant>, rs: seq<Request>, tools: Tools)
    requires DistinctOn(OperatorId, ops) && forall op | op in ops :: KnownOperator(op.id)
    requires forall op | op in ops :: MadeBy(Produced(rs, tools), op.id) > 0
    requires forall op | op in ops :: Touches(rs, op.id) <= |sources|
    requires multiset(mutants) == multiset(Produced(rs, tools))
    ensures AccountsOk(Accounts(ops, Produced(rs, tools), rs, tools), |sources|, mutants)
  {
    var accounting := Accounts(ops, Produced(rs, tools), rs, tools);
    forall a | a in accounting ensures AccountOk(a, |sources|, MadeBy(mutants, a.operatorId)) {
      var i :| 0 <= i < |ops| && accounting[i] == a;
      assert ops[i] in ops;
      MadeByPermuted(mutants, Produced(rs, tools), a.operatorId);
      CountedRequests(rs, a.operatorId, tools);
    }
    forall i, j | 0 <= i < j < |accounting| ensures accounting[i].operatorId != accounting[j].operatorId {
      assert OperatorId(ops[i]) != OperatorId(ops[j]);
    }
  }

  /** Every successful expansion passes every structural check of the evaluator. */
  lemma ExpansionIsStructural(c: Corpus, tools: Tools)
    requires Expandable(c, tools)
    ensures var rs := RequestsIn(c);
            Structural(Expansion(SortCases(c.cases), SortMutants(Produced(rs, tools)),
                                 Accounts(SortOperators(c.operators), Produced(rs, tools), rs, tools)), tools.checked)
  {
    var sources, ops, rs := SortCases(c.cases), SortOperators(c.operators), RequestsIn(c);
    SortedCorpus(c, tools.checked);
    SortedExpansion(sources, ops, rs, c.maxGenerated, tools);
  }

  lemma SortedExpansion(sources: seq<Case>, ops: seq<Operator>, rs: seq<Request>, max: int, tools: Tools)
    requires AllDeclared(sources, ById(ops)) && rs == Requests(sources, ById(ops)) && Expands(sources, ops, max, tools)
    requires 0 < |sources| <= MAX_CASES && 0 < |ops| <= MAX_OPERATORS && max <= MAX_GENERATED
    requires SourcesOk(sources) && DistinctOn(OperatorId, ops)
    requires forall s | s in sources :: CorpusId(s.id) && NoRepeats(s.mutations)
    requires forall op | op in ops :: KnownOperator(op.id) && KnownOracle(op.oracle)
    ensures Structural(Expansion(sources, SortMutants(Produced(rs, tools)), Accounts(ops, Produced(rs, tools), rs, tools)), tools.checked)
  {
    var made := Produced(rs, tools);
    var mutants, accounting := SortMutants(made), Accounts(ops, made, rs, tools);
    RequestsFrom(sources, ops);
    RequestsAreDistinct(sources, ops);
    ProducedAreDistinct(rs, tools);
    NoRepeatsPermuted(mutants, made);
    DistinctOnPermuted(MutantIdOf, mutants, made);
    assert |multiset(mutants)| == |multiset(made)|;
    assert ops[0] in ops;
    MadeSome(made, ops[0].id);
    forall op | op in ops ensures Touches(rs, op.id) <= |sources| {
      AtMostOncePerSource(sources, ops, op.id);
    }
    AccountsAreOk(ops, sources, mutants, rs, tools);
    forall m | m in mutants ensures MutantOk(m, sources, tools.checked) && HasAccount(accounting, m.operatorId) {
      ProducedOk(sources, ops, rs, tools, m);
      var op :| op in ops && op.id == m.operatorId;
      var i :| 0 <= i < |ops| && ops[i] == op;
      assert accounting[i].operatorId == m.operatorId;
    }
  }

  // ----- the structural checks, run -----

  function MutantMap(mutants: seq<Mutant>): map<string, Mutant> {
    if mutants == [] then map[] else MutantMap(mutants[..|mutants| - 1])[mutants[|mutants| - 1].row.id := mutants[|mutants| - 1]]
  }

  function StatsMap(accounting: seq<Accounting>): map<string, Accounting> {
    if accounting == [] then map[]
    else StatsMap(accounting[..|accounting| - 1])[accounting[|accounting| - 1].operatorId := accounting[|accounting| - 1]]
  }

  ghost predicate HasMutant(mutants: seq<Mutant>, id: string) {
    exists m :: m in mutants && m.row.id == id
  }

  lemma {:induction false} MutantMapMembers(mutants: seq<Mutant>)
    ensures forall id :: id in MutantMap(mutants) <==> HasMutant(mutants, id)
    ensures forall id | id in MutantMap(mutants) :: MutantMap(mutants)[id] in mutants && MutantMap(mutants)[id].row.id == id
    decreases |mutants|
  {
    if mutants != [] {
      var last, rest := mutants[|mutants| - 1], mutants[..|mutants| - 1];
      MutantMapMembers(rest);
      assert mutants == rest + [last];
      forall id ensures HasMutant(mutants, id) <==> HasMutant(rest, id) || id == last.row.id {
        assert last in mutants;
      }
    }
  }

  lemma {:induction false} StatsMapMembers(accounting: seq<Accounting>)
    ensures forall op :: op in StatsMap(accounting) <==> HasAccount(accounting, op)
    ensures forall op | op in StatsMap(accounting) :: StatsMap(accounting)[op] in accounting && StatsMap(accounting)[op].operatorId == op
    decreases |accounting|
  {
    if accounting != [] {
      var last, rest := accounting[|accounting| - 1], accounting[..|accounting| - 1];
      StatsMapMembers(rest);
      assert accounting == rest + [last];
      forall op ensures HasAccount(accounting, op) <==> HasAccount(rest, op) || op == last.operatorId {
        assert last in accounting;
      }
    }
  }

  method CheckSources(sources: seq<Case>) returns (ids: set<string>, ok: bool)
    ensures ok <==> SourcesOk(sources)
    ensures ok ==> forall id :: id in ids <==> HasSource(sources, id)
  {
    ids := {};
    for i := 0 to |sources|
      invariant SourcesOk(sources[..i]) && forall id :: id in ids <==> HasSource(sources[..i], id)
    {
      var s := sources[i];
      assert sources[..i + 1] == sources[..i] + [s] && s in sources;
      if s.id == "" {
        return ids, false;
      }
      if s.id in ids {
        var t :| t in sources[..i] && t.id == s.id;
        var k :| 0 <= k < i && sources[..i][k] == t;
        assert CaseId(sources[k]) == CaseId(sources[i]);
        return ids, false;
      }
      SourceStep(sources[..i], s);
      ids := ids + {s.id};
    }
    assert sources[..|sources|] == sources;
    return ids, true;
  }

  lemma SourceStep(sources: seq<Case>, s: Case)
    ensures forall id :: HasSource(sources + [s], id) <==> HasSource(sources, id) || id == s.id
    ensures SourcesOk(sources) && !HasSource(sources, s.id) && s.id != "" ==> SourcesOk(sources + [s])
  {
    assert s in sources + [s];
    if SourcesOk(sources) && !HasSource(sources, s.id) {
      forall i | 0 <= i < |sources| ensures sources[i].id != s.id {
        assert sources[i] in sources;
      }
    }
  }

  /** The mutant loop; it also counts the mutants of each operator. */
  method CheckMutants(mutants: seq<Mutant>, ids: set<string>, ghost sources: seq<Case>, checked: Case -> bool)
    returns (byId: map<string, Mutant>, perOperator: map<string, nat>, ok: bool)
    requires forall id :: id in ids <==> HasSource(sources, id)
    ensures ok <==> MutantsOk(mutants, sources, checked)
    ensures ok ==> byId == MutantMap(mutants) && Counts(perOperator, mutants)
  {
    hide CompletedOk, KnownOperator, KnownOracle, HasSource, MutantsOk, MutantMap, Counts;
    NoMutantsYet(mutants, sources, checked);
    byId, perOperator := map[], map[];
    for i := 0 to |mutants|
      invariant MutantsOk(mutants[..i], sources, checked)
      invariant byId == MutantMap(mutants[..i]) && Counts(perOperator, mutants[..i])
    {
      var m := mutants[i];
      MutantStep(mutants, i, sources, checked);
      if m.row.id == "" || m.sourceId == "" || m.sourceId !in ids || !KnownOperator(m.operatorId) || !KnownOracle(m.oracle) {
        return byId, perOperator, false;
      }
      if m.row.expected.oracle != m.oracle || !CompletedOk(m.row, checked) {
        return byId, perOperator, false;
      }
      if m.row.id in byId {
        return byId, perOperator, false;
      }
      CountsStep(perOperator, mutants[..i], m);
      byId := byId[m.row.id := m];
      perOperator := perOperator[m.operatorId := 1 + if m.operatorId in perOperator then perOperator[m.operatorId] else 0];
    }
    assert mutants[..|mutants|] == mutants;
    return byId, perOperator, true;
  }

  /** The operators that have mutants, with how many. */
  ghost predicate Counts(perOperator: map<string, nat>, mutants: seq<Mutant>) {
    forall op :: (if op in perOperator then perOperator[op] > 0 && perOperator[op] == MadeBy(mutants, op) else MadeBy(mutants, op) == 0)
  }

  lemma CountsStep(perOperator: map<string, nat>, mutants: seq<Mutant>, m: Mutant)
    requires Counts(perOperator, mutants)
    ensures Counts(perOperator[m.operatorId := 1 + if m.operatorId in perOperator then perOperator[m.operatorId] else 0], mutants + [m])
  {
    forall op {
      MadeByStep(mutants, m, op);
    }
  }

  lemma NoMutantsYet(mutants: seq<Mutant>, sources: seq<Case>, checked: Case -> bool)
    ensures MutantsOk(mutants[..0], sources, checked) && MutantMap(mutants[..0]) == map[] && Counts(map[], mutants[..0])
  {
  }

  /** One more mutant: it must be fine by itself and its id must be new. */
  lemma MutantStep(mutants: seq<Mutant>, i: nat, sources: seq<Case>, checked: Case -> bool)
    requires i < |mutants| && MutantsOk(mutants[..i], sources, checked)
    ensures var m := mutants[i];
            && mutants[..i + 1] == mutants[..i] + [m]
            && MutantMap(mutants[..i + 1]) == MutantMap(mutants[..i])[m.row.id := m]
            && (MutantsOk(mutants[..i + 1], sources, checked)
                <==> MutantOk(m, sources, checked) && m.row.id !in MutantMap(mutants[..i]))
            && (MutantsOk(mutants, sources, checked) ==> MutantsOk(mutants[..i + 1], sources, checked))
  {
    hide CompletedOk, KnownOperator, KnownOracle, HasSource, MutantOk;
    var m, before := mutants[i], mutants[..i];
    assert mutants[..i + 1] == before + [m] && mutants[..i + 1][..i] == before && m in before + [m];
    MutantMapMembers(before);
    if HasMutant(before, m.row.id) {
      RepeatedMutant(mutants[..i + 1], i);
    } else {
      DistinctMutant(before, m);
    }
  }

  lemma DistinctMutant(mutants: seq<Mutant>, m: Mutant)
    requires DistinctOn(MutantIdOf, mutants) && !HasMutant(mutants, m.row.id)
    ensures DistinctOn(MutantIdOf, mutants + [m])
  {
    forall i | 0 <= i < |mutants| ensures mutants[i].row.id != m.row.id {
      assert mutants[i] in mutants;
    }
  }

  lemma RepeatedMutant(mutants: seq<Mutant>, i: nat)
    requires i < |mutants| && HasMutant(mutants[..i], mutants[i].row.id)
    ensures !DistinctOn(MutantIdOf, mutants)
  {
    var t :| t in mutants[..i] && t.row.id == mutants[i].row.id;
    var k :| 0 <= k < i && mutants[..i][k] == t;
    assert MutantIdOf(mutants[k]) == MutantIdOf(mutants[i]);
  }

  method CheckAccounts(accounting: seq<Accounting>, sources: nat, perOperator: map<string, nat>, ghost mutants: seq<Mutant>)
    returns (stats: map<string, Accounting>, ok: bool)
    requires Counts(perOperator, mutants)
    ensures ok <==> AccountsOk(accounting, sources, mutants)
    ensures ok ==> stats == StatsMap(accounting)
  {
    hide AccountOk, MadeBy, HasAccount;
    stats := map[];
    for i := 0 to |accounting|
      invariant AccountsOk(accounting[..i], sources, mutants) && stats == StatsMap(accounting[..i])
    {
      var a := accounting[i];
      assert accounting[..i + 1] == accounting[..i] + [a] && a in accounting && accounting[..i + 1][..i] == accounting[..i];
      StatsMapMembers(accounting[..i]);
      if a.operatorId in stats {
        RepeatedAccount(accounting, i);
        return stats, false;
      }
      var made := if a.operatorId in perOperator then perOperator[a.operatorId] else 0;
      if !AccountOk(a, sources, made) {
        return stats, false;
      }
      DistinctAccount(accounting[..i], a);
      stats := stats[a.operatorId := a];
    }
    assert accounting[..|accounting|] == accounting;
    return stats, true;
  }

  lemma DistinctAccount(accounting: seq<Accounting>, a: Accounting)
    requires DistinctOn(AccountId, accounting) && !HasAccount(accounting, a.operatorId)
    ensures DistinctOn(AccountId, accounting + [a])
  {
    forall i | 0 <= i < |accounting| ensures accounting[i].operatorId != a.operatorId {
      assert accounting[i] in accounting;
    }
  }

  lemma RepeatedAccount(accounting: seq<Accounting>, i: nat)
    requires i < |accounting| && HasAccount(accounting[..i], accounting[i].operatorId)
    ensures !DistinctOn(AccountId, accounting)
  {
    var t :| t in accounting[..i] && t.operatorId == accounting[i].operatorId;
    var k :| 0 <= k < i && accounting[..i][k] == t;
    assert AccountId(accounting[k]) == AccountId(accounting[i]);
  }

  /** The checks before any observation is read. */
  method CheckExpansion(e: Expansion, checked: Case -> bool)
    returns (mutants: map<string, Mutant>, stats: map<string, Accounting>, ok: bool)
    ensures ok <==> Structural(e, checked)
    ensures ok ==> mutants == MutantMap(e.mutants) && stats == StatsMap(e.accounting)
  {
    hide SourcesOk, MutantsOk, AccountsOk, Counts, HasAccount, MutantMap, StatsMap;
    mutants, stats := map[], map[];
    if |e.sources| > MAX_CASES || |e.mutants| > MAX_GENERATED || |e.accounting| > MAX_OPERATORS {
      return mutants, stats, false;
    }
    if |e.sources| == 0 || |e.mutants| == 0 || |e.accounting| == 0 {
      return mutants, stats, false;
    }
    var ids, sourcesOk := CheckSources(e.sources);
    if !sourcesOk {
      return mutants, stats, false;
    }
    var perOperator, mutantsOk, accountsOk;
    mutants, perOperator, mutantsOk := CheckMutants(e.mutants, ids, e.sources, checked);
    if !mutantsOk {
      return mutants, stats, false;
    }
    stats, accountsOk := CheckAccounts(e.accounting, |e.sources|, perOperator, e.mutants);
    if !accountsOk {
      return mutants, stats, false;
    }
    StatsMapMembers(e.accounting);
    for i := 0 to |e.mutants|
      invariant forall k | 0 <= k < i :: HasAccount(e.accounting, e.mutants[k].operatorId)
    {
      if e.mutants[i].operatorId !in stats {
        assert e.mutants[i] in e.mutants;
        return mutants, stats, false;
      }
    }
    SameOperators(e, perOperator, stats);
    if |stats| != |perOperator| {
      return mutants, stats, false;
    }
    return mutants, stats, true;
  }

  /** The final comparison of the two operator sets cannot fail. */
  lemma SameOperators(e: Expansion, perOperator: map<string, nat>, stats: map<string, Accounting>)
    requires stats == StatsMap(e.accounting) && Counts(perOperator, e.mutants)
    requires AccountsOk(e.accounting, |e.sources|, e.mutants)
    requires forall m | m in e.mutants :: HasAccount(e.accounting, m.operatorId)
    ensures |stats| == |perOperator|
  {
    StatsMapMembers(e.accounting);
    forall op ensures op in stats <==> op in perOperator {
      if op in stats {
        assert AccountOk(stats[op], |e.sources|, MadeBy(e.mutants, op));
      }
      if op in perOperator {
        MadeByWitness(e.mutants, op);
        var m :| m in e.mutants && m.operatorId == op;
        assert HasAccount(e.accounting, m.operatorId);
      }
    }
    assert stats.Keys == perOperator.Keys;
    assert |stats| == |stats.Keys| && |perOperator| == |perOperator.Keys|;
  }

  lemma MadeByWitness(mutants: seq<Mutant>, op: string)
    ensures MadeBy(mutants, op) > 0 <==> exists m :: m in mutants && m.operatorId == op
  {
    var ops := Mapped(OperatorOf, mutants);
    MappedAt(OperatorOf, mutants);
    assert op in ops <==> op in multiset(ops);
    if op in ops {
      var i :| 0 <= i < |ops| && ops[i] == op;
      assert mutants[i] in mutants;
    }
    if m :| m in mutants && m.operatorId == op {
      var i :| 0 <= i < |mutants| && mutants[i] == m;
      assert ops[i] == op;
    }
  }

  // ----- observations -----

  predicate ArgOk(arg: string) {
    arg != "" && |arg| <= MAX_ARG_BYTES
  }

  ghost predicate ObservationOk(o: Observation, mutants: seq<Mutant>) {
    && o.mutantId != "" && HasMutant(mutants, o.mutantId)
    && KnownOracle(o.oracle)
    && Text.TrimSpace(o.result) != "" && |o.result| <= MAX_RESULT_BYTES
    && 0 < |o.command| <= MAX_ARGS && forall arg | arg in o.command :: ArgOk(arg)
  }

  /** Each observation is well-formed and names a mutant, and no mutant is named twice. */
  ghost predicate ObservationsOk(observations: seq<Observation>, mutants: seq<Mutant>) {
    DistinctOn(ObservedId, observations) && forall o | o in observations :: ObservationOk(o, mutants)
  }

  method ArgsOk(command: seq<string>) returns (ok: bool)
    ensures ok <==> forall arg | arg in command :: ArgOk(arg)
  {
    for i := 0 to |command|
      invariant forall k | 0 <= k < i :: ArgOk(command[k])
    {
      if !ArgOk(command[i]) {
        return false;
      }
    }
    return true;
  }

  method CheckObservation(o: Observation, byId: map<string, Mutant>, ghost mutants: seq<Mutant>) returns (ok: bool)
    requires byId == MutantMap(mutants)
    ensures ok <==> ObservationOk(o, mutants)
  {
    MutantMapMembers(mutants);
    if o.mutantId == "" || o.mutantId !in byId || !KnownOracle(o.oracle) {
      return false;
    }
    if Text.TrimSpace(o.result) == "" || |o.result| > MAX_RESULT_BYTES {
      return false;
    }
    if |o.command| == 0 || |o.command| > MAX_ARGS {
      return false;
    }
    ok := ArgsOk(o.command);
  }

  method CheckObservations(observations: seq<Observation>, byId: map<string, Mutant>, ghost mutants: seq<Mutant>) returns (ok: bool)
    requires byId == MutantMap(mutants)
    ensures ok <==> ObservationsOk(observations, mutants)
  {
    var seen: set<string> := {};
    for i := 0 to |observations|
      invariant ObservationsOk(observations[..i], mutants)
      invariant forall id :: id in seen <==> exists k :: 0 <= k < i && observations[k].mutantId == id
    {
      var o := observations[i];
      assert observations[..i + 1] == observations[..i] + [o] && o in observations;
      if o.mutantId in seen {
        var k :| 0 <= k < i && observations[k].mutantId == o.mutantId;
        assert ObservedId(observations[k]) == ObservedId(observations[i]);
        return false;
      }
      seen := seen + {o.mutantId};
      var each := CheckObservation(o, byId, mutants);
      if !each {
        return false;
      }
    }
    assert observations[..|observations|] == observations;
    return true;
  }

  // ----- accounting -----

  /** The operator and the verdict an observation counts for. */
  function CountsFor(o: Observation, byId: map<string, Mutant>): Option<(string, bool)> {
    if o.mutantId in byId then Some((byId[o.mutantId].operatorId, o.oracle == byId[o.mutantId].oracle)) else None
  }

  /** How many observations count for an operator as killed or as survived. */
  function Tally(observations: seq<Observation>, byId: map<string, Mutant>, op: string, killed: bool): nat {
    if observations == [] then 0
    else
      Tally(observations[..|observations| - 1], byId, op, killed) +
      if CountsFor(observations[|observations| - 1], byId) == Some((op, killed)) then 1 else 0
  }

  lemma {:induction false} TallyWitness(observations: seq<Observation>, byId: map<string, Mutant>, op: string, killed: bool)
    ensures Tally(observations, byId, op, killed) > 0 <==>
            exists o :: o in observations && CountsFor(o, byId) == Some((op, killed))
    decreases |observations|
  {
    if observations != [] {
      var last, rest := observations[|observations| - 1], observations[..|observations| - 1];
      TallyWitness(rest, byId, op, killed);
      assert observations == rest + [last];
    }
  }

  /** An operator's account after these observations. */
  function Settled(a: Accounting, observations: seq<Observation>, byId: map<string, Mutant>): Accounting {
    var killed, survived := Tally(observations, byId, a.operatorId, true), Tally(observations, byId, a.operatorId, false);
    a.(executed := a.executed + killed + survived, killed := a.killed + killed, survived := a.survived + survived)
  }

  function ResultOf(o: Observation, m: Mutant): MutantResult {
    MutantResult(m.row.id, m.sourceId, m.operatorId, m.oracle, o.oracle, o.result, o.command, o.oracle == m.oracle)
  }

  function ResultsOf(observations: seq<Observation>, byId: map<string, Mutant>): (results: seq<MutantResult>)
    requires forall o | o in observations :: o.mutantId in byId
    ensures |results| == |observations|
    ensures forall i | 0 <= i < |results| :: results[i] == ResultOf(observations[i], byId[observations[i].mutantId])
  {
    seq(|observations|, i requires 0 <= i < |observations| =>
          assert observations[i] in observations; ResultOf(observations[i], byId[observations[i].mutantId]))
  }

  ghost predicate SettledStats(stats: map<string, Accounting>, initial: map<string, Accounting>, observations: seq<Observation>, byId: map<string, Mutant>) {
    stats.Keys == initial.Keys && forall op | op in stats :: stats[op] == Settled(initial[op], observations, byId)
  }

  /** Every named mutant has an account under its own operator. */
  ghost predicate Linked(byId: map<string, Mutant>, stats: map<string, Accounting>) {
    && (forall id | id in byId :: byId[id].operatorId in stats && byId[id].row.id == id)
    && (forall op | op in stats :: stats[op].operatorId == op)
  }

  /** One observation more on an account. */
  function Counted(a: Accounting, killed: bool): Accounting {
    if killed then a.(executed := a.executed + 1, killed := a.killed + 1)
    else a.(executed := a.executed + 1, survived := a.survived + 1)
  }

  lemma SettledStep(a: Accounting, observations: seq<Observation>, i: nat, byId: map<string, Mutant>)
    requires i < |observations| && observations[i].mutantId in byId
    ensures Settled(a, observations[..i + 1], byId)
         == if byId[observations[i].mutantId].operatorId == a.operatorId
            then Counted(Settled(a, observations[..i], byId), observations[i].oracle == byId[observations[i].mutantId].oracle)
            else Settled(a, observations[..i], byId)
  {
    assert observations[..i + 1][..i] == observations[..i];
  }

  lemma StatsStep(stats: map<string, Accounting>, initial: map<string, Accounting>, observations: seq<Observation>, i: nat, byId: map<string, Mutant>)
    requires i < |observations| && observations[i].mutantId in byId && Linked(byId, initial)
    requires SettledStats(stats, initial, observations[..i], byId)
    ensures var m := byId[observations[i].mutantId];
            && m.operatorId in stats
            && SettledStats(stats[m.operatorId := Counted(stats[m.operatorId], observations[i].oracle == m.oracle)],
                            initial, observations[..i + 1], byId)
  {
    forall op | op in stats {
      SettledStep(initial[op], observations, i, byId);
    }
  }

  lemma SettledNames(stats: map<string, Accounting>, initial: map<string, Accounting>, observations: seq<Observation>, byId: map<string, Mutant>)
    requires SettledStats(stats, initial, observations, byId) && Linked(byId, initial)
    ensures forall op | op in stats :: stats[op].operatorId == op
  {
  }

  method CountOne(account: Accounting, killed: bool) returns (counted: Accounting)
    ensures counted == Counted(account, killed)
  {
    counted := account.(executed := account.executed + 1);
    if killed {
      counted := counted.(killed := counted.killed + 1);
    } else {
      counted := counted.(survived := counted.survived + 1);
    }
  }

  /** This mutant was observed with another oracle than its own. */
  ghost predicate SurvivedIn(observations: seq<Observation>, byId: map<string, Mutant>, id: string) {
    id in byId && exists o :: o in observations && o.mutantId == id && o.oracle != byId[id].oracle
  }

  lemma SurvivedStep(observations: seq<Observation>, i: nat, byId: map<string, Mutant>, id: string)
    requires i < |observations| && observations[i].mutantId in byId
    ensures var o := observations[i];
            SurvivedIn(observations[..i + 1], byId, id)
            <==> SurvivedIn(observations[..i], byId, id) || (o.mutantId == id && o.oracle != byId[id].oracle)
  {
    assert observations[..i + 1] == observations[..i] + [observations[i]];
  }

  lemma RunStarts(observations: seq<Observation>, byId: map<string, Mutant>, initial: map<string, Accounting>)
    ensures SettledStats(initial, initial, observations[..0], byId)
    ensures forall id :: !SurvivedIn(observations[..0], byId, id)
  {
  }

  /** The counting loop. */
  method Run(observations: seq<Observation>, byId: map<string, Mutant>, initial: map<string, Accounting>)
    returns (stats: map<string, Accounting>, results: seq<MutantResult>, failures: seq<Failure>)
    requires forall o | o in observations :: o.mutantId in byId
    requires Linked(byId, initial)
    ensures SettledStats(stats, initial, observations, byId)
    ensures results == ResultsOf(observations, byId)
    ensures forall f :: f in failures <==> f.Survived? && SurvivedIn(observations, byId, f.mutantId)
  {
    RunStarts(observations, byId, initial);
    hide SettledStats, SurvivedIn, Counted, ResultOf;
    stats, results, failures := initial, [], [];
    for i := 0 to |observations|
      invariant SettledStats(stats, initial, observations[..i], byId)
      invariant results == ResultsOf(observations, byId)[..i]
      invariant forall f :: f in failures <==> f.Survived? && SurvivedIn(observations[..i], byId, f.mutantId)
    {
      assert observations[i] in observations;
      forall id {
        SurvivedStep(observations, i, byId, id);
      }
      StatsStep(stats, initial, observations, i, byId);
      var o := observations[i];
      var m := byId[o.mutantId];
      var killed := o.oracle == m.oracle;
      var account := CountOne(stats[m.operatorId], killed);
      stats := stats[m.operatorId := account];
      if !killed {
        failures := failures + [Survived(m.row.id)];
      }
      results := results + [ResultOf(o, m)];
    }
    assert observations[..|observations|] == observations;
  }

  /** The loop over the mutants nobody observed. */
  method Unexecuted(byId: map<string, Mutant>, observations: seq<Observation>) returns (failures: seq<Failure>)
    ensures forall f ::
              f in failures <==>
              f.NotExecuted? && f.mutantId in byId && forall o | o in observations :: o.mutantId != f.mutantId
  {
    var seen: set<string> := {};
    for i := 0 to |observations|
      invariant forall id :: id in seen <==> exists k :: 0 <= k < i && observations[k].mutantId == id
    {
      seen := seen + {observations[i].mutantId};
    }
    failures := [];
    var rest := byId.Keys;
    while rest != {}
      invariant rest <= byId.Keys
      invariant forall f ::
        f in failures <==> f.NotExecuted? && f.mutantId in byId && f.mutantId !in rest && f.mutantId !in seen
      decreases |rest|
    {
      var id :| id in rest;
      if id !in seen {
        failures := failures + [NotExecuted(id)];
      }
      rest := rest - {id};
    }
    forall id ensures id in seen <==> exists o :: o in observations && o.mutantId == id {
      if id in seen {
        var k :| 0 <= k < |observations| && observations[k].mutantId == id;
        assert observations[k] in observations;
      }
    }
  }

  /** What is wrong with an operator that has an account. */
  predicate Idle(f: Failure, stats: map<string, Accounting>) {
    match f
    case NoneExecuted(op) => op in stats && stats[op].executed == 0
    case NoneKilled(op) => op in stats && stats[op].killed == 0
    case _ => false
  }

  /** The loop over the accounts. */
  method CloseAccounts(stats: map<string, Accounting>) returns (rows: seq<Accounting>, failures: seq<Failure>)
    requires forall op | op in stats :: stats[op].operatorId == op
    ensures forall a :: a in rows <==> a.operatorId in stats && stats[a.operatorId] == a
    ensures NoRepeats(rows)
    ensures forall f :: f in failures <==> Idle(f, stats)
  {
    rows, failures := [], [];
    var rest := stats.Keys;
    while rest != {}
      invariant rest <= stats.Keys && NoRepeats(rows)
      invariant forall a :: a in rows <==> a.operatorId in stats && a.operatorId !in rest && stats[a.operatorId] == a
      invariant forall f :: f in failures <==> Idle(f, stats) && f.op !in rest
      decreases |rest|
    {
      var op :| op in rest;
      if stats[op].executed == 0 {
        failures := failures + [NoneExecuted(op)];
      }
      if stats[op].killed == 0 {
        failures := failures + [NoneKilled(op)];
      }
      rows := rows + [stats[op]];
      rest := rest - {op};
    }
  }

  // ----- EvaluateMutations -----

  function SortAccounts(rows: seq<Accounting>): (sorted: seq<Accounting>)
    ensures multiset(sorted) == multiset(rows) && SortedBy(ByText(AccountId), sorted)
  {
    StringOrder();
    OnIsComparator(AccountId, CompareString);
    Sort(ByText(AccountId), rows)
  }

  function ResultId(r: MutantResult): string { r.mutantId }

  function SortResults(results: seq<MutantResult>): (sorted: seq<MutantResult>)
    ensures multiset(sorted) == multiset(results) && SortedBy(ByText(ResultId), sorted)
  {
    StringOrder();
    OnIsComparator(ResultId, CompareString);
    Sort(ByText(ResultId), results)
  }

  ghost predicate Acceptable(e: Expansion, observations: seq<Observation>, checked: Case -> bool) {
    Structural(e, checked) && |observations| <= MAX_GENERATED && ObservationsOk(observations, e.mutants)
  }

  /** Every mutant is observed; with ObservationsOk, observations and mutants are then in
      one-to-one correspondence. */
  ghost predicate AllObserved(observations: seq<Observation>, mutants: seq<Mutant>) {
    forall m | m in mutants :: exists o :: o in observations && o.mutantId == m.row.id
  }

  /** Every observed oracle is the declared one. */
  ghost predicate OraclesMatch(observations: seq<Observation>, mutants: seq<Mutant>) {
    forall o, m | o in observations && m in mutants && o.mutantId == m.row.id :: o.oracle == m.oracle
  }

  /** The report: one settled row per account and one result per observation, in order. */
  ghost predicate Reports(report: Report, e: Expansion, observations: seq<Observation>) {
    var byId := MutantMap(e.mutants);
    && (forall o | o in observations :: o.mutantId in byId)
    && (forall a :: a in report.operators <==> exists b :: b in e.accounting && a == Settled(b, observations, byId))
    && NoRepeats(report.operators) && SortedBy(ByText(AccountId), report.operators)
    && report.mutants == SortResults(ResultsOf(observations, byId))
  }

  lemma LinkedMaps(e: Expansion, checked: Case -> bool)
    requires Structural(e, checked)
    ensures Linked(MutantMap(e.mutants), StatsMap(e.accounting))
  {
    MutantMapMembers(e.mutants);
    StatsMapMembers(e.accounting);
  }

  lemma NamedById(mutants: seq<Mutant>, m: Mutant)
    requires DistinctOn(MutantIdOf, mutants) && m in mutants
    ensures m.row.id in MutantMap(mutants) && MutantMap(mutants)[m.row.id] == m
  {
    MutantMapMembers(mutants);
    DistinctOnMembers(MutantIdOf, mutants);
    assert HasMutant(mutants, m.row.id);
    var n := MutantMap(mutants)[m.row.id];
    assert MutantIdOf(n) == MutantIdOf(m);
  }

  lemma AccountByOperator(accounting: seq<Accounting>, b: Accounting)
    requires DistinctOn(AccountId, accounting) && b in accounting
    ensures b.operatorId in StatsMap(accounting) && StatsMap(accounting)[b.operatorId] == b
  {
    StatsMapMembers(accounting);
    DistinctOnMembers(AccountId, accounting);
    assert HasAccount(accounting, b.operatorId);
    assert AccountId(StatsMap(accounting)[b.operatorId]) == AccountId(b);
  }

  lemma ObservationsNamed(observations: seq<Observation>, mutants: seq<Mutant>)
    requires ObservationsOk(observations, mutants)
    ensures forall o | o in observations :: o.mutantId in MutantMap(mutants)
  {
    MutantMapMembers(mutants);
    forall o | o in observations ensures o.mutantId in MutantMap(mutants) {
      assert ObservationOk(o, mutants);
    }
  }

  /** The failures an evaluation has to name, in terms of what was put in and the report. */
  ghost predicate IsFailure(f: Failure, e: Expansion, observations: seq<Observation>, report: Report) {
    match f
    case Survived(id) =>
      exists o, m :: o in observations && m in e.mutants && o.mutantId == m.row.id == id && o.oracle != m.oracle
    case NotExecuted(id) => HasMutant(e.mutants, id) && forall o | o in observations :: o.mutantId != id
    case NoneExecuted(op) => exists a :: a in report.operators && a.operatorId == op && a.executed == 0
    case NoneKilled(op) => exists a :: a in report.operators && a.operatorId == op && a.killed == 0
  }

  /** In the maps the evaluator works on, surviving and unobserved mutants are the expansion's. */
  lemma Conditions(e: Expansion, observations: seq<Observation>, checked: Case -> bool, id: string)
    requires Acceptable(e, observations, checked)
    ensures SurvivedIn(observations, MutantMap(e.mutants), id)
       <==> exists o, m :: o in observations && m in e.mutants && o.mutantId == m.row.id == id && o.oracle != m.oracle
    ensures id in MutantMap(e.mutants) <==> HasMutant(e.mutants, id)
  {
    var byId := MutantMap(e.mutants);
    MutantMapMembers(e.mutants);
    forall m | m in e.mutants ensures m.row.id in byId && byId[m.row.id] == m {
      NamedById(e.mutants, m);
    }
  }

  /** When every mutant is observed with its oracle, no operator's counters are zero. */
  lemma NoIdleOperator(e: Expansion, observations: seq<Observation>, checked: Case -> bool, stats: map<string, Accounting>, op: string)
    requires Acceptable(e, observations, checked)
    requires AllObserved(observations, e.mutants) && OraclesMatch(observations, e.mutants)
    requires SettledStats(stats, StatsMap(e.accounting), observations, MutantMap(e.mutants)) && op in stats
    ensures stats[op].executed != 0 && stats[op].killed != 0
  {
    StatsMapMembers(e.accounting);
    var a := StatsMap(e.accounting)[op];
    assert AccountOk(a, |e.sources|, MadeBy(e.mutants, op));
    MadeByWitness(e.mutants, op);
    var m :| m in e.mutants && m.operatorId == op;
    NamedById(e.mutants, m);
    var o :| o in observations && o.mutantId == m.row.id;
    assert CountsFor(o, MutantMap(e.mutants)) == Some((op, true));
    TallyWitness(observations, MutantMap(e.mutants), op, true);
  }

  /** Without surviving or unobserved mutants there is nothing to report at all. */
  lemma NothingFails(e: Expansion, observations: seq<Observation>, checked: Case -> bool, stats: map<string, Accounting>, f: Failure)
    requires Acceptable(e, observations, checked)
    requires SettledStats(stats, StatsMap(e.accounting), observations, MutantMap(e.mutants))
    requires AllObserved(observations, e.mutants) && OraclesMatch(observations, e.mutants)
    ensures !Idle(f, stats)
  {
    if (f.NoneExecuted? || f.NoneKilled?) && f.op in stats {
      NoIdleOperator(e, observations, checked, stats, f.op);
    }
  }

  /** EvaluateMutations: malformed input is rejected; otherwise it returns nil exactly when
      every mutant was observed and every observation shows the declared oracle, and an error
      names exactly the surviving mutants, the unobserved ones and the idle operators. */
  method EvaluateMutations(e: Expansion, observations: seq<Observation>, checked: Case -> bool) returns (verdict: Verdict)
    ensures verdict.Rejected? <==> !Acceptable(e, observations, checked)
    ensures verdict.Passed? <==>
            && Acceptable(e, observations, checked)
            && AllObserved(observations, e.mutants) && OraclesMatch(observations, e.mutants)
    ensures !verdict.Rejected? ==> Reports(verdict.report, e, observations)
    ensures verdict.Failing? ==>
              forall f :: f in verdict.failures <==> IsFailure(f, e, observations, verdict.report)
  {
    hide MutantMap, StatsMap, SettledStats, Structural, ObservationsOk, IsFailure, Idle, Reports, SurvivedIn;
    if |observations| > MAX_GENERATED {
      return Rejected;
    }
    var byId, initial, structural := CheckExpansion(e, checked);
    if !structural {
      return Rejected;
    }
    var observed := CheckObservations(observations, byId, e.mutants);
    if !observed {
      return Rejected;
    }
    LinkedMaps(e, checked);
    ObservationsNamed(observations, e.mutants);
    var stats, results, survived := Run(observations, byId, initial);
    var missing := Unexecuted(byId, observations);
    SettledNames(stats, initial, observations, byId);
    var rows, idle := CloseAccounts(stats);
    var report := Report(SortAccounts(rows), SortResults(results));
    ReportIsRight(e, observations, checked, stats, rows);
    var failures := survived + missing + idle;
    FailuresAreExact(e, observations, checked, stats, rows, report, failures);
    NoFailures(e, observations, checked, stats, report, failures);
    if |failures| != 0 {
      return Failing(report, failures);
    }
    return Passed(report);
  }

  /** The three lists together are the failures. */
  lemma FailuresAreExact(e: Expansion, observations: seq<Observation>, checked: Case -> bool, stats: map<string, Accounting>,
                         rows: seq<Accounting>, report: Report, failures: seq<Failure>)
    requires Acceptable(e, observations, checked)
    requires SettledStats(stats, StatsMap(e.accounting), observations, MutantMap(e.mutants))
    requires multiset(report.operators) == multiset(rows)
    requires forall a :: a in rows <==> a.operatorId in stats && stats[a.operatorId] == a
    requires forall op | op in stats :: stats[op].operatorId == op
    requires forall f ::
               f in failures <==>
               || (f.Survived? && SurvivedIn(observations, MutantMap(e.mutants), f.mutantId))
               || (f.NotExecuted? && f.mutantId in MutantMap(e.mutants) && forall o | o in observations :: o.mutantId != f.mutantId)
               || Idle(f, stats)
    ensures forall f :: f in failures <==> IsFailure(f, e, observations, report)
  {
    forall f ensures f in failures <==> IsFailure(f, e, observations, report) {
      if f.Survived? || f.NotExecuted? {
        Conditions(e, observations, checked, f.mutantId);
      } else {
        IdleInReport(f, stats, rows, report);
      }
    }
  }

  /** There is nothing to name exactly when the observations answer every mutant as declared. */
  lemma NoFailures(e: Expansion, observations: seq<Observation>, checked: Case -> bool, stats: map<string, Accounting>,
                   report: Report, failures: seq<Failure>)
    requires Acceptable(e, observations, checked)
    requires SettledStats(stats, StatsMap(e.accounting), observations, MutantMap(e.mutants))
    requires forall f :: f in failures <==> IsFailure(f, e, observations, report)
    requires forall f | f in failures && (f.NoneExecuted? || f.NoneKilled?) :: Idle(f, stats)
    ensures failures == [] <==> AllObserved(observations, e.mutants) && OraclesMatch(observations, e.mutants)
  {
    hide MutantMap, StatsMap, Acceptable, SettledStats, Idle;
    if !AllObserved(observations, e.mutants) {
      var m :| m in e.mutants && forall o | o in observations :: o.mutantId != m.row.id;
      assert IsFailure(NotExecuted(m.row.id), e, observations, report);
    } else if !OraclesMatch(observations, e.mutants) {
      var o, m :| o in observations && m in e.mutants && o.mutantId == m.row.id && o.oracle != m.oracle;
      assert IsFailure(Survived(m.row.id), e, observations, report);
    } else if failures != [] {
      var f := failures[0];
      assert f in failures;
      NothingFails(e, observations, checked, stats, f);
    }
  }

  lemma IdleInReport(f: Failure, stats: map<string, Accounting>, rows: seq<Accounting>, report: Report)
    requires multiset(report.operators) == multiset(rows)
    requires forall a :: a in rows <==> a.operatorId in stats && stats[a.operatorId] == a
    requires f.NoneExecuted? || f.NoneKilled?
    requires forall op | op in stats :: stats[op].operatorId == op
    ensures Idle(f, stats)
       <==> exists a :: a in report.operators && a.operatorId == f.op && if f.NoneExecuted? then a.executed == 0 else a.killed == 0
  {
    forall a ensures a in report.operators <==> a in rows {
      assert a in report.operators <==> a in multiset(report.operators);
    }
    if Idle(f, stats) {
      assert stats[f.op] in rows;
    }
  }

  lemma ReportIsRight(e: Expansion, observations: seq<Observation>, checked: Case -> bool, stats: map<string, Accounting>, rows: seq<Accounting>)
    requires Acceptable(e, observations, checked) && NoRepeats(rows)
    requires forall o | o in observations :: o.mutantId in MutantMap(e.mutants)
    requires SettledStats(stats, StatsMap(e.accounting), observations, MutantMap(e.mutants))
    requires forall a :: a in rows <==> a.operatorId in stats && stats[a.operatorId] == a
    ensures Reports(Report(SortAccounts(rows), SortResults(ResultsOf(observations, MutantMap(e.mutants)))), e, observations)
  {
    hide MutantMap, StatsMap, Acceptable, SettledStats, Settled, NoRepeats, DistinctOn, SortAccounts, SortResults;
    DistinctAccounts(e, observations, checked);
    NoRepeatsPermuted(SortAccounts(rows), rows);
    forall a {
      RowsAreSettled(e.accounting, observations, MutantMap(e.mutants), stats, rows, a);
    }
  }

  lemma DistinctAccounts(e: Expansion, observations: seq<Observation>, checked: Case -> bool)
    requires Acceptable(e, observations, checked)
    ensures DistinctOn(AccountId, e.accounting)
  {
  }

  /** The rows are the settled accounts of the expansion, no more and no fewer. */
  lemma RowsAreSettled(accounting: seq<Accounting>, observations: seq<Observation>, byId: map<string, Mutant>,
                       stats: map<string, Accounting>, rows: seq<Accounting>, a: Accounting)
    requires DistinctOn(AccountId, accounting)
    requires SettledStats(stats, StatsMap(accounting), observations, byId)
    requires forall x :: x in rows <==> x.operatorId in stats && stats[x.operatorId] == x
    ensures a in rows <==> exists b :: b in accounting && a == Settled(b, observations, byId)
  {
    hide StatsMap, Tally;
    StatsMapMembers(accounting);
    if a in rows {
      var b := StatsMap(accounting)[a.operatorId];
      assert b in accounting && a == Settled(b, observations, byId);
    }
    if b :| b in accounting && a == Settled(b, observations, byId) {
      AccountByOperator(accounting, b);
    }
  }

  // ----- conservation -----

  /** In every report, what an operator executed it killed or let survive, and what it was
      selected for is what the expansion made. */
  lemma Balanced(e: Expansion, observations: seq<Observation>, checked: Case -> bool, report: Report, a: Accounting)
    requires Acceptable(e, observations, checked) && Reports(report, e, observations) && a in report.operators
    ensures a.executed == a.killed + a.survived && a.killed >= 0 && a.survived >= 0
    ensures a.selected == MadeBy(e.mutants, a.operatorId) && a.duplicate == 0
  {
    var byId := MutantMap(e.mutants);
    var b :| b in e.accounting && a == Settled(b, observations, byId);
    assert AccountOk(b, |e.sources|, MadeBy(e.mutants, b.operatorId));
  }

  /** The executions of all operators together. */
  function Executions(accounting: seq<Accounting>, observations: seq<Observation>, byId: map<string, Mutant>): nat {
    if accounting == [] then 0
    else
      var op := accounting[|accounting| - 1].operatorId;
      Executions(accounting[..|accounting| - 1], observations, byId)
      + Tally(observations, byId, op, true) + Tally(observations, byId, op, false)
  }

  lemma {:induction false} ExecutionsStep(accounting: seq<Accounting>, observations: seq<Observation>, i: nat, byId: map<string, Mutant>)
    requires i < |observations| && observations[i].mutantId in byId
    ensures Executions(accounting, observations[..i + 1], byId)
         == Executions(accounting, observations[..i], byId)
            + multiset(Mapped(AccountId, accounting))[byId[observations[i].mutantId].operatorId]
    decreases |accounting|
  {
    if accounting != [] {
      ExecutionsStep(accounting[..|accounting| - 1], observations, i, byId);
      assert observations[..i + 1][..i] == observations[..i];
    }
  }

  /** Every observation is counted once, for one operator. */
  lemma {:induction false} EveryObservationCounts(accounting: seq<Accounting>, observations: seq<Observation>, n: nat, byId: map<string, Mutant>)
    requires n <= |observations| && DistinctOn(AccountId, accounting)
    requires forall o | o in observations :: o.mutantId in byId && HasAccount(accounting, byId[o.mutantId].operatorId)
    ensures Executions(accounting, observations[..n], byId) == n
  {
    if n == 0 {
      NoExecutions(accounting, byId);
    } else {
      EveryObservationCounts(accounting, observations, n - 1, byId);
      assert observations[n - 1] in observations;
      ExecutionsStep(accounting, observations, n - 1, byId);
      OneAccount(accounting, byId[observations[n - 1].mutantId].operatorId);
    }
  }

  lemma {:induction false} NoExecutions(accounting: seq<Accounting>, byId: map<string, Mutant>)
    ensures Executions(accounting, [], byId) == 0
    decreases |accounting|
  {
    if accounting != [] {
      NoExecutions(accounting[..|accounting| - 1], byId);
    }
  }

  function ExecutedSum(rows: seq<Accounting>): int {
    if rows == [] then 0 else ExecutedSum(rows[..|rows| - 1]) + rows[|rows| - 1].executed
  }

  /** The executions a report shows add up to the observations it was made from. */
  lemma ExecutionsAddUp(e: Expansion, observations: seq<Observation>, checked: Case -> bool, report: Report)
    requires Acceptable(e, observations, checked) && Reports(report, e, observations)
    ensures ExecutedSum(report.operators) == |observations|
  {
    var byId := MutantMap(e.mutants);
    MutantMapMembers(e.mutants);
    OneRowPerOperator(e, observations, checked, report);
    forall o | o in observations ensures HasAccount(report.operators, byId[o.mutantId].operatorId) {
      var m := byId[o.mutantId];
      var b :| b in e.accounting && b.operatorId == m.operatorId;
      assert Settled(b, observations, byId) in report.operators;
    }
    EveryObservationCounts(report.operators, observations, |observations|, byId);
    assert observations[..|observations|] == observations;
    SumOfExecutions(report.operators, observations, byId);
  }

  lemma OneRowPerOperator(e: Expansion, observations: seq<Observation>, checked: Case -> bool, report: Report)
    requires Acceptable(e, observations, checked) && Reports(report, e, observations)
    ensures DistinctOn(AccountId, report.operators)
    ensures forall a | a in report.operators ::
              a.executed == Tally(observations, MutantMap(e.mutants), a.operatorId, true)
                          + Tally(observations, MutantMap(e.mutants), a.operatorId, false)
  {
    var byId := MutantMap(e.mutants);
    DistinctOnMembers(AccountId, e.accounting);
    forall a | a in report.operators
      ensures a.executed == Tally(observations, byId, a.operatorId, true) + Tally(observations, byId, a.operatorId, false)
    {
      var b :| b in e.accounting && a == Settled(b, observations, byId);
      assert AccountOk(b, |e.sources|, MadeBy(e.mutants, b.operatorId));
    }
    forall x, y | x in report.operators && y in report.operators && AccountId(x) == AccountId(y) ensures x == y {
      var b :| b in e.accounting && x == Settled(b, observations, byId);
      var c :| c in e.accounting && y == Settled(c, observations, byId);
      assert AccountId(b) == AccountId(c);
    }
    DistinctOnMembers(AccountId, report.operators);
  }

  lemma {:induction false} SumOfExecutions(rows: seq<Accounting>, observations: seq<Observation>, byId: map<string, Mutant>)
    requires forall a | a in rows ::
               a.executed == Tally(observations, byId, a.operatorId, true) + Tally(observations, byId, a.operatorId, false)
    ensures ExecutedSum(rows) == Executions(rows, observations, byId)
    decreases |rows|
  {
    if rows != [] {
      SumOfExecutions(rows[..|rows| - 1], observations, byId);
    }
  }

  lemma OneAccount(accounting: seq<Accounting>, op: string)
    requires DistinctOn(AccountId, accounting) && HasAccount(accounting, op)
    ensures multiset(Mapped(AccountId, accounting))[op] == 1
  {
    var ids := Mapped(AccountId, accounting);
    MappedAt(AccountId, accounting);
    var a :| a in accounting && a.operatorId == op;
    var i :| 0 <= i < |accounting| && accounting[i] == a;
    assert ids[i] == op;
    OccursOnce(ids, op);
  }

  /** The end-to-end guarantee: on the expansion of a corpus the structural checks never
      reject, and the verdict depends on the observations alone. */
  method ExpandAndEvaluate(c: Corpus, tools: Tools, observations: seq<Observation>) returns (verdict: Option<Verdict>)
    ensures verdict.Some? <==> Expandable(c, tools)
    ensures verdict.Some? ==>
              var mutants := SortMutants(Produced(RequestsIn(c), tools));
              && (verdict.value.Rejected? <==> |observations| > MAX_GENERATED || !ObservationsOk(observations, mutants))
              && (verdict.value.Passed? <==>
                    && |observations| <= MAX_GENERATED && ObservationsOk(observations, mutants)
                    && AllObserved(observations, mutants) && OraclesMatch(observations, mutants))
  {
    var expansion := ExpandMutations(c, tools);
    if expansion.None? {
      return None;
    }
    ExpansionIsStructural(c, tools);
    var v := EvaluateMutations(expansion.value, observations, tools.checked);
    return Some(v);
  }
}
