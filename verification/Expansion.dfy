/** Expanding a corpus into mutants (ExpandMutations in internal/acceptance/mutation.go). */
module Expansion {
  import opened Wrappers
  import opened Orders
  import opened Sequences
  import opened Corpus
  import opened Mutation

  datatype Mutant = Mutant(row: Case, sourceId: string, operatorId: string, oracle: string)

  datatype Accounting = Accounting(
    operatorId: string, selected: int, executed: int, killed: int, survived: int, incompatible: int, duplicate: int)

  datatype Expansion = Expansion(sources: seq<Case>, mutants: seq<Mutant>, accounting: seq<Accounting>)

  /** What the expansion calls but this model leaves abstract: the field checks, the two
      canonical digests and the JSON edit. */
  datatype Tools = Tools(
    checked: Case -> bool,
    caseDigest: Case -> Option<string>,
    inputDigest: Case -> Option<string>,
    addField: string -> Option<string>)

  datatype Request = Request(source: Case, operator: Operator)

  datatype Verdict = Skipped | Failed | Made(mutant: Mutant)

  // ----- ids -----

  function MutantId(sourceId: string, operatorId: string): string {
    sourceId + "__" + operatorId + "__1"
  }

  lemma OperatorsHaveNoUnderscore(id: string)
    requires KnownOperator(id)
    ensures OperatorShape(id)
  {
    hide OperatorShape;
    ActorOperators();
    KindOperators();
    SetupOperators();
    SubjectOperators();
    InputOperators();
    JsonOperators();
  }

  predicate OperatorShape(id: string) {
    '_' !in id && 1 <= |id| <= 21 && forall i | 0 <= i < |id| :: IdChar(id[i])
  }

  lemma ActorOperators()
    ensures OperatorShape(REMOVE_ACTOR) && OperatorShape(UNKNOWN_ACTOR)
  {
  }

  lemma KindOperators()
    ensures OperatorShape(WRONG_ACTOR_KIND) && OperatorShape(ENDED_ASSIGNMENT)
  {
  }

  lemma SetupOperators()
    ensures OperatorShape(WRONG_ROLE)
  {
  }

  lemma SubjectOperators()
    ensures OperatorShape(WRONG_SUBJECT) && OperatorShape(CHANGED_COMMAND)
  {
  }

  lemma InputOperators()
    ensures OperatorShape(CHANGED_EVIDENCE) && OperatorShape(TRAILING_JSON)
  {
  }

  lemma JsonOperators()
    ensures OperatorShape(UNKNOWN_FIELD) && OperatorShape(EVENT_MISMATCH)
  {
  }

  /** An id names its source and its operator. */
  lemma MutantIdInjective(s: string, o: string, t: string, p: string)
    requires '_' !in o && '_' !in p
    ensures MutantId(s, o) == MutantId(t, p) <==> s == t && o == p
  {
    var a, b := MutantId(s, o), MutantId(t, p);
    if a == b {
      LastUnderscore(s, o);
      LastUnderscore(t, p);
      assert |s| == |t|;
      assert a[..|s|] == s && b[..|t|] == t;
      assert a[|s| + 2..|s| + 2 + |o|] == o && b[|t| + 2..|t| + 2 + |p|] == p;
    }
  }

  lemma LastUnderscore(s: string, o: string)
    requires '_' !in o
    ensures MutantId(s, o)[|s| + 1] == '_' && |MutantId(s, o)| == |s| + |o| + 5
    ensures forall i | |s| + 1 < i < |s| + 2 + |o| :: MutantId(s, o)[i] != '_'
  {
    forall i | |s| + 1 < i < |s| + 2 + |o| ensures MutantId(s, o)[i] != '_' {
      assert MutantId(s, o)[i] == o[i - |s| - 2];
    }
  }

  // ----- completed mutants -----

  predicate MutantIdOk(id: string) {
    && id != "" && |id| <= 256
    && CorpusId(id[..if |id| < 128 then |id| else 128])
    && forall i | 0 <= i < |id| :: IdChar(id[i])
  }

  /** validateCompletedMutant. */
  predicate CompletedOk(row: Case, checked: Case -> bool) {
    MutantIdOk(row.id) && row.class_ == MUST_FAIL && row.mutations == [] && checked(row)
  }

  function Complete(c: Case, r: Request): Case {
    c.(id := MutantId(r.source.id, r.operator.id), class_ := MUST_FAIL,
       expected := c.expected.(oracle := r.operator.oracle), mutations := [])
  }

  /** Of the completed-mutant rules only the field checks can fail. */
  lemma CompletedIds(c: Case, r: Request, checked: Case -> bool)
    requires CorpusId(r.source.id) && KnownOperator(r.operator.id)
    ensures CompletedOk(Complete(c, r), checked) <==> checked(Complete(c, r))
  {
    OperatorsHaveNoUnderscore(r.operator.id);
    hide KnownOperator;
    MutantIdChars(r.source.id, r.operator.id);
  }

  lemma MutantIdChars(source: string, op: string)
    requires CorpusId(source) && OperatorShape(op)
    ensures forall i | 0 <= i < |MutantId(source, op)| :: IdChar(MutantId(source, op)[i])
  {
    var id, n := MutantId(source, op), |source| + 2;
    assert id == source + "__" + op + "__1";
    forall i | 0 <= i < |id| ensures IdChar(id[i]) {
      if i < |source| {
        assert id[i] == source[i];
      } else if n <= i < n + |op| {
        assert id[i] == op[i - n];
      } else {
        assert id[i] in "__" || id[i] in "__1";
      }
    }
  }

  // ----- one request -----

  /** What a source and an operator it requests give. */
  function Judge(r: Request, tools: Tools): Verdict {
    if r.source.target.kind !in r.operator.compatible then Skipped
    else match Mutated(r.source, r.operator.id, tools.addField)
      case Incompatible => Skipped
      case Broken => Failed
      case Changed(c) => Made(Mutant(Complete(c, r), r.source.id, r.operator.id, r.operator.oracle))
  }

  /** The checks a made mutant must pass by itself. */
  ghost predicate Sound(r: Request, m: Mutant, tools: Tools) {
    && CompletedOk(m.row, tools.checked)
    && tools.inputDigest(r.source).Some? && tools.inputDigest(m.row).Some?
    && tools.inputDigest(r.source) != tools.inputDigest(m.row)
    && tools.caseDigest(m.row).Some?
  }

  ghost predicate RequestOk(r: Request, tools: Tools) {
    match Judge(r, tools)
    case Failed => false
    case Skipped => true
    case Made(m) => Sound(r, m, tools)
  }

  function Produced(rs: seq<Request>, tools: Tools): seq<Mutant> {
    if rs == [] then []
    else
      var verdict := Judge(rs[|rs| - 1], tools);
      Produced(rs[..|rs| - 1], tools) + if verdict.Made? then [verdict.mutant] else []
  }

  function SkippedBy(rs: seq<Request>, tools: Tools, op: string): nat {
    if rs == [] then 0
    else
      var last := rs[|rs| - 1];
      SkippedBy(rs[..|rs| - 1], tools, op) + if last.operator.id == op && Judge(last, tools).Skipped? then 1 else 0
  }

  function OperatorOf(m: Mutant): string { m.operatorId }

  function MutantIdOf(m: Mutant): string { m.row.id }

  function RowOf(m: Mutant): Case { m.row }

  /** How many mutants an operator has. */
  function MadeBy(mutants: seq<Mutant>, op: string): nat {
    multiset(Mapped(OperatorOf, mutants))[op]
  }

  /** Every digest of the sources and of the mutants made so far, in the order of discovery. */
  function Digests(sources: seq<Case>, mutants: seq<Mutant>, tools: Tools): seq<Option<string>> {
    Mapped(tools.caseDigest, sources + Mapped(RowOf, mutants))
  }

  /** The requests can be expanded, up to here. */
  ghost predicate Fine(sources: seq<Case>, rs: seq<Request>, tools: Tools, max: int) {
    && (forall r | r in rs :: RequestOk(r, tools))
    && NoRepeats(Digests(sources, Produced(rs, tools), tools))
    && |Produced(rs, tools)| <= max
  }

  lemma {:induction false} ProducedPrefix(rs: seq<Request>, n: nat, tools: Tools)
    requires n <= |rs|
    ensures Produced(rs[..n], tools) <= Produced(rs, tools)
    decreases |rs|
  {
    if n < |rs| {
      ProducedPrefix(rs[..|rs| - 1], n, tools);
      assert rs[..|rs| - 1][..n] == rs[..n];
    } else {
      assert rs[..n] == rs;
    }
  }

  /** Trouble does not go away: what cannot be expanded up to here cannot be expanded. */
  lemma FinePrefix(sources: seq<Case>, rs: seq<Request>, n: nat, tools: Tools, max: int)
    requires n <= |rs| && Fine(sources, rs, tools, max)
    ensures Fine(sources, rs[..n], tools, max)
  {
    ProducedPrefix(rs, n, tools);
    var some, all := Produced(rs[..n], tools), Produced(rs, tools);
    assert all == some + all[|some|..];
    MappedConcat(RowOf, some, all[|some|..]);
    var a, b := sources + Mapped(RowOf, some), Mapped(RowOf, all[|some|..]);
    assert sources + Mapped(RowOf, all) == a + b;
    MappedConcat(tools.caseDigest, a, b);
    NoRepeatsParts(Mapped(tools.caseDigest, a), Mapped(tools.caseDigest, b));
  }

  // ----- the request list -----

  function SortCases(rows: seq<Case>): (sorted: seq<Case>)
    ensures multiset(sorted) == multiset(rows) && SortedBy(ByText(CaseId), sorted)
  {
    StringOrder();
    OnIsComparator(CaseId, CompareString);
    Sort(ByText(CaseId), rows)
  }

  function SortOperators(ops: seq<Operator>): (sorted: seq<Operator>)
    ensures multiset(sorted) == multiset(ops) && SortedBy(ByText(OperatorId), sorted)
  {
    StringOrder();
    OnIsComparator(OperatorId, CompareString);
    Sort(ByText(OperatorId), ops)
  }

  function SortMutants(mutants: seq<Mutant>): (sorted: seq<Mutant>)
    ensures multiset(sorted) == multiset(mutants) && SortedBy(ByText(MutantIdOf), sorted)
  {
    StringOrder();
    OnIsComparator(MutantIdOf, CompareString);
    Sort(ByText(MutantIdOf), mutants)
  }

  function ById(ops: seq<Operator>): map<string, Operator> {
    if ops == [] then map[] else ById(ops[..|ops| - 1])[ops[|ops| - 1].id := ops[|ops| - 1]]
  }

  lemma {:induction false} ByIdMembers(ops: seq<Operator>)
    ensures forall id :: id in ById(ops) <==> Declared(ops, id)
    ensures forall id | id in ById(ops) :: ById(ops)[id] in ops && ById(ops)[id].id == id
    decreases |ops|
  {
    if ops != [] {
      ByIdMembers(ops[..|ops| - 1]);
      assert ops == ops[..|ops| - 1] + [ops[|ops| - 1]];
      DeclaredStep(ops[..|ops| - 1], ops[|ops| - 1]);
    }
  }

  ghost predicate AllDeclared(sources: seq<Case>, byId: map<string, Operator>) {
    forall source, id | source in sources && id in source.mutations :: id in byId
  }

  /** One source's requests, in operator order, up to the n-th. */
  function RequestsOf(source: Case, byId: map<string, Operator>, n: nat): (rs: seq<Request>)
    requires n <= |source.mutations| && forall id | id in source.mutations :: id in byId
    ensures |rs| == n
  {
    if n == 0 then []
    else
      var sorted := SortStrings(source.mutations);
      SortedSize(source.mutations);
      assert sorted[n - 1] in multiset(sorted);
      RequestsOf(source, byId, n - 1) + [Request(source, byId[sorted[n - 1]])]
  }

  lemma SortedSize(items: seq<string>)
    ensures |SortStrings(items)| == |items|
  {
    assert |multiset(SortStrings(items))| == |multiset(items)|;
  }

  function Requests(sources: seq<Case>, byId: map<string, Operator>): seq<Request>
    requires AllDeclared(sources, byId)
  {
    if sources == [] then []
    else
      var last := sources[|sources| - 1];
      assert last in sources;
      Requests(sources[..|sources| - 1], byId) + RequestsOf(last, byId, |last.mutations|)
  }

  lemma {:induction false} RequestsPrefix(sources: seq<Case>, byId: map<string, Operator>, n: nat)
    requires n <= |sources| && AllDeclared(sources, byId) && AllDeclared(sources[..n], byId)
    ensures Requests(sources[..n], byId) <= Requests(sources, byId)
    decreases |sources|
  {
    if n < |sources| {
      assert sources[..|sources| - 1][..n] == sources[..n];
      RequestsPrefix(sources[..|sources| - 1], byId, n);
    } else {
      assert sources[..n] == sources;
    }
  }

  lemma {:induction false} RequestsOfPrefix(source: Case, byId: map<string, Operator>, n: nat, k: nat)
    requires n <= k <= |source.mutations| && forall id | id in source.mutations :: id in byId
    ensures RequestsOf(source, byId, n) <= RequestsOf(source, byId, k)
  {
    if n < k {
      RequestsOfPrefix(source, byId, n, k - 1);
    }
  }

  // ----- the expansion -----

  ghost predicate AllDigested(sources: seq<Case>, tools: Tools) {
    forall source | source in sources :: tools.caseDigest(source).Some?
  }

  /** The records match the requests handled so far. */
  ghost predicate Agree(
    seen: map<string, string>, mutants: seq<Mutant>, stats: map<string, Accounting>, generated: map<string, nat>,
    sources: seq<Case>, rs: seq<Request>, tools: Tools, max: int)
  {
    && Fine(sources, rs, tools, max)
    && mutants == Produced(rs, tools)
    && (forall d :: d in seen <==> Some(d) in Digests(sources, mutants, tools))
    && (forall id | id in stats ::
          stats[id] == Accounting(id, MadeBy(mutants, id), 0, 0, 0, SkippedBy(rs, tools, id), 0))
    && (forall id :: (if id in generated then generated[id] else 0) == MadeBy(mutants, id))
  }

  lemma AddAgrees(
    seen: map<string, string>, mutants: seq<Mutant>, stats: map<string, Accounting>, generated: map<string, nat>,
    sources: seq<Case>, rs: seq<Request>, tools: Tools, max: int, r: Request, m: Mutant, digest: string)
    requires Agree(seen, mutants, stats, generated, sources, rs, tools, max)
    requires Judge(r, tools) == Made(m) && Sound(r, m, tools) && tools.caseDigest(m.row) == Some(digest)
    requires r.operator.id in stats
    ensures var op := r.operator.id;
            if digest in seen || |mutants| == max then !Fine(sources, rs + [r], tools, max)
            else Agree(seen[digest := m.row.id], mutants + [m], stats[op := stats[op].(selected := stats[op].selected + 1)],
                       generated[op := 1 + if op in generated then generated[op] else 0], sources, rs + [r], tools, max)
  {
    hide Judge, Sound, RequestOk, Produced, MadeBy, SkippedBy, Digests;
    SoundIsOk(r, m, tools);
    MadeStep(sources, rs, r, m, tools, max);
  }

  lemma SoundIsOk(r: Request, m: Mutant, tools: Tools)
    requires Judge(r, tools) == Made(m) && Sound(r, m, tools)
    ensures RequestOk(r, tools)
  {
  }

  class Expander {
    var seen: map<string, string>
    var mutants: seq<Mutant>
    var stats: map<string, Accounting>
    var generated: map<string, nat>

    constructor (ops: seq<Operator>)
      ensures seen == map[] && mutants == [] && generated == map[]
      ensures forall id :: id in stats <==> Declared(ops, id)
      ensures forall id | id in stats :: stats[id] == Accounting(id, 0, 0, 0, 0, 0, 0)
    {
      seen, mutants, stats, generated := map[], [], map[], map[];
      new;
      for i := 0 to |ops|
        invariant seen == map[] && mutants == [] && generated == map[]
        invariant forall id :: id in stats <==> Declared(ops[..i], id)
        invariant forall id | id in stats :: stats[id] == Accounting(id, 0, 0, 0, 0, 0, 0)
      {
        assert ops[..i + 1] == ops[..i] + [ops[i]];
        DeclaredStep(ops[..i], ops[i]);
        stats := stats[ops[i].id := Accounting(ops[i].id, 0, 0, 0, 0, 0, 0)];
      }
      assert ops[..|ops|] == ops;
    }

    /** After the requests rs: exactly their mutants, digests and counts. */
    ghost predicate After(sources: seq<Case>, rs: seq<Request>, tools: Tools, max: int)
      reads this
    {
      Agree(seen, mutants, stats, generated, sources, rs, tools, max)
    }

    /** The canonical digests of the sources must differ. */
    method SeeSources(sources: seq<Case>, tools: Tools) returns (ok: bool)
      requires seen == map[]
      modifies this`seen
      ensures ok <==> AllDigested(sources, tools) && NoRepeats(Digests(sources, [], tools))
      ensures ok ==> forall d :: d in seen <==> Some(d) in Digests(sources, [], tools)
    {
      ghost var digests := Mapped(tools.caseDigest, sources);
      assert sources + Mapped(RowOf, []) == sources;
      MappedAt(tools.caseDigest, sources);
      for i := 0 to |sources|
        invariant forall k | 0 <= k < i :: digests[k].Some?
        invariant NoRepeats(digests[..i])
        invariant forall d :: d in seen <==> Some(d) in digests[..i]
      {
        assert digests[..i + 1] == digests[..i] + [digests[i]] && sources[i] in sources;
        var digest := tools.caseDigest(sources[i]);
        if digest.None? {
          return false;
        }
        if digest.value in seen {
          ghost var k :| 0 <= k < i && digests[..i][k] == digest;
          assert digests[k] == digests[i];
          return false;
        }
        seen := seen[digest.value := sources[i].id];
      }
      assert digests[..|sources|] == digests;
      return true;
    }

    /** A skipped request is counted. */
    method Skip(ghost sources: seq<Case>, ghost rs: seq<Request>, r: Request, tools: Tools, max: int)
      requires After(sources, rs, tools, max) && r.operator.id in stats && Judge(r, tools).Skipped?
      modifies this`stats
      ensures After(sources, rs + [r], tools, max) && stats.Keys == old(stats.Keys)
    {
      SkippedStep(sources, rs, r, tools, max);
      hide Judge, Fine;
      var op := r.operator.id;
      stats := stats[op := stats[op].(incompatible := stats[op].incompatible + 1)];
    }

    /** A checked mutant is added, unless its digest is known or the bound is reached. */
    method Add(ghost sources: seq<Case>, ghost rs: seq<Request>, r: Request, m: Mutant, digest: string, tools: Tools, max: int)
      returns (ok: bool)
      requires After(sources, rs, tools, max) && r.operator.id in stats
      requires Judge(r, tools) == Made(m) && Sound(r, m, tools) && tools.caseDigest(m.row) == Some(digest)
      modifies this
      ensures !ok ==> !Fine(sources, rs + [r], tools, max)
      ensures ok ==> After(sources, rs + [r], tools, max)
      ensures stats.Keys == old(stats.Keys)
    {
      hide Agree, Judge, Sound, Fine;
      AddAgrees(seen, mutants, stats, generated, sources, rs, tools, max, r, m, digest);
      var op := r.operator.id;
      stats := stats[op := stats[op].(selected := stats[op].selected + 1)];
      if digest in seen || |mutants| == max {
        return false;
      }
      seen := seen[digest := m.row.id];
      mutants := mutants + [m];
      generated := generated[op := 1 + if op in generated then generated[op] else 0];
      return true;
    }

    /** One request: skipped and counted, or turned into a mutant that passes every check. */
    method Take(ghost sources: seq<Case>, ghost rs: seq<Request>, r: Request, tools: Tools, max: int) returns (ok: bool)
      requires After(sources, rs, tools, max) && r.operator.id in stats
      modifies this
      ensures !ok ==> !Fine(sources, rs + [r], tools, max)
      ensures ok ==> After(sources, rs + [r], tools, max)
      ensures stats.Keys == old(stats.Keys)
    {
      hide Agree, Digests, Produced;
      if r.source.target.kind !in r.operator.compatible {
        Skip(sources, rs, r, tools, max);
        return true;
      }
      var applied := Mutated(r.source, r.operator.id, tools.addField);
      if applied.Incompatible? {
        Skip(sources, rs, r, tools, max);
        return true;
      }
      assert r in rs + [r];
      if applied.Broken? {
        return false;
      }
      var m := Mutant(Complete(applied.value, r), r.source.id, r.operator.id, r.operator.oracle);
      assert Judge(r, tools) == Made(m);
      if !CompletedOk(m.row, tools.checked) {
        return false;
      }
      var before, after := tools.inputDigest(r.source), tools.inputDigest(m.row);
      if before.None? || after.None? || before.value == after.value {
        return false;
      }
      var digest := tools.caseDigest(m.row);
      if digest.None? {
        return false;
      }
      ok := Add(sources, rs, r, m, digest.value, tools, max);
    }
  }

  lemma DigestsStep(sources: seq<Case>, mutants: seq<Mutant>, m: Mutant, tools: Tools)
    ensures Digests(sources, mutants + [m], tools) == Digests(sources, mutants, tools) + [tools.caseDigest(m.row)]
  {
    MappedConcat(RowOf, mutants, [m]);
    assert Mapped(RowOf, [m]) == [m.row];
    var a := sources + Mapped(RowOf, mutants);
    assert sources + Mapped(RowOf, mutants + [m]) == a + [m.row];
    MappedConcat(tools.caseDigest, a, [m.row]);
    assert Mapped(tools.caseDigest, [m.row]) == [tools.caseDigest(m.row)];
  }

  lemma MadeByStep(mutants: seq<Mutant>, m: Mutant, op: string)
    ensures MadeBy(mutants + [m], op) == MadeBy(mutants, op) + if m.operatorId == op then 1 else 0
  {
    MappedConcat(OperatorOf, mutants, [m]);
    assert Mapped(OperatorOf, [m]) == [m.operatorId];
  }

  lemma SkippedStep(sources: seq<Case>, rs: seq<Request>, r: Request, tools: Tools, max: int)
    requires Judge(r, tools).Skipped?
    ensures Produced(rs + [r], tools) == Produced(rs, tools)
    ensures Fine(sources, rs + [r], tools, max) <==> Fine(sources, rs, tools, max)
    ensures forall op :: SkippedBy(rs + [r], tools, op) == SkippedBy(rs, tools, op) + if r.operator.id == op then 1 else 0
  {
    assert (rs + [r])[..|rs|] == rs;
    assert forall x :: x in rs + [r] <==> x in rs || x == r;
  }

  lemma MadeStep(sources: seq<Case>, rs: seq<Request>, r: Request, m: Mutant, tools: Tools, max: int)
    requires Judge(r, tools) == Made(m)
    ensures Produced(rs + [r], tools) == Produced(rs, tools) + [m]
    ensures Digests(sources, Produced(rs + [r], tools), tools) == Digests(sources, Produced(rs, tools), tools) + [tools.caseDigest(m.row)]
    ensures Fine(sources, rs + [r], tools, max) <==>
            && (forall x | x in rs :: RequestOk(x, tools)) && RequestOk(r, tools)
            && NoRepeats(Digests(sources, Produced(rs, tools), tools))
            && tools.caseDigest(m.row) !in Digests(sources, Produced(rs, tools), tools)
            && |Produced(rs, tools)| + 1 <= max
    ensures forall op :: SkippedBy(rs + [r], tools, op) == SkippedBy(rs, tools, op)
    ensures forall op :: MadeBy(Produced(rs + [r], tools), op)
                      == MadeBy(Produced(rs, tools), op) + if r.operator.id == op then 1 else 0
  {
    assert (rs + [r])[..|rs|] == rs;
    assert forall x :: x in rs + [r] <==> x in rs || x == r;
    DigestsStep(sources, Produced(rs, tools), m, tools);
    NoRepeatsParts(Digests(sources, Produced(rs, tools), tools), [tools.caseDigest(m.row)]);
    forall op {
      MadeByStep(Produced(rs, tools), m, op);
    }
  }

  // ----- ExpandMutations -----

  /** One request more is again a prefix of all requests. */
  lemma RequestsSoFar(sources: seq<Case>, byId: map<string, Operator>, i: nat, j: nat)
    requires i < |sources| && AllDeclared(sources, byId) && j <= |sources[i].mutations|
    ensures AllDeclared(sources[..i], byId) && AllDeclared(sources[..i + 1], byId)
    ensures sources[i] in sources
    ensures Requests(sources[..i], byId) + RequestsOf(sources[i], byId, j) <= Requests(sources, byId)
    ensures Requests(sources[..i + 1], byId)
         == Requests(sources[..i], byId) + RequestsOf(sources[i], byId, |sources[i].mutations|)
  {
    assert sources[..i + 1][..i] == sources[..i];
    RequestsPrefix(sources, byId, i + 1);
    RequestsOfPrefix(sources[i], byId, j, |sources[i].mutations|);
  }

  lemma NotFine(sources: seq<Case>, some: seq<Request>, all: seq<Request>, tools: Tools, max: int)
    requires some <= all && !Fine(sources, some, tools, max)
    ensures !Fine(sources, all, tools, max)
  {
    if Fine(sources, all, tools, max) {
      assert all[..|some|] == some;
      FinePrefix(sources, all, |some|, tools, max);
    }
  }

  lemma NoRequests(source: Case, byId: map<string, Operator>, rs: seq<Request>)
    requires forall id | id in source.mutations :: id in byId
    ensures rs + RequestsOf(source, byId, 0) == rs
  {
  }

  lemma NextRequest(source: Case, byId: map<string, Operator>, rs: seq<Request>, j: nat)
    requires j < |source.mutations| && forall id | id in source.mutations :: id in byId
    ensures |SortStrings(source.mutations)| == |source.mutations| && SortStrings(source.mutations)[j] in byId
    ensures rs + RequestsOf(source, byId, j) + [Request(source, byId[SortStrings(source.mutations)[j]])]
         == rs + RequestsOf(source, byId, j + 1)
  {
    SortedSize(source.mutations);
    assert SortStrings(source.mutations)[j] in multiset(SortStrings(source.mutations));
  }

  /** The loop over one source's requested operators, in operator order. */
  method ExpandSource(e: Expander, ghost sources: seq<Case>, ghost rs: seq<Request>, source: Case, byId: map<string, Operator>, tools: Tools, max: int)
    returns (ok: bool, ghost n: nat)
    requires e.After(sources, rs, tools, max) && forall id | id in source.mutations :: id in byId
    requires forall id | id in byId :: byId[id].id == id && id in e.stats
    modifies e
    ensures n <= |source.mutations| && e.stats.Keys == old(e.stats.Keys)
    ensures ok ==> n == |source.mutations| && e.After(sources, rs + RequestsOf(source, byId, n), tools, max)
    ensures !ok ==> !Fine(sources, rs + RequestsOf(source, byId, n), tools, max)
  {
    hide Agree, Fine, RequestsOf, SortStrings;
    var requested := SortStrings(source.mutations);
    SortedSize(source.mutations);
    NoRequests(source, byId, rs);
    for j := 0 to |requested|
      invariant e.After(sources, rs + RequestsOf(source, byId, j), tools, max) && e.stats.Keys == old(e.stats.Keys)
    {
      assert requested[j] in multiset(requested);
      var r := Request(source, byId[requested[j]]);
      NextRequest(source, byId, rs, j);
      ok := e.Take(sources, rs + RequestsOf(source, byId, j), r, tools, max);
      if !ok {
        return false, j + 1;
      }
    }
    return true, |requested|;
  }

  method ExpandSources(e: Expander, sources: seq<Case>, byId: map<string, Operator>, tools: Tools, max: int) returns (ok: bool)
    requires e.After(sources, [], tools, max) && AllDeclared(sources, byId)
    requires forall id | id in byId :: byId[id].id == id && id in e.stats
    modifies e
    ensures e.stats.Keys == old(e.stats.Keys)
    ensures ok <==> Fine(sources, Requests(sources, byId), tools, max)
    ensures ok ==> e.After(sources, Requests(sources, byId), tools, max)
  {
    for i := 0 to |sources|
      invariant AllDeclared(sources[..i], byId) && e.stats.Keys == old(e.stats.Keys)
      invariant e.After(sources, Requests(sources[..i], byId), tools, max)
    {
      assert sources[i] in sources;
      ghost var n: nat;
      ok, n := ExpandSource(e, sources, Requests(sources[..i], byId), sources[i], byId, tools, max);
      RequestsSoFar(sources, byId, i, n);
      if !ok {
        NotFine(sources, Requests(sources[..i], byId) + RequestsOf(sources[i], byId, n), Requests(sources, byId), tools, max);
        return false;
      }
    }
    assert sources[..|sources|] == sources;
    return true;
  }

  function AccountOf(op: string, mutants: seq<Mutant>, rs: seq<Request>, tools: Tools): Accounting {
    Accounting(op, MadeBy(mutants, op), 0, 0, 0, SkippedBy(rs, tools, op), 0)
  }

  function Accounts(ops: seq<Operator>, mutants: seq<Mutant>, rs: seq<Request>, tools: Tools): (rows: seq<Accounting>)
    ensures |rows| == |ops| && forall i | 0 <= i < |rows| :: rows[i] == AccountOf(ops[i].id, mutants, rs, tools)
  {
    seq(|ops|, i requires 0 <= i < |ops| => AccountOf(ops[i].id, mutants, rs, tools))
  }

  /** The closing loop: every declared operator must have made a mutant. */
  method Account(e: Expander, ops: seq<Operator>, ghost sources: seq<Case>, ghost rs: seq<Request>, tools: Tools, max: int) returns (rows: Option<seq<Accounting>>)
    requires e.After(sources, rs, tools, max) && forall op | op in ops :: op.id in e.stats
    ensures rows.Some? <==> forall op | op in ops :: MadeBy(e.mutants, op.id) > 0
    ensures rows.Some? ==> rows.value == Accounts(ops, e.mutants, rs, tools)
  {
    var result: seq<Accounting> := [];
    for i := 0 to |ops|
      invariant result == Accounts(ops, e.mutants, rs, tools)[..i]
      invariant forall k | 0 <= k < i :: MadeBy(e.mutants, ops[k].id) > 0
    {
      assert ops[i] in ops;
      var stats := e.stats[ops[i].id];
      if stats.selected == 0 {
        return None;
      }
      if ops[i].id !in e.generated || e.generated[ops[i].id] == 0 {
        return None;
      }
      result := result + [stats];
    }
    return Some(result);
  }

  /** No request fails, no two digests agree, the bound holds and no operator goes unused. */
  ghost predicate Expands(sources: seq<Case>, ops: seq<Operator>, max: int, tools: Tools)
    requires AllDeclared(sources, ById(ops))
  {
    && AllDigested(sources, tools)
    && Fine(sources, Requests(sources, ById(ops)), tools, max)
    && forall op | op in ops :: MadeBy(Produced(Requests(sources, ById(ops)), tools), op.id) > 0
  }

  /** The corpora that expand. */
  ghost predicate Expandable(c: Corpus, tools: Tools) {
    && CorpusOk(c, tools.checked)
    && AllDeclared(SortCases(c.cases), ById(SortOperators(c.operators)))
    && Expands(SortCases(c.cases), SortOperators(c.operators), c.maxGenerated, tools)
  }

  /** All requests of a corpus, in the order they are expanded. */
  function RequestsIn(c: Corpus): seq<Request>
    requires AllDeclared(SortCases(c.cases), ById(SortOperators(c.operators)))
  {
    Requests(SortCases(c.cases), ById(SortOperators(c.operators)))
  }

  lemma CorpusDeclares(c: Corpus, checked: Case -> bool)
    requires CorpusOk(c, checked)
    ensures AllDeclared(SortCases(c.cases), ById(SortOperators(c.operators)))
    ensures forall op :: op in SortOperators(c.operators) <==> op in c.operators
    ensures forall row :: row in SortCases(c.cases) <==> row in c.cases
    ensures forall id :: Declared(SortOperators(c.operators), id) <==> Declared(c.operators, id)
  {
    var ops, rows := SortOperators(c.operators), SortCases(c.cases);
    ByIdMembers(ops);
    assert forall op :: op in ops <==> op in multiset(ops);
    assert forall op :: op in c.operators <==> op in multiset(c.operators);
    assert forall row :: row in rows <==> row in multiset(rows);
    assert forall row :: row in c.cases <==> row in multiset(c.cases);
    forall id | Declared(c.operators, id) ensures Declared(ops, id) {
      var op :| op in c.operators && op.id == id;
      assert op in ops;
    }
    forall id | Declared(ops, id) ensures Declared(c.operators, id) {
      var op :| op in ops && op.id == id;
      assert op in c.operators;
    }
  }

  method MapById(ops: seq<Operator>) returns (byId: map<string, Operator>)
    ensures byId == ById(ops)
  {
    byId := map[];
    for i := 0 to |ops|
      invariant byId == ById(ops[..i])
    {
      assert ops[..i + 1][..i] == ops[..i];
      byId := byId[ops[i].id := ops[i]];
    }
    assert ops[..|ops|] == ops;
  }

  lemma SourcesFirst(sources: seq<Case>, rs: seq<Request>, tools: Tools, max: int)
    ensures Fine(sources, rs, tools, max) ==> NoRepeats(Digests(sources, [], tools))
    ensures NoRepeats(Digests(sources, [], tools)) && max >= 0 ==> Fine(sources, [], tools, max)
  {
    assert Produced([], tools) == [];
    if Fine(sources, rs, tools, max) {
      FinePrefix(sources, rs, 0, tools, max);
    }
  }

  /** The expansion of sorted sources by sorted operators. */
  method ExpandSorted(sources: seq<Case>, operators: seq<Operator>, tools: Tools, max: int) returns (expansion: Option<Expansion>)
    requires AllDeclared(sources, ById(operators)) && operators != [] && max > 0
    ensures expansion.Some? <==> Expands(sources, operators, max, tools)
    ensures expansion.Some? ==>
              var rs := Requests(sources, ById(operators));
              expansion.value == Expansion(sources, SortMutants(Produced(rs, tools)), Accounts(operators, Produced(rs, tools), rs, tools))
  {
    var byId := MapById(operators);
    ByIdMembers(operators);
    ghost var rs := Requests(sources, byId);
    SourcesFirst(sources, rs, tools, max);
    var e := new Expander(operators);
    var distinct := e.SeeSources(sources, tools);
    if !distinct {
      return None;
    }
    StartsAfter(e, sources, tools, max);
    var ok := ExpandSources(e, sources, byId, tools, max);
    if !ok {
      return None;
    }
    assert forall op | op in operators :: Declared(operators, op.id);
    var accounting := Account(e, operators, sources, rs, tools, max);
    if accounting.None? {
      return None;
    }
    if |e.mutants| == 0 {
      NoMutants(operators, e.mutants);
      return None;
    }
    return Some(Expansion(sources, SortMutants(e.mutants), accounting.value));
  }

  lemma StartsAfter(e: Expander, sources: seq<Case>, tools: Tools, max: int)
    requires e.mutants == [] && e.generated == map[] && Fine(sources, [], tools, max)
    requires forall id | id in e.stats :: e.stats[id] == Accounting(id, 0, 0, 0, 0, 0, 0)
    requires forall d :: d in e.seen <==> Some(d) in Digests(sources, [], tools)
    ensures e.After(sources, [], tools, max)
  {
    assert Produced([], tools) == [] && Mapped(OperatorOf, []) == [];
  }

  /** ExpandMutations succeeds exactly on expandable corpora, and then holds the sorted
      sources, the mutant of every request that applies, in id order, and one exact account
      per operator. */
  method ExpandMutations(c: Corpus, tools: Tools) returns (expansion: Option<Expansion>)
    ensures expansion.Some? <==> Expandable(c, tools)
    ensures expansion.Some? ==>
              expansion.value == Expansion(SortCases(c.cases), SortMutants(Produced(RequestsIn(c), tools)),
                                           Accounts(SortOperators(c.operators), Produced(RequestsIn(c), tools), RequestsIn(c), tools))
  {
    var valid := ValidateCorpus(c, tools.checked);
    if !valid {
      return None;
    }
    CorpusDeclares(c, tools.checked);
    assert |multiset(SortOperators(c.operators))| == |multiset(c.operators)|;
    expansion := ExpandSorted(SortCases(c.cases), SortOperators(c.operators), tools, c.maxGenerated);
  }

  /** The last check cannot fail: there is an operator, and it has a mutant. */
  lemma NoMutants(ops: seq<Operator>, mutants: seq<Mutant>)
    requires mutants == [] && ops != []
    ensures exists op :: op in ops && MadeBy(mutants, op.id) == 0
  {
    assert ops[0] in ops;
  }
}