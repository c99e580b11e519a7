/** One mutation of one case (applyMutation, mutateArg and cloneCase in
    internal/acceptance/mutation.go): what it changes, and that the in-place edits on the
    clone never reach the source. */
module Mutation {
  import opened Wrappers
  import opened Corpus

  /** Go's (Case, bool, error) triple. */
  datatype Applied<+T> = Changed(value: T) | Incompatible | Broken

  const ACTOR_FLAG := "--actor"
  const ACTOR_ID := "acceptance-mutant/00000000-0000-7000-8000-000000000001"
  const SUBJECT_ID := "acceptance-mutated-subject"
  const EXTRA_ARG := "--acceptance-mutated-command"
  const EVIDENCE_TEXT := "acceptance-mutated-evidence"
  const EVENT_SUFFIX := ".acceptance-mismatch"
  const SOFTWARE := "software"
  const STARTED := "started"
  const ENDED := "ended"
  const AXIS_REVIEWER := "axis-reviewer"
  const GOVERNING_SUPERVISOR := "governing-supervisor"

  const SUBJECT_FLAGS := ["--subject", "--proposal", "--candidate", "--epoch"]

  // ----- on values -----

  /** The first position of flag, or the length. */
  function FlagAt(argv: seq<string>, flag: string): (i: nat)
    ensures i <= |argv| && (i < |argv| ==> argv[i] == flag) && forall k | 0 <= k < i :: argv[k] != flag
  {
    if argv == [] then 0
    else if argv[0] == flag then 0
    else 1 + FlagAt(argv[1..], flag)
  }

  function ArgMutated(argv: seq<string>, flag: string, replacement: string, remove: bool): Applied<seq<string>> {
    var i := FlagAt(argv, flag);
    if i == |argv| then Incompatible
    else if i + 1 >= |argv| then Broken
    else if remove then Changed(argv[..i] + argv[i + 2..])
    else Changed(argv[i + 1 := replacement])
  }

  function WithArgv(c: Case, argv: seq<string>): Case
    requires c.target.command.Some?
  {
    c.(target := c.target.(command := Some(c.target.command.value.(argv := argv))))
  }

  function ArgCase(c: Case, flag: string, replacement: string, remove: bool): Applied<Case> {
    if c.target.command.None? then Incompatible
    else match ArgMutated(c.target.command.value.argv, flag, replacement, remove)
      case Changed(argv) => Changed(WithArgv(c, argv))
      case Incompatible => Incompatible
      case Broken => Broken
  }

  function FirstArgCase(c: Case, flags: seq<string>, replacement: string): Applied<Case> {
    if flags == [] then Incompatible
    else
      var first := ArgCase(c, flags[0], replacement, false);
      if first.Incompatible? then FirstArgCase(c, flags[1..], replacement) else first
  }

  /** The first assignment in the given state, or the length. */
  function StartedAt(assignments: seq<Assignment>): (i: nat)
    ensures i <= |assignments| && (i < |assignments| ==> assignments[i].state == STARTED)
    ensures forall k | 0 <= k < i :: assignments[k].state != STARTED
  {
    if assignments == [] then 0
    else if assignments[0].state == STARTED then 0
    else 1 + StartedAt(assignments[1..])
  }

  /** inputDataValue: a command's stdin or else a native event's input. */
  function InputOf(c: Case): Option<DataValue> {
    if c.target.command.Some? then Some(c.target.command.value.stdin)
    else if c.target.native.Some? then Some(c.target.native.value.input)
    else None
  }

  function WithInput(c: Case, text: string): Case
    requires InputOf(c).Some?
  {
    var value := InputOf(c).value.(inlined := Some(text));
    if c.target.command.Some?
    then c.(target := c.target.(command := Some(c.target.command.value.(stdin := value))))
    else c.(target := c.target.(native := Some(c.target.native.value.(input := value))))
  }

  function WithSetup(c: Case, setup: Setup): Case {
    c.(setup := setup)
  }

  function WrongKind(c: Case): Applied<Case> {
    var changed := ArgCase(c, ACTOR_FLAG, ACTOR_ID, false);
    if !changed.Changed? then changed
    else Changed(WithSetup(changed.value, c.setup.(actors := c.setup.actors + [Actor(ACTOR_ID, SOFTWARE)])))
  }

  function EndedCase(c: Case): Applied<Case> {
    var i := StartedAt(c.setup.assignments);
    if i == |c.setup.assignments| then Incompatible
    else Changed(WithSetup(c, c.setup.(assignments := c.setup.assignments[i := c.setup.assignments[i].(state := ENDED)])))
  }

  function RoleCase(c: Case): Applied<Case> {
    if c.setup.assignments == [] then Incompatible
    else
      var first := c.setup.assignments[0];
      var role := if first.role == AXIS_REVIEWER then GOVERNING_SUPERVISOR else AXIS_REVIEWER;
      Changed(WithSetup(c, c.setup.(assignments := c.setup.assignments[0 := first.(role := role)])))
  }

  function CommandCase(c: Case): Applied<Case> {
    if c.target.command.None? then Incompatible
    else Changed(WithArgv(c, c.target.command.value.argv + [EXTRA_ARG]))
  }

  function EvidenceCase(c: Case): Applied<Case> {
    if c.setup.evidence == [] then Incompatible
    else
      var first := c.setup.evidence[0].(value := DataValue(Some(EVIDENCE_TEXT), ""));
      Changed(WithSetup(c, c.setup.(evidence := c.setup.evidence[0 := first])))
  }

  function InputCase(c: Case, edit: string -> Option<string>): Applied<Case> {
    if InputOf(c).None? || InputOf(c).value.inlined.None? then Incompatible
    else
      var text := edit(InputOf(c).value.inlined.value);
      if text.None? then Incompatible else Changed(WithInput(c, text.value))
  }

  function Trailing(text: string): Option<string> {
    Some(text + "\n{}")
  }

  function EventCase(c: Case): Applied<Case> {
    if c.target.native.None? then Incompatible
    else
      var native := c.target.native.value;
      Changed(c.(target := c.target.(native := Some(native.(event := native.event + EVENT_SUFFIX)))))
  }

  /** applyMutation.  `addField` decodes a JSON object and re-encodes it with one unknown
      field, or finds no object. */
  function Mutated(c: Case, op: string, addField: string -> Option<string>): Applied<Case> {
    if op == REMOVE_ACTOR then ArgCase(c, ACTOR_FLAG, "", true)
    else if op == UNKNOWN_ACTOR then ArgCase(c, ACTOR_FLAG, ACTOR_ID, false)
    else if op == WRONG_ACTOR_KIND then WrongKind(c)
    else if op == ENDED_ASSIGNMENT then EndedCase(c)
    else if op == WRONG_ROLE then RoleCase(c)
    else if op == WRONG_SUBJECT then FirstArgCase(c, SUBJECT_FLAGS, SUBJECT_ID)
    else if op == CHANGED_COMMAND then CommandCase(c)
    else if op == CHANGED_EVIDENCE then EvidenceCase(c)
    else if op == UNKNOWN_FIELD then InputCase(c, addField)
    else if op == TRAILING_JSON then InputCase(c, Trailing)
    else if op == EVENT_MISMATCH then EventCase(c)
    else Broken
  }

  /** A mutation touches only target and setup. */
  lemma MutationFrame(c: Case, op: string, addField: string -> Option<string>)
    requires Mutated(c, op, addField).Changed?
    ensures var m := Mutated(c, op, addField).value; m == c.(target := m.target, setup := m.setup)
  {
    FirstArgFrame(c, SUBJECT_FLAGS, SUBJECT_ID);
  }

  lemma {:induction false} FirstArgFrame(c: Case, flags: seq<string>, replacement: string)
    ensures FirstArgCase(c, flags, replacement).Changed? ==>
              var m := FirstArgCase(c, flags, replacement).value; m == c.(target := m.target)
  {
    if flags != [] {
      FirstArgFrame(c, flags[1..], replacement);
    }
  }

  // ----- in memory -----

  class Command {
    var argv: array<string>
    var stdin: DataValue

    constructor (argv: array<string>, stdin: DataValue)
      ensures this.argv == argv && this.stdin == stdin
    {
      this.argv, this.stdin := argv, stdin;
    }
  }

  class NativeEvent {
    const contract: string
    var event: string
    var input: DataValue

    constructor (contract: string, event: string, input: DataValue)
      ensures this.contract == contract && this.event == event && this.input == input
    {
      this.contract, this.event, this.input := contract, event, input;
    }
  }

  /** A case as Go holds it: the struct is copied by assignment, what it points to is not. */
  datatype CaseRef = CaseRef(
    flat: Case,
    command: Command?,
    native: NativeEvent?,
    actors: array<Actor>,
    assignments: array<Assignment>,
    evidence: array<Evidence>)

  /** The value a reference stands for; `flat` supplies everything that is not shared. */
  ghost function Value(c: CaseRef): Case
    reads c.command, if c.command == null then {} else {c.command.argv}
    reads c.native, c.actors, c.assignments, c.evidence
  {
    var command := if c.command == null then None else Some(CommandValue(c.command.argv[..], c.command.stdin));
    var native := if c.native == null then None else Some(EventValue(c.native.contract, c.native.event, c.native.input));
    c.flat.(target := c.flat.target.(command := command, native := native),
            setup := c.flat.setup.(actors := c.actors[..], assignments := c.assignments[..], evidence := c.evidence[..]))
  }

  method CloneArray<T>(a: array<T>) returns (b: array<T>)
    ensures fresh(b) && b[..] == a[..]
  {
    b := new T[a.Length](i requires 0 <= i < a.Length reads a => a[i]);
  }

  /** cloneCase. */
  method CloneCase(source: CaseRef) returns (clone: CaseRef)
    ensures Value(clone) == Value(source)
    ensures clone.command != null ==> fresh(clone.command) && fresh(clone.command.argv)
    ensures clone.native != null ==> fresh(clone.native)
    ensures fresh(clone.actors) && fresh(clone.assignments) && fresh(clone.evidence)
  {
    var actors := CloneArray(source.actors);
    var assignments := CloneArray(source.assignments);
    var evidence := CloneArray(source.evidence);
    var command: Command? := null;
    if source.command != null {
      var argv := CloneArray(source.command.argv);
      command := new Command(argv, source.command.stdin);
    }
    var native: NativeEvent? := null;
    if source.native != null {
      native := new NativeEvent(source.native.contract, source.native.event, source.native.input);
    }
    return CaseRef(source.flat, command, native, actors, assignments, evidence);
  }

  /** The search loop of mutateArg. */
  method FindFlag(argv: array<string>, flag: string) returns (i: nat)
    ensures i == FlagAt(argv[..], flag)
  {
    i := 0;
    while i < argv.Length
      invariant i <= argv.Length && forall k | 0 <= k < i :: argv[k] != flag
    {
      if argv[i] == flag {
        break;
      }
      i := i + 1;
    }
    FlagAtIs(argv[..], flag, i);
  }

  lemma FlagAtIs(argv: seq<string>, flag: string, i: nat)
    requires i <= |argv| && (forall k | 0 <= k < i :: argv[k] != flag) && (i < |argv| ==> argv[i] == flag)
    ensures FlagAt(argv, flag) == i
  {
    var j := FlagAt(argv, flag);
    assert !(j < i) && !(i < j);
  }

  /** append(slices.Clone(argv[:i]), argv[i+2:]...). */
  method CutTwo(argv: array<string>, i: nat) returns (shorter: array<string>)
    requires i + 2 <= argv.Length
    ensures fresh(shorter) && shorter[..] == argv[..][..i] + argv[..][i + 2..]
  {
    shorter := new string[argv.Length - 2](k requires 0 <= k < argv.Length - 2 reads argv => if k < i then argv[k] else argv[k + 2]);
  }

  /** mutateArg: edits the candidate's own argument list. */
  method MutateArg(candidate: CaseRef, flag: string, replacement: string, remove: bool) returns (applied: Applied<CaseRef>)
    modifies candidate.command, if candidate.command == null then {} else {candidate.command.argv}
    ensures candidate.command != null ==>
              candidate.command.argv == old(candidate.command.argv) || fresh(candidate.command.argv)
    ensures match ArgCase(old(Value(candidate)), flag, replacement, remove)
            case Changed(c) => applied == Changed(candidate) && Value(candidate) == c
            case Incompatible => applied.Incompatible? && Value(candidate) == old(Value(candidate))
            case Broken => applied.Broken?
  {
    if candidate.command == null {
      return Incompatible;
    }
    var argv := candidate.command.argv;
    var i := FindFlag(argv, flag);
    if i == argv.Length {
      return Incompatible;
    }
    if i + 1 >= argv.Length {
      return Broken;
    }
    if remove {
      var shorter := CutTwo(argv, i);
      candidate.command.argv := shorter;
    } else {
      ghost var before := argv[..];
      argv[i + 1] := replacement;
      assert argv[..] == before[i + 1 := replacement];
    }
    return Changed(candidate);
  }

  method FindStarted(assignments: array<Assignment>) returns (i: nat)
    ensures i == StartedAt(assignments[..])
  {
    i := 0;
    while i < assignments.Length
      invariant i <= assignments.Length && forall k | 0 <= k < i :: assignments[k].state != STARTED
    {
      if assignments[i].state == STARTED {
        break;
      }
      i := i + 1;
    }
    var j := StartedAt(assignments[..]);
    assert !(j < i) && !(i < j);
  }

  /** The loop over the subject flags: the first one present is changed. */
  method MutateSubject(candidate: CaseRef) returns (applied: Applied<CaseRef>)
    modifies candidate.command, if candidate.command == null then {} else {candidate.command.argv}
    ensures match FirstArgCase(old(Value(candidate)), SUBJECT_FLAGS, SUBJECT_ID)
            case Changed(c) => applied == Changed(candidate) && Value(candidate) == c
            case Incompatible => applied.Incompatible?
            case Broken => applied.Broken?
  {
    for i := 0 to |SUBJECT_FLAGS|
      invariant Value(candidate) == old(Value(candidate))
      invariant candidate.command != null ==>
                  candidate.command.argv == old(candidate.command.argv) || fresh(candidate.command.argv)
      invariant FirstArgCase(old(Value(candidate)), SUBJECT_FLAGS, SUBJECT_ID)
             == FirstArgCase(old(Value(candidate)), SUBJECT_FLAGS[i..], SUBJECT_ID)
    {
      assert SUBJECT_FLAGS[i..][1..] == SUBJECT_FLAGS[i + 1..];
      applied := MutateArg(candidate, SUBJECT_FLAGS[i], SUBJECT_ID, false);
      if !applied.Incompatible? {
        return;
      }
    }
    return Incompatible;
  }

  /** The outcome of an edit, as a value. */
  ghost predicate Gives(applied: Applied<CaseRef>, spec: Applied<Case>)
    reads if applied.Changed? then {applied.value.command, applied.value.native, applied.value.actors, applied.value.assignments, applied.value.evidence}
          else {}
    reads if applied.Changed? && applied.value.command != null then {applied.value.command.argv} else {}
  {
    match spec
    case Changed(c) => applied.Changed? && Value(applied.value) == c
    case Incompatible => applied.Incompatible?
    case Broken => applied.Broken?
  }

  method MutateActorKind(candidate: CaseRef) returns (applied: Applied<CaseRef>)
    modifies candidate.command, if candidate.command == null then {} else {candidate.command.argv}
    ensures Gives(applied, WrongKind(old(Value(candidate))))
  {
    applied := MutateArg(candidate, ACTOR_FLAG, ACTOR_ID, false);
    if applied.Changed? {
      var actors, n := candidate.actors, candidate.actors.Length;
      var longer := new Actor[n + 1](k requires 0 <= k < n + 1 reads actors => if k < n then actors[k] else Actor(ACTOR_ID, SOFTWARE));
      assert longer[..] == actors[..] + [Actor(ACTOR_ID, SOFTWARE)];
      applied := Changed(candidate.(actors := longer));
    }
  }

  method EndAssignment(candidate: CaseRef) returns (applied: Applied<CaseRef>)
    modifies candidate.assignments
    ensures Gives(applied, EndedCase(old(Value(candidate))))
  {
    var i := FindStarted(candidate.assignments);
    if i == candidate.assignments.Length {
      return Incompatible;
    }
    candidate.assignments[i] := candidate.assignments[i].(state := ENDED);
    return Changed(candidate);
  }

  method SwapRole(candidate: CaseRef) returns (applied: Applied<CaseRef>)
    modifies candidate.assignments
    ensures Gives(applied, RoleCase(old(Value(candidate))))
  {
    if candidate.assignments.Length == 0 {
      return Incompatible;
    }
    var role := if candidate.assignments[0].role == AXIS_REVIEWER then GOVERNING_SUPERVISOR else AXIS_REVIEWER;
    candidate.assignments[0] := candidate.assignments[0].(role := role);
    return Changed(candidate);
  }

  method AppendArg(candidate: CaseRef) returns (applied: Applied<CaseRef>)
    modifies candidate.command
    ensures Gives(applied, CommandCase(old(Value(candidate))))
  {
    if candidate.command == null {
      return Incompatible;
    }
    var argv := candidate.command.argv;
    var longer := new string[argv.Length + 1](k requires 0 <= k < argv.Length + 1 reads argv => if k < argv.Length then argv[k] else EXTRA_ARG);
    assert longer[..] == argv[..] + [EXTRA_ARG];
    candidate.command.argv := longer;
    return Changed(candidate);
  }

  method ChangeEvidence(candidate: CaseRef) returns (applied: Applied<CaseRef>)
    modifies candidate.evidence
    ensures Gives(applied, EvidenceCase(old(Value(candidate))))
  {
    if candidate.evidence.Length == 0 {
      return Incompatible;
    }
    candidate.evidence[0] := candidate.evidence[0].(value := DataValue(Some(EVIDENCE_TEXT), ""));
    return Changed(candidate);
  }

  /** Edits the inline text of the command's stdin or else of the event's input. */
  method EditInput(candidate: CaseRef, edit: string -> Option<string>) returns (applied: Applied<CaseRef>)
    modifies candidate.command, candidate.native
    ensures Gives(applied, InputCase(old(Value(candidate)), edit))
  {
    if candidate.command == null && candidate.native == null {
      return Incompatible;
    }
    var value := if candidate.command != null then candidate.command.stdin else candidate.native.input;
    if value.inlined.None? {
      return Incompatible;
    }
    var text := edit(value.inlined.value);
    if text.None? {
      return Incompatible;
    }
    if candidate.command != null {
      candidate.command.stdin := value.(inlined := text);
    } else {
      candidate.native.input := value.(inlined := text);
    }
    return Changed(candidate);
  }

  method RenameEvent(candidate: CaseRef) returns (applied: Applied<CaseRef>)
    modifies candidate.native
    ensures Gives(applied, EventCase(old(Value(candidate))))
  {
    if candidate.native == null {
      return Incompatible;
    }
    candidate.native.event := candidate.native.event + EVENT_SUFFIX;
    return Changed(candidate);
  }

  /** The switch of applyMutation, on a clone. */
  method Edit(candidate: CaseRef, op: string, addField: string -> Option<string>) returns (applied: Applied<CaseRef>)
    modifies candidate.command, if candidate.command == null then {} else {candidate.command.argv}
    modifies candidate.native, candidate.assignments, candidate.evidence
    ensures Gives(applied, Mutated(old(Value(candidate)), op, addField))
  {
    if op == REMOVE_ACTOR {
      applied := MutateArg(candidate, ACTOR_FLAG, "", true);
    } else if op == UNKNOWN_ACTOR {
      applied := MutateArg(candidate, ACTOR_FLAG, ACTOR_ID, false);
    } else if op == WRONG_ACTOR_KIND {
      applied := MutateActorKind(candidate);
    } else if op == ENDED_ASSIGNMENT {
      applied := EndAssignment(candidate);
    } else if op == WRONG_ROLE {
      applied := SwapRole(candidate);
    } else if op == WRONG_SUBJECT {
      applied := MutateSubject(candidate);
    } else if op == CHANGED_COMMAND {
      applied := AppendArg(candidate);
    } else if op == CHANGED_EVIDENCE {
      applied := ChangeEvidence(candidate);
    } else if op == UNKNOWN_FIELD {
      applied := EditInput(candidate, addField);
    } else if op == TRAILING_JSON {
      applied := EditInput(candidate, Trailing);
    } else if op == EVENT_MISMATCH {
      applied := RenameEvent(candidate);
    } else {
      applied := Broken;
    }
  }

  /** applyMutation.  The method has no modifies clause: every edit lands in the clone, and
      no object the source can reach is written. */
  method ApplyMutation(source: CaseRef, op: string, addField: string -> Option<string>) returns (applied: Applied<CaseRef>)
    ensures Gives(applied, Mutated(old(Value(source)), op, addField))
    ensures Value(source) == old(Value(source))
  {
    var candidate := CloneCase(source);
    applied := Edit(candidate, op, addField);
  }
}
