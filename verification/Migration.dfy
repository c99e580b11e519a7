/** The audit-schema migrator (internal/audit/migrate.go) as a protocol between any number
    of processes that may be cancelled or killed at any point.

    A SQLite transaction is one exclusive lock plus a staged store that becomes the
    committed store atomically or not at all.  A schema step is an opaque function of the
    data and of the instant it is stamped with. */
module Migration {
  import opened Wrappers

  type Instant = int

  /** migrationStep: one row of the dispatch table. */
  datatype Step<!D> = Step(from: int, to: int, apply: (D, Instant) -> D)

  datatype Store<D> = Store(version: int, data: D)

  /** One committed step: its position in the table and its timestamp. */
  datatype Commit = Commit(step: nat, at: Instant)

  datatype Outcome = Success | NewerSchema | Gap | ChangedUnderneath | Cancelled | Busy | Storage

  /** A table without a missing version: row i leads from version i + 1 to version i + 2. */
  ghost predicate Contiguous<D>(table: seq<Step<D>>) {
    |table| > 0 && forall i | 0 <= i < |table| :: table[i].from == i + 1 && table[i].to == i + 2
  }

  /** MaxKnownSchemaVersion for this table. */
  function MaxKnown<D>(table: seq<Step<D>>): int {
    |table| + 1
  }

  /** The ceiling rule: anything outside 1..max means max. */
  function NormalCeiling(requested: int, max: int): int {
    if requested <= 0 || requested > max then max else requested
  }

  function ApplyStep<D>(step: Step<D>, store: Store<D>, at: Instant): Store<D> {
    Store(step.to, step.apply(store.data, at))
  }

  // ----- the protocol -----

  datatype Phase<D> =
    | Probing
    | AtLoop(next: nat)
    | Queued(next: nat)
    | Locked(next: nat)
    | Ready(next: nat)
    | Staged(next: nat, staged: Store<D>, at: Instant)
    | Finished(outcome: Outcome)
    | Crashed

  datatype Proc<D> = Proc(requested: int, current: int, phase: Phase<D>)

  /** The committed store, the holder of the write lock, every process, and the history of commits. */
  datatype System<D> = System(store: Store<D>, holder: Option<nat>, procs: seq<Proc<D>>, log: seq<Commit>)

  datatype Action =
    | Probe
    | Iterate
    | Acquire
    | Recheck
    | Apply(at: Instant)
    | CommitStep
    | CommitUnclear(landed: bool)
    | Fail(error: Outcome)
    | Crash

  datatype Move = Move(pid: nat, action: Action)

  predicate Holds<D>(phase: Phase<D>) {
    phase.Locked? || phase.Ready? || phase.Staged?
  }

  predicate Live<D>(phase: Phase<D>) {
    !phase.Finished? && !phase.Crashed?
  }

  /** p leaves the transaction, if it is in one, and goes on to phase. */
  function Leave<D>(s: System<D>, p: nat, proc: Proc<D>): System<D>
    requires p < |s.procs|
  {
    s.(procs := s.procs[p := proc],
       holder := if Holds(s.procs[p].phase) && !Holds(proc.phase) then None else s.holder)
  }

  /** The tail of the step loop: the next step, or success once the ceiling is reached. */
  function Advance<D>(table: seq<Step<D>>, proc: Proc<D>, i: nat): Proc<D>
    requires i < |table|
  {
    var current := table[i].to;
    Proc(proc.requested, current,
         if current >= NormalCeiling(proc.requested, MaxKnown(table)) then Finished(Success) else AtLoop(i + 1))
  }

  function ProbeProc<D>(table: seq<Step<D>>, version: int, proc: Proc<D>): Proc<D> {
    if version > MaxKnown(table) then proc.(phase := Finished(NewerSchema))
    else if version >= NormalCeiling(proc.requested, MaxKnown(table)) then proc.(phase := Finished(Success))
    else proc.(current := version, phase := AtLoop(0))
  }

  function IterateProc<D>(table: seq<Step<D>>, proc: Proc<D>): Proc<D>
    requires proc.phase.AtLoop?
  {
    var i := proc.phase.next;
    if i >= |table| then proc.(phase := Finished(Success))
    else if table[i].from < proc.current then proc.(phase := AtLoop(i + 1))
    else if table[i].from != proc.current then proc.(phase := Finished(Gap))
    else proc.(phase := Queued(i))
  }

  function RecheckProc<D>(table: seq<Step<D>>, version: int, proc: Proc<D>): Proc<D>
    requires proc.phase.Locked? && proc.phase.next < |table|
  {
    var i := proc.phase.next;
    if version >= table[i].to then Advance(table, proc, i)
    else if version != table[i].from then proc.(phase := Finished(ChangedUnderneath))
    else proc.(phase := Ready(i))
  }

  /** The system after process p performs one action, or None when the action is not enabled. */
  function Act<D>(table: seq<Step<D>>, s: System<D>, p: nat, action: Action): Option<System<D>> {
    if p >= |s.procs| then None
    else
      var proc := s.procs[p];
      match action
      case Probe =>
        if proc.phase.Probing? then Some(Leave(s, p, ProbeProc(table, s.store.version, proc))) else None
      case Iterate =>
        if proc.phase.AtLoop? then Some(Leave(s, p, IterateProc(table, proc))) else None
      case Acquire =>
        if proc.phase.Queued? && s.holder.None?
        then Some(s.(holder := Some(p), procs := s.procs[p := proc.(phase := Locked(proc.phase.next))]))
        else None
      case Recheck =>
        if proc.phase.Locked? && proc.phase.next < |table|
        then Some(Leave(s, p, RecheckProc(table, s.store.version, proc)))
        else None
      case Apply(at) =>
        if proc.phase.Ready? && proc.phase.next < |table|
        then Some(Leave(s, p, proc.(phase := Staged(proc.phase.next, ApplyStep(table[proc.phase.next], s.store, at), at))))
        else None
      case CommitStep =>
        if proc.phase.Staged? && proc.phase.next < |table|
        then Some(Land(Leave(s, p, Advance(table, proc, proc.phase.next)), proc.phase))
        else None
      case CommitUnclear(landed) =>
        if proc.phase.Staged?
        then
          var after := Leave(s, p, proc.(phase := Finished(Storage)));
          Some(if landed then Land(after, proc.phase) else after)
        else None
      case Fail(error) =>
        if Live(proc.phase) && error in {Cancelled, Busy, Storage}
        then Some(Leave(s, p, proc.(phase := Finished(error))))
        else None
      case Crash =>
        if Live(proc.phase) then Some(Leave(s, p, proc.(phase := Crashed))) else None
  }

  /** The staged store becomes the committed one. */
  function Land<D>(s: System<D>, phase: Phase<D>): System<D>
    requires phase.Staged?
  {
    s.(store := phase.staged, log := s.log + [Commit(phase.next, phase.at)])
  }

  /** The system after a whole schedule, or None when some move was not enabled. */
  function Run<D>(table: seq<Step<D>>, s: System<D>, schedule: seq<Move>): Option<System<D>>
    decreases |schedule|
  {
    if schedule == [] then Some(s)
    else
      match Run(table, s, schedule[..|schedule| - 1])
      case None => None
      case Some(mid) => Act(table, mid, schedule[|schedule| - 1].pid, schedule[|schedule| - 1].action)
  }

  ghost predicate Initial<D>(s: System<D>) {
    s.holder.None? && s.log == [] && forall p | 0 <= p < |s.procs| :: s.procs[p].phase.Probing?
  }

  // ----- what the history of commits means -----

  /** The store that a history of commits produces, one step after the other. */
  function Replay<D>(table: seq<Step<D>>, origin: Store<D>, log: seq<Commit>): Store<D>
    decreases |log|
  {
    if log == [] then origin
    else
      var last := log[|log| - 1];
      var before := Replay(table, origin, log[..|log| - 1]);
      if last.step < |table| then ApplyStep(table[last.step], before, last.at) else before
  }

  /** Commit i of a history that started at version `first` is the step out of version first + i. */
  ghost predicate Consecutive(first: int, log: seq<Commit>) {
    forall i | 0 <= i < |log| :: log[i].step == first - 1 + i
  }

  /** The committed store is the sequential fold of the steps from the original version up. */
  ghost predicate FoldsFrom<D>(table: seq<Step<D>>, origin: Store<D>, store: Store<D>, log: seq<Commit>) {
    && store == Replay(table, origin, log)
    && Consecutive(origin.version, log)
    && store.version == origin.version + |log|
    && (log != [] ==> store.version <= MaxKnown(table))
  }

  ghost predicate ProcOk<D>(table: seq<Step<D>>, store: Store<D>, proc: Proc<D>) {
    var ceiling := NormalCeiling(proc.requested, MaxKnown(table));
    match proc.phase
    case Probing => true
    case AtLoop(i) => i < proc.current <= store.version && proc.current < ceiling
    case Queued(i) => i + 1 == proc.current <= store.version && proc.current < ceiling
    case Locked(i) => i + 1 == proc.current <= store.version && proc.current < ceiling
    case Ready(i) => i + 1 == proc.current == store.version && proc.current < ceiling
    case Staged(i, staged, at) =>
      i + 1 == proc.current == store.version && proc.current < ceiling && staged == ApplyStep(table[i], store, at)
    case Finished(outcome) =>
      && outcome != Gap && outcome != ChangedUnderneath
      && (outcome == Success ==> store.version >= ceiling)
      && (outcome == NewerSchema ==> store.version > MaxKnown(table))
    case Crashed => true
  }

  ghost predicate Inv<D>(table: seq<Step<D>>, origin: Store<D>, s: System<D>) {
    && FoldsFrom(table, origin, s.store, s.log)
    && (forall p | 0 <= p < |s.procs| :: Holds(s.procs[p].phase) <==> s.holder == Some(p))
    && (forall p | 0 <= p < |s.procs| :: ProcOk(table, s.store, s.procs[p]))
  }

  lemma FoldExtends<D>(table: seq<Step<D>>, origin: Store<D>, store: Store<D>, log: seq<Commit>, i: nat, at: Instant)
    requires Contiguous(table) && FoldsFrom(table, origin, store, log)
    requires i < |table| && store.version == i + 1
    ensures FoldsFrom(table, origin, ApplyStep(table[i], store, at), log + [Commit(i, at)])
  {
    var longer := log + [Commit(i, at)];
    assert longer[..|longer| - 1] == log;
  }

  /** The process that moves stays consistent with the store it leaves behind. */
  lemma MoverOk<D>(table: seq<Step<D>>, s: System<D>, p: nat, action: Action)
    requires Contiguous(table) && s.store.version >= 1 && p < |s.procs| && ProcOk(table, s.store, s.procs[p])
    requires Act(table, s, p, action).Some?
    ensures ProcOk(table, Act(table, s, p, action).value.store, Act(table, s, p, action).value.procs[p])
  {
  }

  /** What an action may do to the shared state. */
  lemma ActFrame<D>(table: seq<Step<D>>, s: System<D>, p: nat, action: Action)
    requires Act(table, s, p, action).Some?
    ensures var s' := Act(table, s, p, action).value;
            && p < |s.procs| == |s'.procs|
            && (forall q | 0 <= q < |s.procs| && q != p :: s'.procs[q] == s.procs[q])
            && (s'.holder == if Holds(s'.procs[p].phase) == Holds(s.procs[p].phase) then s.holder
                             else if Holds(s'.procs[p].phase) then Some(p) else None)
            && (Holds(s'.procs[p].phase) && !Holds(s.procs[p].phase) ==> s.holder.None?)
            && if s'.store == s.store && s'.log == s.log then true
               else s.procs[p].phase.Staged? && s'.store == s.procs[p].phase.staged
                    && s'.log == s.log + [Commit(s.procs[p].phase.next, s.procs[p].phase.at)]
  {
  }

  /** A commit elsewhere disturbs no process outside a transaction. */
  lemma BystanderOk<D>(table: seq<Step<D>>, store: Store<D>, later: Store<D>, proc: Proc<D>)
    requires ProcOk(table, store, proc) && !Holds(proc.phase) && store.version <= later.version
    ensures ProcOk(table, later, proc)
  {
  }

  /** One action of one process keeps the invariant, and never lowers the version. */
  lemma ActKeepsInv<D>(table: seq<Step<D>>, origin: Store<D>, s: System<D>, p: nat, action: Action)
    requires Contiguous(table) && origin.version >= 1 && Inv(table, origin, s)
    requires Act(table, s, p, action).Some?
    ensures Inv(table, origin, Act(table, s, p, action).value)
    ensures Act(table, s, p, action).value.store.version >= s.store.version
    ensures s.log <= Act(table, s, p, action).value.log
  {
    ActFrame(table, s, p, action);
    MoverOk(table, s, p, action);
    var s' := Act(table, s, p, action).value;
    if s'.store == s.store && s'.log == s.log {
    } else {
      var phase := s.procs[p].phase;
      FoldExtends(table, origin, s.store, s.log, phase.next, phase.at);
      forall q | 0 <= q < |s.procs| && q != p ensures ProcOk(table, s'.store, s'.procs[q]) {
        BystanderOk(table, s.store, s'.store, s.procs[q]);
      }
    }
  }

  /** Safety over whole runs: after any schedule of any number of processes with any
      ceilings, crashes and cancellations, the store is the sequential fold, the lock has
      one owner, and no process saw a gap or a foreign version. */
  lemma {:induction false} RunKeepsInv<D>(table: seq<Step<D>>, start: System<D>, schedule: seq<Move>)
    requires Contiguous(table) && Initial(start) && start.store.version >= 1
    requires Run(table, start, schedule).Some?
    ensures Inv(table, start.store, Run(table, start, schedule).value)
    decreases |schedule|
  {
    if schedule != [] {
      var shorter := schedule[..|schedule| - 1];
      RunKeepsInv(table, start, shorter);
      var last := schedule[|schedule| - 1];
      ActKeepsInv(table, start.store, Run(table, start, shorter).value, last.pid, last.action);
    }
  }

  /** The version is monotone along a run: no later state lies below an earlier one. */
  lemma {:induction false} VersionNeverDecreases<D>(table: seq<Step<D>>, start: System<D>, early: seq<Move>, late: seq<Move>)
    requires Contiguous(table) && Initial(start) && start.store.version >= 1
    requires Run(table, start, early + late).Some?
    ensures Run(table, start, early).Some?
    ensures Run(table, start, early).value.store.version <= Run(table, start, early + late).value.store.version
    ensures Run(table, start, early).value.log <= Run(table, start, early + late).value.log
    decreases |late|
  {
    var all := early + late;
    if late == [] {
      assert all == early;
    } else {
      var init := late[..|late| - 1];
      assert all[..|all| - 1] == early + init;
      VersionNeverDecreases(table, start, early, init);
      RunKeepsInv(table, start, early + init);
      var last := all[|all| - 1];
      ActKeepsInv(table, start.store, Run(table, start, early + init).value, last.pid, last.action);
    }
  }

  /** Every step from the original version up to the recorded one was committed exactly
      once, and no other step was. */
  lemma EachStepCommittedOnce<D>(table: seq<Step<D>>, start: System<D>, schedule: seq<Move>, k: nat)
    requires Contiguous(table) && Initial(start) && start.store.version >= 1
    requires Run(table, start, schedule).Some?
    ensures var s := Run(table, start, schedule).value;
            && (start.store.version <= k + 1 < s.store.version <==> exists i :: 0 <= i < |s.log| && s.log[i].step == k)
            && (forall i, j | 0 <= i < |s.log| && 0 <= j < |s.log| && s.log[i].step == s.log[j].step :: i == j)
  {
    RunKeepsInv(table, start, schedule);
    var s := Run(table, start, schedule).value;
    if start.store.version <= k + 1 < s.store.version {
      assert s.log[k + 1 - start.store.version].step == k;
    }
  }

  /** After this schedule process p has ended with this outcome. */
  ghost predicate Ends<D>(table: seq<Step<D>>, start: System<D>, schedule: seq<Move>, p: nat, outcome: Outcome) {
    && Run(table, start, schedule).Some?
    && p < |Run(table, start, schedule).value.procs|
    && Run(table, start, schedule).value.procs[p].phase == Finished(outcome)
  }

  /** The "gap" report of a contiguous table: some schedule leads to it exactly when the
      database started below version 1. */
  lemma GapReachableIff<D>(table: seq<Step<D>>, start: System<D>)
    requires Contiguous(table) && Initial(start) && start.procs != []
    ensures (exists schedule, p :: Ends(table, start, schedule, p, Gap)) <==> start.store.version < 1
  {
    if start.store.version < 1 {
      var first := [Move(0, Probe)];
      var schedule := first + [Move(0, Iterate)];
      assert first[..0] == [] && schedule[..1] == first;
      assert Run(table, start, []) == Some(start);
      var probed := Leave(start, 0, ProbeProc(table, start.store.version, start.procs[0]));
      assert Run(table, start, first) == Some(probed);
      assert probed.procs[0].phase == AtLoop(0) && table[0].from > probed.procs[0].current;
      assert Ends(table, start, schedule, 0, Gap);
    } else {
      forall schedule, p | Ends(table, start, schedule, p, Gap) ensures false {
        NoUnreachableReport(table, start, schedule, p);
      }
    }
  }

  /** From version 1 up, neither "gap" nor "changed underneath us" can end any process. */
  lemma NoUnreachableReport<D>(table: seq<Step<D>>, start: System<D>, schedule: seq<Move>, p: nat)
    requires Contiguous(table) && Initial(start) && start.store.version >= 1
    ensures !Ends(table, start, schedule, p, Gap) && !Ends(table, start, schedule, p, ChangedUnderneath)
  {
    if Run(table, start, schedule).Some? && p < |Run(table, start, schedule).value.procs| {
      RunKeepsInv(table, start, schedule);
      var s := Run(table, start, schedule).value;
      assert ProcOk(table, s.store, s.procs[p]);
    }
  }

  /** A nil return means the ceiling is reached for good: any migrator that starts later with
      the same or a lower ceiling returns nil from its first read and writes nothing. */
  lemma SecondRunIsNoOp<D>(table: seq<Step<D>>, start: System<D>, schedule: seq<Move>, p: nat, later: Proc<D>)
    requires Contiguous(table) && Initial(start) && 1 <= start.store.version <= MaxKnown(table)
    requires Run(table, start, schedule).Some?
    requires p < |Run(table, start, schedule).value.procs|
    requires Run(table, start, schedule).value.procs[p].phase == Finished(Success)
    requires later.phase.Probing?
    requires NormalCeiling(later.requested, MaxKnown(table))
          <= NormalCeiling(Run(table, start, schedule).value.procs[p].requested, MaxKnown(table))
    ensures var s := Run(table, start, schedule).value;
            var joined := s.(procs := s.procs + [later]);
            Act(table, joined, |s.procs|, Probe)
            == Some(joined.(procs := s.procs + [later.(phase := Finished(Success))]))
  {
    RunKeepsInv(table, start, schedule);
    var s := Run(table, start, schedule).value;
    assert ProcOk(table, s.store, s.procs[p]);
    var joined := s.(procs := s.procs + [later]);
    assert joined.procs[|s.procs| := later.(phase := Finished(Success))] == s.procs + [later.(phase := Finished(Success))];
  }

  // ----- the sequential reading, and the deferred ceiling -----

  /** One migrator alone: the steps from the recorded version up to the target, the step out
      of version v stamped clock(v). */
  function Climb<D>(table: seq<Step<D>>, store: Store<D>, target: int, clock: int -> Instant): Store<D>
    decreases target - store.version
  {
    if store.version >= target || store.version < 1 || store.version > |table| then store
    else
      var step := table[store.version - 1];
      var next := ApplyStep(step, store, clock(store.version));
      if next.version <= store.version then store else Climb(table, next, target, clock)
  }

  /** Any history the protocol can produce is the climb of one migrator alone. */
  lemma {:induction false} ReplayIsClimb<D>(table: seq<Step<D>>, origin: Store<D>, store: Store<D>, log: seq<Commit>, clock: int -> Instant)
    requires Contiguous(table) && origin.version >= 1 && FoldsFrom(table, origin, store, log)
    requires forall i | 0 <= i < |log| :: clock(origin.version + i) == log[i].at
    ensures store == Climb(table, origin, store.version, clock)
    decreases |log|
  {
    if log != [] {
      var last := log[|log| - 1];
      var shorter := log[..|log| - 1];
      var before := Replay(table, origin, shorter);
      ReplayVersion(table, origin, shorter);
      ReplayIsClimb(table, origin, before, shorter, clock);
      ClimbSplits(table, origin, before.version, store.version, clock);
      assert Climb(table, store, store.version, clock) == store;
      assert ApplyStep(table[last.step], before, clock(before.version)) == store;
    }
  }

  lemma {:induction false} ReplayVersion<D>(table: seq<Step<D>>, origin: Store<D>, log: seq<Commit>)
    requires Contiguous(table) && origin.version >= 1 && Consecutive(origin.version, log)
    requires origin.version + |log| <= MaxKnown(table)
    ensures FoldsFrom(table, origin, Replay(table, origin, log), log)
    decreases |log|
  {
    if log != [] {
      ReplayVersion(table, origin, log[..|log| - 1]);
    }
  }

  /** Stopping a climb at any version and resuming it changes nothing. */
  lemma {:induction false} ClimbSplits<D>(table: seq<Step<D>>, store: Store<D>, mid: int, target: int, clock: int -> Instant)
    requires Contiguous(table) && mid <= target
    ensures Climb(table, Climb(table, store, mid, clock), target, clock) == Climb(table, store, target, clock)
    decreases target - store.version
  {
    if 1 <= store.version <= |table| && store.version < mid {
      ClimbSplits(table, ApplyStep(table[store.version - 1], store, clock(store.version)), mid, target, clock);
    }
  }

  lemma {:induction false} ClimbReadsOnlyItsInstants<D>(table: seq<Step<D>>, store: Store<D>, target: int, a: int -> Instant, b: int -> Instant)
    requires Contiguous(table)
    requires forall v | store.version <= v < target :: a(v) == b(v)
    ensures Climb(table, store, target, a) == Climb(table, store, target, b)
    decreases target - store.version
  {
    if 1 <= store.version <= |table| && store.version < target {
      ClimbReadsOnlyItsInstants(table, ApplyStep(table[store.version - 1], store, a(store.version)), target, a, b);
    }
  }

  /** The deferred-ceiling split: whatever concurrent catch-up brought the store to version c
      or above, applying the rest in one transaction with one instant gives the store of a
      single uninterrupted migration that stamps the same instants. */
  lemma DeferredCeilingSplit<D>(table: seq<Step<D>>, start: System<D>, schedule: seq<Move>, at: Instant, clock: int -> Instant)
    requires Contiguous(table) && Initial(start) && 1 <= start.store.version <= MaxKnown(table)
    requires Run(table, start, schedule).Some?
    requires var s := Run(table, start, schedule).value;
             && (forall i | 0 <= i < |s.log| :: clock(start.store.version + i) == s.log[i].at)
             && (forall v | s.store.version <= v :: clock(v) == at)
    ensures var s := Run(table, start, schedule).value;
            Climb(table, s.store, MaxKnown(table), v => at) == Climb(table, start.store, MaxKnown(table), clock)
  {
    hide Run, Climb, Replay, ProcOk;
    RunKeepsInv(table, start, schedule);
    var s := Run(table, start, schedule).value;
    ReplayIsClimb(table, start.store, s.store, s.log, clock);
    ClimbSplits(table, start.store, s.store.version, MaxKnown(table), clock);
    ClimbReadsOnlyItsInstants(table, s.store, MaxKnown(table), v => at, clock);
  }
}
