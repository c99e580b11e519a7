/** Progress of the migration protocol (internal/audit/migrate.go): from any state in which the
    write lock is free, whatever ran or crashed before, one migrator left alone succeeds. */
module MigrationProgress {
  import opened Wrappers
  import opened Migration

  /** Nothing fails, is cancelled, or leaves a commit in doubt. */
  predicate Undisturbed(action: Action) {
    !action.Fail? && !action.Crash? && !action.CommitUnclear?
  }

  /** The system after these actions of process p, with no other process moving. */
  function Solo<D>(table: seq<Step<D>>, s: System<D>, p: nat, actions: seq<Action>): Option<System<D>>
    decreases |actions|
  {
    if actions == [] then Some(s)
    else
      match Act(table, s, p, actions[0])
      case None => None
      case Some(next) => Solo(table, next, p, actions[1..])
  }

  /** A bound on the actions a process has left. */
  function Rank<D>(table: seq<Step<D>>, phase: Phase<D>): int {
    match phase
    case Probing => 6 * |table| + 2
    case AtLoop(i) => 6 * (|table| - i) + 1
    case Queued(i) => 6 * (|table| - i)
    case Locked(i) => 6 * (|table| - i) - 1
    case Ready(i) => 6 * (|table| - i) - 2
    case Staged(i, _, _) => 6 * (|table| - i) - 3
    case Finished(_) => 0
    case Crashed => 0
  }

  function Larger(a: int, b: int): int {
    if a < b then b else a
  }

  /** Process p is alone at the lock and on its way to the goal. */
  ghost predicate OnTheWay<D>(table: seq<Step<D>>, origin: Store<D>, s: System<D>, p: nat, goal: int) {
    && Inv(table, origin, s) && 1 <= origin.version && s.store.version <= MaxKnown(table)
    && p < |s.procs| && (s.holder.None? || s.holder == Some(p))
    && Rank(table, s.procs[p].phase) >= 0
    && goal == Larger(s.store.version, NormalCeiling(s.procs[p].requested, MaxKnown(table)))
    && Going(s.store.version, goal, s.procs[p].phase)
  }

  ghost predicate Going<D>(version: int, goal: int, phase: Phase<D>) {
    match phase
    case Finished(outcome) => outcome == Success && version == goal
    case Crashed => false
    case _ => true
  }

  /** Each undisturbed action brings p closer to its end and keeps it on the way. */
  lemma SoloStep<D>(table: seq<Step<D>>, origin: Store<D>, s: System<D>, p: nat, action: Action, goal: int)
    requires Contiguous(table) && OnTheWay(table, origin, s, p, goal) && Undisturbed(action)
    requires Act(table, s, p, action).Some?
    ensures var next := Act(table, s, p, action).value;
            && OnTheWay(table, origin, next, p, goal)
            && Rank(table, next.procs[p].phase) < Rank(table, s.procs[p].phase)
            && s.log <= next.log
  {
    ActKeepsInv(table, origin, s, p, action);
    ActFrame(table, s, p, action);
    hide Inv;
    assert ProcOk(table, s.store, s.procs[p]) by { ProcsAreOk(table, origin, s, p); }
    StepRanks(table, s, p, action, goal);
  }

  lemma ProcsAreOk<D>(table: seq<Step<D>>, origin: Store<D>, s: System<D>, p: nat)
    requires Inv(table, origin, s) && p < |s.procs|
    ensures ProcOk(table, s.store, s.procs[p])
  {
  }

  lemma StepRanks<D>(table: seq<Step<D>>, s: System<D>, p: nat, action: Action, goal: int)
    requires Contiguous(table) && 1 <= s.store.version <= MaxKnown(table) && p < |s.procs|
    requires ProcOk(table, s.store, s.procs[p]) && Rank(table, s.procs[p].phase) >= 0
    requires goal == Larger(s.store.version, NormalCeiling(s.procs[p].requested, MaxKnown(table)))
    requires Going(s.store.version, goal, s.procs[p].phase)
    requires Undisturbed(action) && Act(table, s, p, action).Some?
    ensures var next := Act(table, s, p, action).value;
            && 0 <= Rank(table, next.procs[p].phase) < Rank(table, s.procs[p].phase)
            && next.store.version <= MaxKnown(table)
            && goal == Larger(next.store.version, NormalCeiling(next.procs[p].requested, MaxKnown(table)))
            && Going(next.store.version, goal, next.procs[p].phase)
  {
  }

  /** The next undisturbed action of a process that is not through. */
  function NextAction<D>(phase: Phase<D>, at: Instant): Action {
    match phase
    case Probing => Probe
    case AtLoop(_) => Iterate
    case Queued(_) => Acquire
    case Locked(_) => Recheck
    case Ready(_) => Apply(at)
    case _ => CommitStep
  }

  /** It is never blocked. */
  lemma NeverBlocked<D>(table: seq<Step<D>>, origin: Store<D>, s: System<D>, p: nat, at: Instant, goal: int)
    requires Contiguous(table) && OnTheWay(table, origin, s, p, goal) && !s.procs[p].phase.Finished?
    ensures Undisturbed(NextAction(s.procs[p].phase, at)) && Act(table, s, p, NextAction(s.procs[p].phase, at)).Some?
  {
  }

  /** Every run of undisturbed actions of p is short, and keeps p on the way. */
  lemma {:induction false} SoloRun<D>(table: seq<Step<D>>, origin: Store<D>, s: System<D>, p: nat, actions: seq<Action>, goal: int)
    requires Contiguous(table) && OnTheWay(table, origin, s, p, goal)
    requires (forall a | a in actions :: Undisturbed(a)) && Solo(table, s, p, actions).Some?
    ensures var end := Solo(table, s, p, actions).value;
            && OnTheWay(table, origin, end, p, goal) && s.log <= end.log
            && |actions| + Rank(table, end.procs[p].phase) <= Rank(table, s.procs[p].phase)
    decreases |actions|
  {
    hide OnTheWay, Act, Rank;
    if actions != [] {
      SoloStep(table, origin, s, p, actions[0], goal);
      SoloRun(table, origin, Act(table, s, p, actions[0]).value, p, actions[1..], goal);
    }
  }

  /** From every reachable state with a free lock and a known version, a migrator that has not
      begun and is left alone: it is blocked nowhere, takes at most six actions a step and two
      more, and where it stops it has succeeded.  The store then stands at its ceiling, or where
      it stood above, and is the climb from the store it found. */
  lemma AloneSucceeds<D>(table: seq<Step<D>>, start: System<D>, schedule: seq<Move>, p: nat, actions: seq<Action>)
    requires Contiguous(table) && Initial(start) && 1 <= start.store.version <= MaxKnown(table)
    requires Run(table, start, schedule).Some? && Run(table, start, schedule).value.holder.None?
    requires p < |Run(table, start, schedule).value.procs| && Run(table, start, schedule).value.procs[p].phase.Probing?
    requires forall a | a in actions :: Undisturbed(a)
    requires Solo(table, Run(table, start, schedule).value, p, actions).Some?
    ensures var s := Run(table, start, schedule).value;
            var end := Solo(table, s, p, actions).value;
            && p < |end.procs|
            && |actions| <= 6 * |table| + 2
            && (end.procs[p].phase.Finished? ==>
                  && end.procs[p].phase == Finished(Success)
                  && end.store.version == Larger(s.store.version, NormalCeiling(s.procs[p].requested, MaxKnown(table))))
            && (!end.procs[p].phase.Finished? ==>
                  exists a :: Undisturbed(a) && Act(table, end, p, a).Some?)
            && exists clock :: end.store == Climb(table, s.store, end.store.version, clock)
  {
    var s := Run(table, start, schedule).value;
    var goal := Larger(s.store.version, NormalCeiling(s.procs[p].requested, MaxKnown(table)));
    RunKeepsInv(table, start, schedule);
    assert OnTheWay(table, start.store, s, p, goal);
    SoloRun(table, start.store, s, p, actions, goal);
    var end := Solo(table, s, p, actions).value;
    if !end.procs[p].phase.Finished? {
      NeverBlocked(table, start.store, end, p, 0, goal);
    }
    LaterIsClimb(table, start.store, s.store, s.log, end.store, end.log);
  }

  /** And left alone it does get there: some run of its actions ends. */
  lemma AloneEnds<D>(table: seq<Step<D>>, start: System<D>, schedule: seq<Move>, p: nat, at: Instant) returns (actions: seq<Action>)
    requires Contiguous(table) && Initial(start) && 1 <= start.store.version <= MaxKnown(table)
    requires Run(table, start, schedule).Some? && Run(table, start, schedule).value.holder.None?
    requires p < |Run(table, start, schedule).value.procs| && Run(table, start, schedule).value.procs[p].phase.Probing?
    ensures (forall a | a in actions :: Undisturbed(a)) && Solo(table, Run(table, start, schedule).value, p, actions).Some?
    ensures var end := Solo(table, Run(table, start, schedule).value, p, actions).value;
            p < |end.procs| && end.procs[p].phase == Finished(Success)
  {
    var s := Run(table, start, schedule).value;
    RunKeepsInv(table, start, schedule);
    var goal := Larger(s.store.version, NormalCeiling(s.procs[p].requested, MaxKnown(table)));
    assert OnTheWay(table, start.store, s, p, goal);
    actions := Reach(table, start.store, s, p, at, goal);
  }

  lemma Reach<D>(table: seq<Step<D>>, origin: Store<D>, s: System<D>, p: nat, at: Instant, goal: int) returns (actions: seq<Action>)
    requires Contiguous(table) && OnTheWay(table, origin, s, p, goal)
    ensures (forall a | a in actions :: Undisturbed(a)) && Solo(table, s, p, actions).Some?
    ensures p < |Solo(table, s, p, actions).value.procs| && Solo(table, s, p, actions).value.procs[p].phase == Finished(Success)
    decreases Rank(table, s.procs[p].phase)
  {
    if s.procs[p].phase.Finished? {
      actions := [];
    } else {
      NeverBlocked(table, origin, s, p, at, goal);
      var next := NextAction(s.procs[p].phase, at);
      SoloStep(table, origin, s, p, next, goal);
      hide Act;
      var rest := Reach(table, origin, Act(table, s, p, next).value, p, at, goal);
      actions := [next] + rest;
      assert actions[1..] == rest;
    }
  }

  // ----- a later store is a climb from an earlier one -----

  lemma {:induction false} ReplayConcat<D>(table: seq<Step<D>>, origin: Store<D>, a: seq<Commit>, b: seq<Commit>)
    ensures Replay(table, origin, a + b) == Replay(table, Replay(table, origin, a), b)
    decreases |b|
  {
    if b == [] {
      assert a + b == a;
    } else {
      assert (a + b)[..|a + b| - 1] == a + b[..|b| - 1];
      ReplayConcat(table, origin, a, b[..|b| - 1]);
    }
  }

  lemma FoldsOn<D>(table: seq<Step<D>>, origin: Store<D>, store: Store<D>, log: seq<Commit>, later: Store<D>, rest: seq<Commit>)
    requires FoldsFrom(table, origin, store, log) && FoldsFrom(table, origin, later, log + rest)
    ensures FoldsFrom(table, store, later, rest)
  {
    hide Replay;
    ReplayConcat(table, origin, log, rest);
    assert forall i | 0 <= i < |rest| :: rest[i] == (log + rest)[|log| + i];
  }

  lemma LaterIsClimb<D>(table: seq<Step<D>>, origin: Store<D>, store: Store<D>, log: seq<Commit>, later: Store<D>, longer: seq<Commit>)
    requires Contiguous(table) && origin.version >= 1 && log <= longer
    requires FoldsFrom(table, origin, store, log) && FoldsFrom(table, origin, later, longer)
    ensures exists clock :: later == Climb(table, store, later.version, clock)
  {
    assert store.version >= 1;
    hide FoldsFrom, Climb;
    var rest := longer[|log|..];
    assert longer == log + rest;
    FoldsOn(table, origin, store, log, later, rest);
    var clock := (v: int) => if 0 <= v - store.version < |rest| then rest[v - store.version].at else 0;
    ReplayIsClimb(table, store, later, rest, clock);
  }
}
