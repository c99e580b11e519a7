/** The migrator's own code (internal/audit/migrate.go): the step loop, one step under the
    write lock, the lock retry, and the ceiling applied in a caller's transaction.

    What other processes and the environment do is left open: they commit any number of
    steps while this one waits, and every attempt, read, step and commit may fail. */
module Migrator {
  import opened Wrappers
  import opened Migration

  /** busyRetryPolicy, in milliseconds. */
  datatype RetryPolicy = RetryPolicy(ceiling: nat, initialDelay: nat, maxDelay: nat)

  const DEFAULT_POLICY := RetryPolicy(30_000, 50, 2_000)

  /** The pause before retry k: doubled each time, cut off at the maximum. */
  function Backoff(policy: RetryPolicy, k: nat): nat {
    if k == 0 then policy.initialDelay
    else
      var doubled := 2 * Backoff(policy, k - 1);
      if doubled > policy.maxDelay then policy.maxDelay else doubled
  }

  function Sum(s: seq<nat>): nat {
    if s == [] then 0 else Sum(s[..|s| - 1]) + s[|s| - 1]
  }

  /** Every pause but the last is the full backoff; the last may be cut short. */
  ghost predicate Paced(policy: RetryPolicy, pauses: seq<nat>) {
    forall k | 0 <= k < |pauses| ::
      pauses[k] <= Backoff(policy, k) && (k < |pauses| - 1 ==> pauses[k] == Backoff(policy, k))
  }

  ghost predicate AllFull(policy: RetryPolicy, pauses: seq<nat>) {
    forall k | 0 <= k < |pauses| :: pauses[k] == Backoff(policy, k)
  }

  lemma PacedExtends(policy: RetryPolicy, pauses: seq<nat>, pause: nat)
    requires AllFull(policy, pauses)
    requires pause <= Backoff(policy, |pauses|)
    ensures Paced(policy, pauses + [pause])
    ensures pause == Backoff(policy, |pauses|) ==> AllFull(policy, pauses + [pause])
    ensures Sum(pauses + [pause]) == Sum(pauses) + pause
  {
    var longer := pauses + [pause];
    assert longer[..|longer| - 1] == pauses;
  }

  /** Waits for the write lock: returns None once it is held.  The pauses follow the backoff,
      together they fit in the policy's ceiling, and contention is reported only after the
      whole ceiling has passed. */
  method BeginImmediateWithRetry(policy: RetryPolicy) returns (error: Option<Outcome>, pauses: seq<nat>, waited: nat)
    requires policy.initialDelay > 0 && policy.maxDelay > 0
    ensures error.Some? ==> error.value in {Cancelled, Busy, Storage}
    ensures Paced(policy, pauses)
    ensures Sum(pauses) <= policy.ceiling && Sum(pauses) <= waited
    ensures error == Some(Busy) ==> waited >= policy.ceiling
  {
    waited, pauses := 0, [];
    var delay := policy.initialDelay;
    var contended := false;
    while true
      invariant delay == Backoff(policy, |pauses|) && delay > 0
      invariant Paced(policy, pauses)
      invariant Sum(pauses) <= policy.ceiling && Sum(pauses) <= waited
      invariant !contended ==> waited == 0 && pauses == []
      invariant waited < policy.ceiling || !contended ==> AllFull(policy, pauses)
      decreases if !contended then 1 else 0, policy.ceiling - waited
    {
      var cancelled: bool := *;
      if cancelled {
        return Some(Cancelled), pauses, waited;
      }
      if contended && waited >= policy.ceiling {
        return Some(Busy), pauses, waited;
      }
      var elapsed: int :| elapsed >= 0;
      var granted, withdrawn, busy: bool := *, *, *;
      if granted {
        return None, pauses, waited + elapsed;
      }
      if withdrawn {
        return Some(Cancelled), pauses, waited + elapsed;
      }
      if !busy {
        return Some(Storage), pauses, waited + elapsed;
      }
      contended, waited := true, waited + elapsed;
      if waited > policy.ceiling {
        return Some(Busy), pauses, waited;
      }
      var interrupted: bool := *;
      if interrupted {
        return Some(Cancelled), pauses, waited;
      }
      var left := policy.ceiling - waited;
      var pause := if delay < left then delay else left;
      PacedExtends(policy, pauses, pause);
      pauses, waited := pauses + [pause], waited + pause;
      delay := 2 * delay;
      if delay > policy.maxDelay {
        delay := policy.maxDelay;
      }
    }
  }

  class AuditDatabase<!D> {
    const origin: Store<D>
    var store: Store<D>
    ghost var log: seq<Commit>

    ghost predicate Valid(table: seq<Step<D>>)
      reads this
    {
      Contiguous(table) && origin.version >= 1 && FoldsFrom(table, origin, store, log)
    }

    constructor (table: seq<Step<D>>, initial: Store<D>)
      requires Contiguous(table) && initial.version >= 1
      ensures Valid(table) && store == origin == initial
    {
      origin, store, log := initial, initial, [];
    }

    method Commit(table: seq<Step<D>>, i: nat, staged: Store<D>, at: Instant)
      requires Valid(table) && i < |table| && store.version == i + 1
      requires staged == ApplyStep(table[i], store, at)
      modifies this
      ensures Valid(table) && store == staged && log == old(log) + [Migration.Commit(i, at)]
    {
      FoldExtends(table, origin, store, log, i, at);
      store, log := staged, log + [Migration.Commit(i, at)];
    }

    /** Any number of commits by other migrators, each one the next step of the table. */
    method OtherMigrators(table: seq<Step<D>>)
      requires Valid(table)
      modifies this
      ensures Valid(table) && old(log) <= log
    {
      var n: int :| n >= 0;
      for k := 0 to n
        invariant Valid(table) && old(log) <= log
      {
        if store.version <= |table| {
          var i, at: Instant := store.version - 1, *;
          Commit(table, i, ApplyStep(table[i], store, at), at);
        }
      }
    }

    /** runStep: row i of the table, applied under the write lock unless it is already there.
        The staged store of an abandoned transaction is dropped. */
    method RunStep(table: seq<Step<D>>, i: nat) returns (error: Option<Outcome>)
      requires Valid(table) && i < |table| && store.version >= table[i].from
      modifies this
      ensures Valid(table) && old(log) <= log
      ensures error.Some? ==> error.value in {Cancelled, Busy, Storage}
      ensures error.None? ==> store.version >= table[i].to
    {
      var step := table[i];
      var refused, _, _ := BeginImmediateWithRetry(DEFAULT_POLICY);
      OtherMigrators(table);
      if refused.Some? {
        return refused;
      }
      var unreadable: bool := *;
      if unreadable {
        return Some(Storage);
      }
      var current := store.version;
      if current >= step.to {
        return None;
      }
      if current != step.from {
        return Some(ChangedUnderneath);
      }
      var at: Instant := *;
      var withdrawn, failed: bool := *, *;
      if withdrawn {
        return Some(Cancelled);
      }
      if failed {
        return Some(Storage);
      }
      var staged := ApplyStep(step, store, at);
      var unclear, landed: bool := *, *;
      if !unclear || landed {
        Commit(table, i, staged, at);
      }
      return if unclear then Some(Storage) else None;
    }

    /** MigrateContextToCeiling, with other migrators at work throughout.  It never reports a
        gap or a foreign version, and a nil return means the ceiling has been reached.  A newer
        store is never written and never called a success; it is refused as newer unless the
        context was cancelled or the version could not be read. */
    method MigrateToCeiling(table: seq<Step<D>>, requested: int) returns (outcome: Outcome)
      requires Valid(table)
      modifies this
      ensures Valid(table) && old(log) <= log
      ensures outcome != Gap && outcome != ChangedUnderneath
      ensures outcome == Success ==> store.version >= NormalCeiling(requested, MaxKnown(table))
      ensures outcome == NewerSchema ==> old(store.version) > MaxKnown(table)
      ensures old(store.version) > MaxKnown(table) ==> outcome in {NewerSchema, Cancelled, Storage}
      ensures old(store.version) >= NormalCeiling(requested, MaxKnown(table)) ==> log == old(log) && store == old(store)
    {
      var withdrawn, unreadable: bool := *, *;
      if withdrawn {
        return Cancelled;
      }
      var ceiling := NormalCeiling(requested, MaxKnown(table));
      if unreadable {
        return Storage;
      }
      var currentVersion := store.version;
      if currentVersion > MaxKnown(table) {
        return NewerSchema;
      }
      if currentVersion >= ceiling {
        return Success;
      }
      for i := 0 to |table|
        invariant Valid(table) && old(log) <= log
        invariant i < currentVersion <= store.version && currentVersion < ceiling
      {
        var cancelled: bool := *;
        if cancelled {
          return Cancelled;
        }
        if table[i].from < currentVersion {
          continue;
        }
        if table[i].from != currentVersion {
          return Gap;
        }
        var error := RunStep(table, i);
        if error.Some? {
          return error.value;
        }
        currentVersion := table[i].to;
        if currentVersion >= ceiling {
          return Success;
        }
      }
      return Success;
    }
  }

  /** The caller's open transaction: the store as it would be committed. */
  class Transaction<!D> {
    var staged: Store<D>

    constructor (store: Store<D>)
      ensures staged == store
    {
      staged := store;
    }

    /** ApplyCeilingInTx: the remaining steps from fromVersion on, all stamped with one
        instant.  It trusts the version it is given and reports a gap exactly below version 1. */
    method ApplyCeiling(table: seq<Step<D>>, fromVersion: int, at: Instant) returns (error: Option<Outcome>)
      requires Contiguous(table)
      modifies this
      ensures error.Some? ==> error.value in {Gap, Storage}
      ensures error == Some(Gap) <==> fromVersion < 1
      ensures fromVersion >= MaxKnown(table) || fromVersion < 1 ==> staged == old(staged)
      ensures error.None? && 1 <= fromVersion < MaxKnown(table) ==>
                staged == Climb(table, Store(fromVersion, old(staged).data), MaxKnown(table), v => at)
    {
      if fromVersion >= MaxKnown(table) {
        return None;
      }
      ghost var clock := v => at;
      ghost var goal := Climb(table, Store(fromVersion, staged.data), MaxKnown(table), clock);
      var version := fromVersion;
      for i := 0 to |table|
        invariant 1 <= fromVersion ==> i < version <= |table|
        invariant fromVersion < 1 ==> i == 0 && version == fromVersion
        invariant version == fromVersion ==> staged == old(staged)
        invariant 1 <= fromVersion <= version
                  ==> goal == Climb(table, Store(version, staged.data), MaxKnown(table), clock)
        invariant 1 <= fromVersion < version ==> staged.version == version
        invariant fromVersion >= 1 ==> fromVersion <= version
      {
        var step := table[i];
        if step.from < version {
          continue;
        }
        if step.from != version {
          return Some(Gap);
        }
        var failed: bool := *;
        if failed {
          return Some(Storage);
        }
        staged := ApplyStep(step, staged, at);
        version := step.to;
        if version >= MaxKnown(table) {
          break;
        }
      }
      return None;
    }
  }

  /** The offline conversion: catch-up first, then the deferred ceiling as the last phase of
      one transaction.  A failure inside it leaves the store where the catch-up put it. */
  method ConvertInTransaction<D>(table: seq<Step<D>>, caughtUp: Store<D>, at: Instant)
    returns (committed: Store<D>, error: Option<Outcome>)
    requires Contiguous(table) && 1 <= caughtUp.version <= MaxKnown(table)
    ensures error.Some? ==> committed == caughtUp
    ensures error.None? ==> committed == Climb(table, caughtUp, MaxKnown(table), v => at)
  {
    var tx := new Transaction(caughtUp);
    error := tx.ApplyCeiling(table, caughtUp.version, at);
    committed := if error.Some? then caughtUp else tx.staged;
  }
}
