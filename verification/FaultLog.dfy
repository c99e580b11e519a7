/** The bounded fault record (cmd/pasture/hook_lifecycle.go): short-lived hook processes
    stat, rename, open and append without a lock.

    A file name is a link to an inode; an open descriptor keeps its inode whatever the names
    do.  A slot runs one process after another, so |slots| bounds how many run at once. */
module FaultLog {
  import opened Wrappers

  datatype Slot =
    | Idle
    | Rotating(inode: nat, epoch: nat)  // stat measured this over-large file after `epoch` renames
    | Cleared                           // about to open the live path
    | Opened(inode: nat, epoch: nat)    // holds a descriptor, opened after `epoch` renames

  /** One appended line: the inode it went to and the epoch of the descriptor it went through. */
  datatype Record = Record(inode: nat, epoch: nat, line: string)

  datatype Log = Log(
    inodes: seq<seq<string>>,   // everything ever appended, per inode
    live: Option<nat>,
    backup: Option<nat>,
    slots: seq<Slot>,
    renames: nat,
    slips: nat,                 // stats and renames that failed and let a process through
    reopened: bool,             // the live path was opened since the last rename
    records: seq<Record>)

  datatype Action =
    | Stat
    | StatFails
    | Rename
    | RenameFails
    | Open
    | Append(line: string)
    | AppendFails(part: string)
    | Stop                      // an open that failed, a close, or a kill

  datatype Move = Move(slot: nat, action: Action)

  /** The cap on the live file and the longest line, newline included. */
  datatype Limits = Limits(max: nat, longest: nat)

  function Size(lines: seq<string>): nat {
    if lines == [] then 0 else Size(lines[..|lines| - 1]) + |lines[|lines| - 1]|
  }

  predicate Named(log: Log, inode: nat) {
    log.live == Some(inode) || log.backup == Some(inode)
  }

  /** The state after slot p performs one action, or None when the action is not enabled. */
  function Act(limits: Limits, log: Log, p: nat, action: Action): Option<Log> {
    if p >= |log.slots| then None
    else
      match (action, log.slots[p])
      case (Stat, Idle) =>
        if log.live.Some? && log.live.value < |log.inodes| && Size(log.inodes[log.live.value]) >= limits.max
        then Some(log.(slots := log.slots[p := Rotating(log.live.value, log.renames)]))
        else Some(log.(slots := log.slots[p := Cleared]))
      case (StatFails, Idle) =>
        Some(log.(slots := log.slots[p := Cleared], slips := log.slips + 1))
      case (Rename, Rotating(_, _)) =>
        if log.live.Some?
        then Some(log.(slots := log.slots[p := Cleared], live := None, backup := log.live,
                       renames := log.renames + 1, reopened := false))
        else Some(log.(slots := log.slots[p := Cleared]))
      case (RenameFails, Rotating(_, _)) =>
        Some(log.(slots := log.slots[p := Cleared], slips := log.slips + 1))
      case (Open, Cleared) =>
        if log.live.Some?
        then Some(log.(slots := log.slots[p := Opened(log.live.value, log.renames)], reopened := true))
        else Some(log.(slots := log.slots[p := Opened(|log.inodes|, log.renames)],
                       inodes := log.inodes + [[]], live := Some(|log.inodes|), reopened := true))
      case (Append(line), Opened(i, epoch)) =>
        if i < |log.inodes| && |line| <= limits.longest
        then Some(log.(slots := log.slots[p := Idle], inodes := log.inodes[i := log.inodes[i] + [line]],
                       records := log.records + [Record(i, epoch, line)]))
        else None
      case (AppendFails(part), Opened(i, _)) =>
        if i < |log.inodes| && |part| <= limits.longest
        then Some(log.(slots := log.slots[p := Idle], inodes := log.inodes[i := log.inodes[i] + [part]]))
        else None
      case (Stop, _) => Some(log.(slots := log.slots[p := Idle]))
      case _ => None
  }

  function Run(limits: Limits, log: Log, moves: seq<Move>): Option<Log>
    decreases |moves|
  {
    if moves == [] then Some(log)
    else
      match Run(limits, log, moves[..|moves| - 1])
      case None => None
      case Some(mid) => Act(limits, mid, moves[|moves| - 1].slot, moves[|moves| - 1].action)
  }

  /** No process is at work; the files on disk, if any, are within the bound. */
  ghost predicate Initial(limits: Limits, log: Log) {
    && (forall p | 0 <= p < |log.slots| :: log.slots[p].Idle?)
    && log.renames == log.slips == 0 && log.records == []
    && LinksOk(log)
    && limits.max > 0
    && forall i | 0 <= i < |log.inodes| :: Size(log.inodes[i]) < limits.max + |log.slots| * limits.longest
  }

  ghost predicate LinksOk(log: Log) {
    && (log.live.Some? ==> log.live.value < |log.inodes|)
    && (log.backup.Some? ==> log.backup.value < |log.inodes|)
    && (log.live.Some? ==> log.live != log.backup)
  }

  // ----- retention -----

  /** Where an inode that was live after `epoch` renames stands now. */
  ghost predicate Aged(log: Log, inode: nat, epoch: nat) {
    && inode < |log.inodes| && epoch <= log.renames
    && (log.renames == epoch ==> log.live == Some(inode))
    && (log.renames == epoch + 1 ==> log.backup == Some(inode))
    && (log.renames >= epoch + 2 ==> !Named(log, inode))
  }

  /** The slots that have looked at one inode: an open descriptor, or a stat about to rename. */
  predicate Holds(slot: Slot) {
    slot.Opened? || slot.Rotating?
  }

  ghost predicate RetentionInv(log: Log) {
    && LinksOk(log)
    && (forall p | 0 <= p < |log.slots| && Holds(log.slots[p]) :: Aged(log, log.slots[p].inode, log.slots[p].epoch))
    && (log.renames > 0 ==> log.backup.Some? && (log.live.Some? <==> log.reopened))
    && (forall k | 0 <= k < |log.records| :: Aged(log, log.records[k].inode, log.records[k].epoch))
    && (forall k | 0 <= k < |log.records| :: log.records[k].line in log.inodes[log.records[k].inode])
  }

  lemma ActKeepsRetention(limits: Limits, log: Log, p: nat, action: Action)
    requires RetentionInv(log) && Act(limits, log, p, action).Some?
    ensures RetentionInv(Act(limits, log, p, action).value)
  {
    hide Size;
    var log' := Act(limits, log, p, action).value;
    forall k | 0 <= k < |log'.records|
      ensures Aged(log', log'.records[k].inode, log'.records[k].epoch)
      ensures log'.records[k].line in log'.inodes[log'.records[k].inode]
    {
      if k < |log.records| {
        assert log'.records[k] == log.records[k];
        assert Aged(log, log.records[k].inode, log.records[k].epoch);
        assert log.records[k].line in log.inodes[log.records[k].inode];
        assert log.inodes[log.records[k].inode] <= log'.inodes[log.records[k].inode];
      }
    }
  }

  /** For every run and every line ever appended through a descriptor: the line is still in
      the live file or its backup exactly as long as fewer than two renames have happened
      since that descriptor was opened. */
  lemma LineRetention(limits: Limits, start: Log, moves: seq<Move>, k: nat)
    requires Initial(limits, start) && Run(limits, start, moves).Some?
    requires k < |Run(limits, start, moves).value.records|
    ensures var log := Run(limits, start, moves).value; var r := log.records[k];
            && r.inode < |log.inodes| && r.line in log.inodes[r.inode] && r.epoch <= log.renames
            && (Named(log, r.inode) <==> log.renames < r.epoch + 2)
  {
    RunKeepsRetention(limits, start, moves);
  }

  lemma {:induction false} RunKeepsRetention(limits: Limits, start: Log, moves: seq<Move>)
    requires Initial(limits, start) && Run(limits, start, moves).Some?
    ensures RetentionInv(Run(limits, start, moves).value)
    decreases |moves|
  {
    if moves != [] {
      var last := moves[|moves| - 1];
      RunKeepsRetention(limits, start, moves[..|moves| - 1]);
      ActKeepsRetention(limits, Run(limits, start, moves[..|moves| - 1]).value, last.slot, last.action);
    }
  }

  // ----- the size bound -----

  /** The slots that may still append to this inode without another stat. */
  ghost function Threat(log: Log, inode: nat): set<nat> {
    set p: nat | p < |log.slots|
              && ((log.slots[p].Opened? && log.slots[p].inode == inode)
                  || (log.slots[p].Cleared? && log.live == Some(inode)))
  }

  ghost predicate Bounded(limits: Limits, log: Log, inode: nat)
    requires inode < |log.inodes|
  {
    Size(log.inodes[inode]) + |Threat(log, inode)| * limits.longest
    < limits.max + (|log.slots| + log.slips) * limits.longest
  }

  ghost predicate BoundInv(limits: Limits, log: Log) {
    LinksOk(log) && limits.max > 0
    && (forall p | 0 <= p < |log.slots| && log.slots[p].Opened? :: log.slots[p].inode < |log.inodes|)
    && forall i | 0 <= i < |log.inodes| :: Bounded(limits, log, i)
  }

  ghost function Below(n: nat): (r: set<nat>)
    ensures |r| == n && forall p: nat :: p in r <==> p < n
  {
    if n == 0 then {} else Below(n - 1) + {n - 1}
  }

  /** There are at most as many threats as slots. */
  lemma ThreatCount(log: Log, inode: nat)
    ensures |Threat(log, inode)| <= |log.slots|
  {
    SubsetCount(Threat(log, inode), Below(|log.slots|));
  }

  lemma {:induction false} SubsetCount(a: set<nat>, b: set<nat>)
    requires a <= b
    ensures |a| <= |b|
  {
    if a != {} {
      var x :| x in a;
      SubsetCount(a - {x}, b - {x});
    }
  }

  lemma MulMonotone(a: int, b: int, c: nat)
    requires a <= b
    ensures a * c <= b * c
  {
  }

  /** Bounds survive when the inode keeps its size and its threats do not outgrow the new slips. */
  lemma BoundedBy(limits: Limits, log: Log, log': Log, inode: nat)
    requires inode < |log.inodes| && inode < |log'.inodes| && Bounded(limits, log, inode)
    requires |log'.slots| == |log.slots|
    requires Size(log'.inodes[inode]) == Size(log.inodes[inode])
    requires |Threat(log', inode)| - log'.slips <= |Threat(log, inode)| - log.slips
    ensures Bounded(limits, log', inode)
  {
    var n, t, t' := |log.slots|, |Threat(log, inode)|, |Threat(log', inode)|;
    MulMonotone(t' - log'.slips, t - log.slips, limits.longest);
    assert (t' - log'.slips) * limits.longest == t' * limits.longest - log'.slips * limits.longest;
    assert (t - log.slips) * limits.longest == t * limits.longest - log.slips * limits.longest;
    assert (n + log.slips) * limits.longest == n * limits.longest + log.slips * limits.longest;
    assert (n + log'.slips) * limits.longest == n * limits.longest + log'.slips * limits.longest;
  }

  /** A file below the cap is bounded whoever may append to it. */
  lemma BoundedWhenSmall(limits: Limits, log: Log, inode: nat)
    requires inode < |log.inodes| && Size(log.inodes[inode]) < limits.max
    ensures Bounded(limits, log, inode)
  {
    ThreatCount(log, inode);
    MulMonotone(|Threat(log, inode)|, |log.slots| + log.slips, limits.longest);
  }

  /** A slot that appends pays for its line with its own place among the threats. */
  lemma BoundedAfterAppend(limits: Limits, log: Log, log': Log, p: nat, line: string)
    requires p < |log.slots| && log.slots[p].Opened? && log.slots[p].inode < |log.inodes|
    requires |line| <= limits.longest && Bounded(limits, log, log.slots[p].inode)
    requires log'.slots == log.slots[p := Idle] && log'.live == log.live && log'.slips == log.slips
    requires log'.inodes == log.inodes[log.slots[p].inode := log.inodes[log.slots[p].inode] + [line]]
    ensures Bounded(limits, log', log.slots[p].inode)
  {
    var i := log.slots[p].inode;
    var longer := log'.inodes[i];
    assert longer[..|longer| - 1] == log.inodes[i];
    assert Threat(log', i) == Threat(log, i) - {p};
    var t := |Threat(log, i)|;
    assert |Threat(log', i)| == t - 1;
    assert (t - 1) * limits.longest == t * limits.longest - limits.longest;
  }

  /** The threats to an inode after an action that appends nothing. */
  lemma ThreatChange(limits: Limits, log: Log, p: nat, action: Action, inode: nat)
    requires LinksOk(log) && p < |log.slots| && inode < |log.inodes|
    requires Act(limits, log, p, action).Some?
    requires !action.Append? && !action.AppendFails?
    requires action == Stat && log.live == Some(inode) ==> Size(log.inodes[inode]) >= limits.max
    ensures var log' := Act(limits, log, p, action).value;
            |Threat(log', inode)| - log'.slips <= |Threat(log, inode)| - log.slips
  {
    var log' := Act(limits, log, p, action).value;
    assert Threat(log', inode) <= Threat(log, inode) + {p};
    SubsetCount(Threat(log', inode), Threat(log, inode) + {p});
    if log'.slips == log.slips {
      assert Threat(log', inode) <= Threat(log, inode);
      SubsetCount(Threat(log', inode), Threat(log, inode));
    }
  }

  lemma ActKeepsBound(limits: Limits, log: Log, p: nat, action: Action)
    requires BoundInv(limits, log) && Act(limits, log, p, action).Some?
    ensures BoundInv(limits, Act(limits, log, p, action).value)
  {
    var log' := Act(limits, log, p, action).value;
    forall i | 0 <= i < |log'.inodes| ensures Bounded(limits, log', i) {
      if i == |log.inodes| || (action == Stat && log.live == Some(i) && Size(log.inodes[i]) < limits.max) {
        BoundedWhenSmall(limits, log', i);
      } else if action.Append? || action.AppendFails? {
        if log.slots[p].inode == i {
          BoundedAfterAppend(limits, log, log', p, if action.Append? then action.line else action.part);
        } else {
          assert Threat(log', i) == Threat(log, i);
          BoundedBy(limits, log, log', i);
        }
      } else {
        ThreatChange(limits, log, p, action, i);
        BoundedBy(limits, log, log', i);
      }
    }
  }

  lemma StartIsBounded(limits: Limits, start: Log)
    requires Initial(limits, start)
    ensures BoundInv(limits, start)
  {
    forall i | 0 <= i < |start.inodes| ensures Bounded(limits, start, i) {
      assert Threat(start, i) == {};
    }
  }

  lemma SlotsStay(limits: Limits, log: Log, p: nat, action: Action)
    ensures Act(limits, log, p, action).Some? ==> |Act(limits, log, p, action).value.slots| == |log.slots|
  {
  }

  lemma {:induction false} RunKeepsBound(limits: Limits, start: Log, moves: seq<Move>)
    requires Initial(limits, start) && Run(limits, start, moves).Some?
    ensures BoundInv(limits, Run(limits, start, moves).value)
    ensures |Run(limits, start, moves).value.slots| == |start.slots|
    decreases |moves|
  {
    hide Act, Initial, BoundInv;
    if moves == [] {
      StartIsBounded(limits, start);
    } else {
      var last := moves[|moves| - 1];
      SlotsStay(limits, Run(limits, start, moves[..|moves| - 1]).value, last.slot, last.action);
      RunKeepsBound(limits, start, moves[..|moves| - 1]);
      ActKeepsBound(limits, Run(limits, start, moves[..|moves| - 1]).value, last.slot, last.action);
    }
  }

  /** With n processes at a time, every file stays below max + n lines, and each stat or rename
      that fails adds at most one line more. */
  lemma SizeBound(limits: Limits, start: Log, moves: seq<Move>, inode: nat)
    requires Initial(limits, start) && Run(limits, start, moves).Some?
    requires inode < |Run(limits, start, moves).value.inodes|
    ensures var log := Run(limits, start, moves).value;
            Size(log.inodes[inode]) < limits.max + (|start.slots| + log.slips) * limits.longest
  {
    hide Act, Initial;
    RunKeepsBound(limits, start, moves);
    var log := Run(limits, start, moves).value;
    assert Bounded(limits, log, inode);
    MulMonotone(0, |Threat(log, inode)|, limits.longest);
  }

  // ----- what a late rotation does -----

  /** What a process that chose to rotate finds when it renames, in every reachable state.  It
      moves the file its stat measured exactly when no rename came in between.  Otherwise its
      rename fails exactly when nobody has opened the path since the last rename, as the comment
      in the source expects; and when somebody has, it moves that newer file, and the backup that
      the last rename made is dropped. */
  lemma RotationOutcome(limits: Limits, start: Log, moves: seq<Move>, p: nat)
    requires Initial(limits, start) && Run(limits, start, moves).Some?
    requires p < |Run(limits, start, moves).value.slots| && Run(limits, start, moves).value.slots[p].Rotating?
    ensures var log := Run(limits, start, moves).value;
            var measured, since := log.slots[p].inode, log.renames - log.slots[p].epoch;
            var next := Act(limits, log, p, Rename);
            && since >= 0 && next.Some?
            && (next.value.backup == Some(measured) && next.value.renames > log.renames <==> since == 0)
            && (since > 0 ==> (next.value.renames == log.renames <==> !log.reopened))
            && (next.value.renames == log.renames
                ==> next.value.live == log.live == None && next.value.backup == log.backup)
            && (since > 0 && log.reopened ==>
                  && log.live.Some? && next.value.backup == log.live && log.live != Some(measured)
                  && log.backup.Some? && !Named(next.value, log.backup.value))
            && (since == 1 && log.reopened ==> log.backup == Some(measured))
  {
    RunKeepsRetention(limits, start, moves);
    var log := Run(limits, start, moves).value;
    assert Holds(log.slots[p]) && Aged(log, log.slots[p].inode, log.slots[p].epoch);
  }

  /** A file is moved by at most one rename, ever: of all the processes that measured it, the
      others find a newer file or none. */
  lemma {:induction false} MovedOnce(limits: Limits, start: Log, moves: seq<Move>, later: seq<Move>, inode: nat)
    requires Initial(limits, start) && Run(limits, start, moves + later).Some?
    ensures Run(limits, start, moves).Some?
    ensures Run(limits, start, moves).value.live == Some(inode) ==>
              && Aged(Run(limits, start, moves + later).value, inode, Run(limits, start, moves).value.renames)
              && (Run(limits, start, moves + later).value.live == Some(inode)
                  <==> Run(limits, start, moves + later).value.renames == Run(limits, start, moves).value.renames)
    decreases |later|
  {
    hide Act, Aged, Initial, RetentionInv, LinksOk;
    var all := moves + later;
    if later == [] {
      assert all == moves;
      LinksHold(limits, start, moves);
      var log := Run(limits, start, moves).value;
      if log.live == Some(inode) {
        LiveIsAged(log, inode);
      }
    } else {
      var last := later[|later| - 1];
      assert all[..|all| - 1] == moves + later[..|later| - 1] && all[|all| - 1] == last;
      MovedOnce(limits, start, moves, later[..|later| - 1], inode);
      LinksHold(limits, start, all[..|all| - 1]);
      LinksHold(limits, start, all);
      var log, epoch := Run(limits, start, all[..|all| - 1]).value, Run(limits, start, moves).value.renames;
      if Run(limits, start, moves).value.live == Some(inode) {
        AgesOn(limits, log, last.slot, last.action, inode, epoch);
        LiveWhileUnmoved(Run(limits, start, all).value, inode, epoch);
      }
    }
  }

  lemma LinksHold(limits: Limits, start: Log, moves: seq<Move>)
    requires Initial(limits, start) && Run(limits, start, moves).Some?
    ensures LinksOk(Run(limits, start, moves).value)
  {
    RunKeepsRetention(limits, start, moves);
  }

  lemma LiveIsAged(log: Log, inode: nat)
    requires LinksOk(log) && log.live == Some(inode)
    ensures Aged(log, inode, log.renames)
  {
  }

  lemma LiveWhileUnmoved(log: Log, inode: nat, epoch: nat)
    requires LinksOk(log) && Aged(log, inode, epoch)
    ensures log.live == Some(inode) <==> log.renames == epoch
  {
  }

  lemma AgesOn(limits: Limits, log: Log, p: nat, action: Action, inode: nat, epoch: nat)
    requires LinksOk(log) && Aged(log, inode, epoch) && Act(limits, log, p, action).Some?
    ensures Aged(Act(limits, log, p, action).value, inode, epoch)
  {
  }

  /** The unsafe case is real: two slots measure the same full file, the first rotates it and
      opens a new one, and the second rotates that one. */
  lemma LateRotationDropsFreshBackup()
    ensures exists limits: Limits, start: Log, moves: seq<Move> ::
              && Initial(limits, start) && Run(limits, start, moves).Some?
              && start.live == Some(0) && |Run(limits, start, moves).value.inodes| == 2
              && !Named(Run(limits, start, moves).value, 0)
              && Run(limits, start, moves).value.backup == Some(1)
              && Size(Run(limits, start, moves).value.inodes[1]) < limits.max
  {
    var limits := Limits(2, 2);
    assert Size(["ab"]) == 2 by { assert ["ab"][..0] == []; }
    var s0 := Log([["ab"]], Some(0), None, [Idle, Idle], 0, 0, false, []);
    assert Initial(limits, s0);
    var s1 := s0.(slots := s0.slots[0 := Rotating(0, 0)]);
    var m1 := Step(limits, s0, [], s0, Move(0, Stat), s1);
    var s2 := s1.(slots := s1.slots[1 := Rotating(0, 0)]);
    var m2 := Step(limits, s0, m1, s1, Move(1, Stat), s2);
    var s3 := s2.(slots := s2.slots[0 := Cleared], live := None, backup := Some(0), renames := 1);
    var m3 := Step(limits, s0, m2, s2, Move(0, Rename), s3);
    var s4 := s3.(slots := s3.slots[0 := Opened(1, 1)], inodes := s3.inodes + [[]], live := Some(1), reopened := true);
    var m4 := Step(limits, s0, m3, s3, Move(0, Open), s4);
    var s5 := s4.(slots := s4.slots[1 := Cleared], live := None, backup := Some(1), renames := 2, reopened := false);
    var m5 := Step(limits, s0, m4, s4, Move(1, Rename), s5);
  }

  /** Extends a run by one enabled move. */
  lemma Step(limits: Limits, start: Log, moves: seq<Move>, log: Log, move: Move, log': Log) returns (longer: seq<Move>)
    requires Run(limits, start, moves) == Some(log) && Act(limits, log, move.slot, move.action) == Some(log')
    ensures longer == moves + [move] && Run(limits, start, longer) == Some(log')
  {
    longer := moves + [move];
    assert longer[..|moves|] == moves;
  }
}
