/** One lifecycle hook invocation (cmd/pasture/hook_lifecycle.go and hook_lifecycle_lane.go):
    the command, its worker and the write-lane daemon, interleaved at will.

    The two journal rows an invocation can leave are history: one written by the worker
    through the commit fence, one written by the daemon on the worker's request. */
module HookInvocation {
  import opened Wrappers
  import opened Settlement

  /** What the host is told about the journal. */
  datatype Stage = NotRecorded | RecordUnknown | Recorded

  /** The sentinels a work error can wrap. */
  datatype Sentinel = CommittedWithoutContinuation | DeliveryRefused | BeforeDurableWrite | WorkPanicked

  /** faultStageByError: the whole mapping, first match wins. */
  const FAULT_STAGE_BY_ERROR: seq<(Sentinel, Stage)> :=
    [(CommittedWithoutContinuation, Recorded), (DeliveryRefused, Recorded),
     (BeforeDurableWrite, NotRecorded), (WorkPanicked, RecordUnknown)]

  function StageFromTable(table: seq<(Sentinel, Stage)>, wrapped: set<Sentinel>): Stage {
    if table == [] then RecordUnknown
    else if table[0].0 in wrapped then table[0].1
    else StageFromTable(table[1..], wrapped)
  }

  function FaultStageForWorkError(wrapped: set<Sentinel>): Stage {
    StageFromTable(FAULT_STAGE_BY_ERROR, wrapped)
  }

  /** lifecycleWork: an evaluated outcome, or an error with the sentinels it wraps and the
      stage it arrived with, if the daemon stated one. */
  datatype Work = Evaluated | Failed(wrapped: set<Sentinel>, stage: Option<Stage>)

  function WorkStage(work: Work): Stage
    requires work.Failed?
  {
    if work.stage.Some? then work.stage.value else FaultStageForWorkError(work.wrapped)
  }

  /** What leaves the command: the fence's published outcome, the work's own, or a fault. */
  datatype Answer = Published | FromWork | Fault(stage: Stage)

  datatype MainPhase = Preparing | Waiting | Expiring | Done(answer: Answer)

  datatype WorkerPhase =
    | NotStarted
    | Choosing
    | Consulting
    | Sent
    | Direct
    | Writing
    | Appending(publish: bool)
    | Committed           // a publishing append has settled
    | Noted               // a record-only append has settled
    | Posted(work: Work)
    | Ended(work: Work)

  /** A refusal's stage is None when its name is not one this build declares. */
  datatype Reply = CommittedReply | Refused(stage: Option<Stage>)

  datatype Daemon = NoRequest | Serving | Answered(reply: Reply)

  datatype Invocation = Invocation(
    main: MainPhase,
    worker: WorkerPhase,
    daemon: Daemon,
    fence: Fence,
    cancelled: bool,
    directRow: bool,
    laneRow: bool,
    observed: nat,          // calls of the completion observer
    missed: bool)           // the command panicked while a publishing append was in flight

  const START := Invocation(Preparing, NotStarted, NoRequest, FRESH, false, false, false, 0, false)

  datatype Action =
    // the command
    | RefuseEarly
    | StartWorker
    | Cancel
    | TakeResult
    | Expire
    | AfterSettlement
    | PanicMain
    // the worker
    | SkipLane
    | Consult
    | LaneUnavailable
    | Send(reached: bool)
    | ReadReply(validExit: bool)
    | LaneBroken
    | RefuseBeforeWrite
    | BeginWrite
    | FailWriting(evidenced: bool)
    | EnterFence(publish: bool)
    | JournalCommit
    | AppendReturns(ok: bool)
    | RefuseDelivery
    | TailFails
    | Succeed
    | PanicWorker
    | Observe
    // the daemon
    | DaemonCommit
    | DaemonAnswer(reply: Reply)

  function Return(s: Invocation, answer: Answer): Invocation {
    s.(main := Done(answer))
  }

  /** The outcome of the command once it has read the fence. */
  function Settle(s: Invocation, otherwise: Answer): Answer {
    if s.fence.published then Published else otherwise
  }

  function Post(s: Invocation, work: Work): Invocation {
    s.(worker := Posted(work))
  }

  function Failure(wrapped: set<Sentinel>): Work {
    Failed(wrapped, None)
  }

  function MainAct(s: Invocation, action: Action): Option<Invocation> {
    match action
    case RefuseEarly =>
      // Also a panic before the worker starts: both claim not-recorded and signal completion.
      if s.main.Preparing? then Some(Return(s, Fault(NotRecorded)).(observed := s.observed + 1)) else None
    case StartWorker =>
      if s.main.Preparing? then Some(s.(main := Waiting, worker := Choosing)) else None
    case Cancel => Some(s.(cancelled := true))
    case TakeResult =>
      if s.main.Waiting? && (s.worker.Posted? || s.worker.Ended?)
      then Some(Return(s, Settle(s, if s.worker.work.Evaluated? then FromWork else Fault(WorkStage(s.worker.work)))))
      else None
    case Expire =>
      if s.main.Waiting? && s.cancelled then Some(s.(main := Expiring, fence := Expired(s.fence))) else None
    case AfterSettlement =>
      if s.main.Expiring? && Settled(s.fence) then Some(Return(s, Settle(s, Fault(RecordUnknown)))) else None
    case PanicMain =>
      // The deferred cancel runs before the recovery reads the fence.
      if s.main.Waiting? || s.main.Expiring?
      then Some(Return(s, Settle(s, Fault(RecordUnknown))).(cancelled := true, missed := s.worker == Appending(true)))
      else None
    case _ => None
  }

  /** lifecycleLaneAnswered. */
  function LaneAnswered(reply: Reply, validExit: bool): Work {
    match reply
    case CommittedReply => if validExit then Evaluated else Failure({})
    case Refused(stage) => Failed({}, Some(if stage.Some? then stage.value else RecordUnknown))
  }

  function WorkerAct(s: Invocation, action: Action): Option<Invocation> {
    match action
    case SkipLane => if s.worker.Choosing? then Some(s.(worker := Direct)) else None
    case Consult => if s.worker.Choosing? then Some(s.(worker := Consulting)) else None
    case LaneUnavailable => if s.worker.Consulting? then Some(s.(worker := Direct)) else None
    case Send(reached) =>
      if s.worker.Consulting? then Some(s.(worker := Sent, daemon := if reached then Serving else s.daemon)) else None
    case ReadReply(validExit) =>
      if s.worker.Sent? && s.daemon.Answered? then Some(Post(s, LaneAnswered(s.daemon.reply, validExit))) else None
    case LaneBroken => if s.worker.Sent? then Some(Post(s, Failure({}))) else None
    case RefuseBeforeWrite => if s.worker.Direct? then Some(Post(s, Failure({BeforeDurableWrite}))) else None
    case BeginWrite => if s.worker.Direct? then Some(s.(worker := Writing)) else None
    case FailWriting(evidenced) =>
      if s.worker.Writing? then Some(Post(s, Failure(if evidenced then {BeforeDurableWrite} else {}))) else None
    case EnterFence(publish) =>
      if !s.worker.Writing? then None
      else
        var entered := s.(fence := Entered(s.fence, s.cancelled));
        Some(if Admits(s.fence, s.cancelled) then entered.(worker := Appending(publish)) else Post(entered, Failure({})))
    case JournalCommit =>
      if s.worker.Appending? && !s.directRow then Some(s.(directRow := true)) else None
    case AppendReturns(ok) =>
      if !s.worker.Appending? || (ok && !s.directRow) then None
      else
        var closed := s.(fence := Closed(s.fence, ok && s.worker.publish));
        Some(if !ok then Post(closed, Failure({}))
             else if s.worker.publish then closed.(worker := Committed)
             else closed.(worker := Noted))
    case RefuseDelivery => if s.worker.Noted? then Some(Post(s, Failure({DeliveryRefused}))) else None
    case TailFails =>
      if s.worker.Committed? then Some(Post(s, Failure({CommittedWithoutContinuation})))
      else if s.worker.Noted? then Some(Post(s, Failure({})))
      else None
    case Succeed => if s.worker.Committed? then Some(Post(s, Evaluated)) else None
    case PanicWorker =>
      if s.worker.NotStarted? || s.worker.Posted? || s.worker.Ended? then None
      else
        var closed := if s.worker.Appending? then s.(fence := Closed(s.fence, false)) else s;
        Some(Post(closed, Failure({WorkPanicked})))
    case Observe =>
      if s.worker.Posted? then Some(s.(worker := Ended(s.worker.work), observed := s.observed + 1)) else None
    case _ => None
  }

  /** The daemon's side of the contract: it commits only while serving, and its answer is true. */
  function DaemonAct(s: Invocation, action: Action): Option<Invocation> {
    match action
    case DaemonCommit => if s.daemon.Serving? && !s.laneRow then Some(s.(laneRow := true)) else None
    case DaemonAnswer(reply) =>
      if s.daemon.Serving? && Truthful(reply, s.laneRow) then Some(s.(daemon := Answered(reply))) else None
    case _ => None
  }

  predicate Truthful(reply: Reply, row: bool) {
    match reply
    case CommittedReply => row
    case Refused(Some(Recorded)) => row
    case Refused(Some(NotRecorded)) => !row
    case Refused(_) => true
  }

  function Act(s: Invocation, action: Action): Option<Invocation> {
    match action
    case RefuseEarly | StartWorker | Cancel | TakeResult | Expire | AfterSettlement | PanicMain => MainAct(s, action)
    case DaemonCommit | DaemonAnswer(_) => DaemonAct(s, action)
    case _ => WorkerAct(s, action)
  }

  function Run(s: Invocation, actions: seq<Action>): Option<Invocation>
    decreases |actions|
  {
    if actions == [] then Some(s)
    else
      match Run(s, actions[..|actions| - 1])
      case None => None
      case Some(mid) => Act(mid, actions[|actions| - 1])
  }

  predicate AnyRow(s: Invocation) {
    s.directRow || s.laneRow
  }

  /** Nothing in this state can write a row any more. */
  predicate Quiescent(s: Invocation) {
    !s.daemon.Serving? && (s.worker.Posted? || s.worker.Ended? || (s.worker.NotStarted? && s.main.Done?))
  }

  /** What each worker phase implies about the fence, the daemon and the rows. */
  ghost predicate WorkerInv(s: Invocation) {
    match s.worker
    case NotStarted => s.daemon.NoRequest? && !AnyRow(s) && s.fence == FRESH && (s.main.Preparing? || s.main == Done(Fault(NotRecorded)))
    case Choosing | Consulting | Direct | Writing =>
      s.daemon.NoRequest? && !AnyRow(s) && !s.fence.published && (s.fence.state == Idle || s.fence.state == Abandoned)
    case Sent => !s.directRow && !s.fence.published && (s.fence.state == Idle || s.fence.state == Abandoned)
    case Appending(_) => s.daemon.NoRequest? && !s.laneRow && s.fence == Fence(Active, false)
    case Committed => s.daemon.NoRequest? && !s.laneRow && s.directRow && s.fence == Fence(Finished, true)
    case Noted => s.daemon.NoRequest? && !s.laneRow && s.directRow && s.fence == Fence(Finished, false)
    case Posted(work) => PostedInv(s, work)
    case Ended(work) => PostedInv(s, work)
  }

  ghost predicate PostedInv(s: Invocation, work: Work) {
    && s.fence.state != Active
    && (s.fence.published ==> s.directRow)
    && (!s.daemon.NoRequest? ==> s.fence.state == Idle || s.fence.state == Abandoned)
    && (s.directRow ==> s.fence.state == Finished && s.daemon.NoRequest?)
    && (work.Evaluated? ==> AnyRow(s) && !s.daemon.Serving?)
    && (work.Failed? && WorkStage(work) == Recorded ==> AnyRow(s) && !s.daemon.Serving?)
    && (work.Failed? && WorkStage(work) == NotRecorded ==> !AnyRow(s) && !s.daemon.Serving?)
  }

  ghost predicate MainInv(s: Invocation) {
    match s.main
    case Preparing => s.worker.NotStarted?
    case Waiting => !s.worker.NotStarted?
    case Expiring => !s.worker.NotStarted? && s.fence.state != Idle
    case Done(Published) => s.fence.published && AnyRow(s)
    case Done(FromWork) => AnyRow(s) && Quiescent(s) && !s.fence.published
    case Done(Fault(NotRecorded)) => !AnyRow(s) && Quiescent(s) && !s.fence.published
    case Done(Fault(Recorded)) => AnyRow(s) && Quiescent(s) && !s.fence.published
    case Done(Fault(RecordUnknown)) =>
      if s.missed then s.worker == Appending(true) || Quiesced(s) || s.worker.Committed?
      else !s.fence.published && NothingToPublish(s)
  }

  /** The worker is through, so the fence is as it will stay. */
  ghost predicate Quiesced(s: Invocation) {
    s.worker.Posted? || s.worker.Ended?
  }

  /** The worker runs, but no append of it can publish any more: the fence has settled, or is
      idle under a cancelled context, or holds an append that only records. */
  ghost predicate NothingToPublish(s: Invocation) {
    && !s.worker.NotStarted? && s.worker != Appending(true)
    && (Settled(s.fence) || Quiesced(s) || s.worker == Appending(false) || (s.fence.state == Idle && s.cancelled))
  }

  ghost predicate Inv(s: Invocation) {
    && WorkerInv(s) && MainInv(s)
    && (s.missed ==> s.main == Done(Fault(RecordUnknown)))
    && !(s.directRow && s.laneRow)
    && (s.laneRow ==> !s.daemon.NoRequest?)
    && (s.daemon.Answered? ==> Truthful(s.daemon.reply, s.laneRow))
    && (s.fence.published ==> s.fence.state == Finished && s.directRow)
    && s.observed == (if s.worker.Ended? || (s.worker.NotStarted? && s.main.Done?) then 1 else 0)
  }

  /** The first row whose error is wrapped decides, and no row at all means "unknown". */
  lemma {:induction false} FirstMatchWins(table: seq<(Sentinel, Stage)>, wrapped: set<Sentinel>, k: nat)
    requires k <= |table| && forall i | 0 <= i < k :: table[i].0 !in wrapped
    requires k < |table| ==> table[k].0 in wrapped
    ensures StageFromTable(table, wrapped) == if k < |table| then table[k].1 else RecordUnknown
  {
    if k > 0 {
      assert table[0].0 !in wrapped;
      FirstMatchWins(table[1..], wrapped, k - 1);
    }
  }

  /** The stage of any work error, whatever combination of sentinels it wraps. */
  lemma ErrorStages(wrapped: set<Sentinel>)
    ensures FaultStageForWorkError(wrapped) == Recorded
       <==> CommittedWithoutContinuation in wrapped || DeliveryRefused in wrapped
    ensures FaultStageForWorkError(wrapped) == NotRecorded
       <==> BeforeDurableWrite in wrapped && CommittedWithoutContinuation !in wrapped && DeliveryRefused !in wrapped
  {
    var k := if CommittedWithoutContinuation in wrapped then 0 else if DeliveryRefused in wrapped then 1
             else if BeforeDurableWrite in wrapped then 2 else if WorkPanicked in wrapped then 3 else 4;
    FirstMatchWins(FAULT_STAGE_BY_ERROR, wrapped, k);
  }

  lemma MainKeepsInv(s: Invocation, action: Action)
    requires Inv(s) && MainAct(s, action).Some?
    ensures Inv(MainAct(s, action).value)
  {
    hide FaultStageForWorkError;
  }

  lemma DaemonKeepsInv(s: Invocation, action: Action)
    requires Inv(s) && DaemonAct(s, action).Some?
    ensures Inv(DaemonAct(s, action).value)
  {
  }

  /** The worker's steps on the way to a result. */
  predicate UnderWay(action: Action) {
    action.SkipLane? || action.Consult? || action.LaneUnavailable? || action.Send? || action.BeginWrite?
    || action.JournalCommit? || action.Observe? || action.Succeed? || action.ReadReply?
  }

  lemma UnderWayKeepsInv(s: Invocation, action: Action)
    requires Inv(s) && UnderWay(action) && WorkerAct(s, action).Some?
    ensures Inv(WorkerAct(s, action).value)
  {
  }

  lemma FailureKeepsInv(s: Invocation, action: Action)
    requires Inv(s) && !UnderWay(action) && WorkerAct(s, action).Some?
    ensures Inv(WorkerAct(s, action).value)
  {
    hide FaultStageForWorkError;
    ErrorStages({});
    ErrorStages({BeforeDurableWrite});
    ErrorStages({DeliveryRefused});
    ErrorStages({CommittedWithoutContinuation});
    ErrorStages({WorkPanicked});
  }

  lemma WorkerKeepsInv(s: Invocation, action: Action)
    requires Inv(s) && WorkerAct(s, action).Some?
    ensures Inv(WorkerAct(s, action).value)
  {
    if UnderWay(action) {
      UnderWayKeepsInv(s, action);
    } else {
      FailureKeepsInv(s, action);
    }
  }

  lemma ActKeepsInv(s: Invocation, action: Action)
    requires Inv(s) && Act(s, action).Some?
    ensures Inv(Act(s, action).value)
  {
    hide Inv, MainAct, WorkerAct, DaemonAct;
    match action
    case RefuseEarly | StartWorker | Cancel | TakeResult | Expire | AfterSettlement | PanicMain => MainKeepsInv(s, action);
    case DaemonCommit | DaemonAnswer(_) => DaemonKeepsInv(s, action);
    case _ => WorkerKeepsInv(s, action);
  }

  lemma {:induction false} RunKeepsInv(actions: seq<Action>)
    requires Run(START, actions).Some?
    ensures Inv(Run(START, actions).value)
    decreases |actions|
  {
    if actions != [] {
      RunKeepsInv(actions[..|actions| - 1]);
      ActKeepsInv(Run(START, actions[..|actions| - 1]).value, actions[|actions| - 1]);
    }
  }

  lemma AnswerKept(s: Invocation, action: Action)
    requires s.main.Done? && Act(s, action).Some?
    ensures Act(s, action).value.main == s.main && Act(s, action).value.missed == s.missed
  {
    hide WorkerAct;
    OthersKeepMain(s, action);
  }

  lemma OthersKeepMain(s: Invocation, action: Action)
    ensures WorkerAct(s, action).Some? ==>
              WorkerAct(s, action).value.main == s.main && WorkerAct(s, action).value.missed == s.missed
  {
  }

  /** Once the command has answered, the rest of the run does not change the answer. */
  lemma {:induction false} AnswerStands(early: seq<Action>, late: seq<Action>)
    requires Run(START, early + late).Some?
    ensures Run(START, early).Some?
    ensures Run(START, early).value.main.Done? ==>
              && Run(START, early + late).value.main == Run(START, early).value.main
              && Run(START, early + late).value.missed == Run(START, early).value.missed
    decreases |late|
  {
    var all := early + late;
    if late == [] {
      assert all == early;
    } else {
      assert all[..|all| - 1] == early + late[..|late| - 1];
      AnswerStands(early, late[..|late| - 1]);
      var mid := Run(START, all[..|all| - 1]).value;
      if mid.main.Done? {
        AnswerKept(mid, all[|all| - 1]);
      }
    }
  }

  /** The fault stage is sound in every interleaving.  "Not recorded": no row of this invocation
      exists when the host is told, nor after any continuation of the run.  "Recorded", and an
      outcome that is no fault at all: a row exists already. */
  lemma StageIsSound(early: seq<Action>, late: seq<Action>)
    requires Run(START, early + late).Some?
    requires Run(START, early).Some? && Run(START, early).value.main.Done?
    ensures var told := Run(START, early).value.main.answer;
            && (told == Fault(NotRecorded) ==> !AnyRow(Run(START, early + late).value))
            && (told == Fault(Recorded) ==> AnyRow(Run(START, early).value))
            && (!told.Fault? ==> AnyRow(Run(START, early).value))
  {
    RunKeepsInv(early);
    RunKeepsInv(early + late);
    AnswerStands(early, late);
  }

  /** One writer per invocation: a request that was sent keeps the direct path out of the
      journal fence for good, and the two rows never exist together. */
  lemma OneWriter(actions: seq<Action>)
    requires Run(START, actions).Some?
    ensures var s := Run(START, actions).value;
            && !(s.directRow && s.laneRow)
            && (!s.daemon.NoRequest? ==> s.fence.state == Idle || s.fence.state == Abandoned)
            && (!s.daemon.NoRequest? ==> !s.directRow)
  {
    RunKeepsInv(actions);
  }

  /** The published outcome is what the command returns, exactly, unless the command itself
      panicked while a publishing append was in flight. */
  lemma PublishedIsReturned(actions: seq<Action>)
    requires Run(START, actions).Some? && Run(START, actions).value.main.Done?
    ensures var s := Run(START, actions).value;
            s.main.answer == Published <==> s.fence.published && !s.missed
  {
    RunKeepsInv(actions);
  }

  /** After this run, whatever follows, a published outcome is what the command returned. */
  ghost predicate Faithful(actions: seq<Action>) {
    forall late: seq<Action> | Run(START, actions + late).Some? ::
      Run(START, actions + late).value.fence.published ==> Run(START, actions + late).value.main == Done(Published)
  }

  /** A panic of the command can lose a publication exactly when a publishing append has been
      admitted and has not settled; in every other state the panic is harmless for good. */
  lemma PanicIsFaithfulIff(early: seq<Action>)
    requires Run(START, early + [PanicMain]).Some?
    ensures Run(START, early).Some?
    ensures Faithful(early + [PanicMain]) <==> Run(START, early).value.worker != Appending(true)
  {
    var all := early + [PanicMain];
    assert all[..|early|] == early;
    var s := Run(START, early).value;
    RunKeepsInv(early);
    if s.worker == Appending(true) {
      PanicCanMissPublication(early);
    } else {
      forall late: seq<Action> | Run(START, all + late).Some?
        ensures Run(START, all + late).value.fence.published ==> Run(START, all + late).value.main == Done(Published)
      {
        AnswerStands(all, late);
        PublishedIsReturned(all + late);
      }
    }
  }

  /** In every such state the loss happens: the command answers "record unknown", the append
      commits and publishes its outcome afterwards. */
  lemma PanicCanMissPublication(early: seq<Action>)
    requires Run(START, early + [PanicMain]).Some?
    requires Run(START, early).Some? && Run(START, early).value.worker == Appending(true)
    ensures exists late :: Run(START, early + [PanicMain] + late).Some?
              && Run(START, early + [PanicMain] + late).value.main == Done(Fault(RecordUnknown))
              && Run(START, early + [PanicMain] + late).value.fence.published
  {
    var s := Run(START, early).value;
    RunKeepsInv(early);
    var all := early + [PanicMain];
    assert all[..|early|] == early;
    assert Act(s, PanicMain) == Some(s.(main := Done(Fault(RecordUnknown)), cancelled := true, missed := true));
    var late, end := AppendLands(all);
  }

  /** An append in flight can still commit and return. */
  lemma AppendLands(early: seq<Action>) returns (late: seq<Action>, end: Invocation)
    requires Run(START, early).Some? && Run(START, early).value.worker == Appending(true)
    ensures Run(START, early + late) == Some(end)
    ensures end.main == Run(START, early).value.main && end.fence.published
  {
    var s := Run(START, early).value;
    var rowed := early;
    if !s.directRow {
      rowed := Step(early, s, JournalCommit, s.(directRow := true));
    }
    end := s.(directRow := true, fence := Fence(Finished, true), worker := Committed);
    var run := Step(rowed, s.(directRow := true), AppendReturns(true), end);
    late := run[|early|..];
    assert run == early + late;
  }

  /** Such a state is reached: the direct path's append admitted, the command still waiting. */
  const APPENDING := START.(main := Waiting, worker := Appending(true), fence := Fence(Active, false))

  lemma DirectPath()
    ensures var s := START.(main := Waiting, worker := Choosing);
            && Act(START, StartWorker) == Some(s)
            && Act(s, SkipLane) == Some(s.(worker := Direct))
            && Act(s.(worker := Direct), BeginWrite) == Some(s.(worker := Writing))
            && Act(s.(worker := Writing), EnterFence(true)) == Some(APPENDING)
  {
  }

  lemma AppendInFlight() returns (actions: seq<Action>)
    ensures Run(START, actions) == Some(APPENDING)
  {
    hide Act;
    DirectPath();
    var s1 := START.(main := Waiting, worker := Choosing);
    var a1 := Step([], START, StartWorker, s1);
    var a2 := Step(a1, s1, SkipLane, s1.(worker := Direct));
    var a3 := Step(a2, s1.(worker := Direct), BeginWrite, s1.(worker := Writing));
    var a4 := Step(a3, s1.(worker := Writing), EnterFence(true), APPENDING);
    return a4;
  }

  /** Extends a run by one enabled action. */
  lemma Step(actions: seq<Action>, s: Invocation, action: Action, s': Invocation) returns (longer: seq<Action>)
    requires Run(START, actions) == Some(s) && Act(s, action) == Some(s')
    ensures longer == actions + [action] && Run(START, longer) == Some(s')
  {
    longer := actions + [action];
    assert longer[..|actions|] == actions;
  }

  // ----- the command always gets its answer out -----

  /** After expiry the command waits for nothing but an append that was admitted before, and
      whatever step ends that append settles the fence. */
  lemma ExpiryWaitsForTheAppend(actions: seq<Action>, action: Action)
    requires Run(START, actions).Some? && Run(START, actions).value.main.Expiring?
    ensures var s := Run(START, actions).value;
            && (Settled(s.fence) <==> !s.worker.Appending?)
            && (s.worker.Appending? && Act(s, action).Some? && !Act(s, action).value.worker.Appending?
                ==> Settled(Act(s, action).value.fence))
  {
    hide Act;
    RunKeepsInv(actions);
    AppendEndSettles(Run(START, actions).value, action);
  }

  lemma AppendEndSettles(s: Invocation, action: Action)
    ensures s.worker.Appending? && Act(s, action).Some? && !Act(s, action).value.worker.Appending? && !s.main.Preparing?
            ==> Settled(Act(s, action).value.fence)
  {
  }

  /** From every reachable state in which the command has not answered, a few steps without any
      panic lead to its answer: the deadline fires, an append in flight returns, the fence is read. */
  lemma CanAlwaysAnswer(actions: seq<Action>) returns (late: seq<Action>)
    requires Run(START, actions).Some? && !Run(START, actions).value.main.Done?
    ensures |late| <= 4 && PanicMain !in late && PanicWorker !in late
    ensures Run(START, actions + late).Some? && Run(START, actions + late).value.main.Done?
  {
    hide Act;
    var s := Run(START, actions).value;
    if s.main.Preparing? {
      late := [RefuseEarly];
      Refuses(s);
      var run := Step(actions, s, RefuseEarly, Act(s, RefuseEarly).value);
    } else if s.main.Waiting? {
      var s1 := s.(cancelled := true);
      Expires(s);
      var a1 := Step(actions, s, Cancel, s1);
      var a2 := Step(a1, s1, Expire, s1.(main := Expiring, fence := Expired(s.fence)));
      var rest := AnswersAfterExpiry(a2);
      late := [Cancel, Expire] + rest;
      assert a2 + rest == actions + late;
    } else {
      late := AnswersAfterExpiry(actions);
    }
  }

  lemma Refuses(s: Invocation)
    requires s.main.Preparing?
    ensures Act(s, RefuseEarly).Some? && Act(s, RefuseEarly).value.main.Done?
  {
  }

  lemma Expires(s: Invocation)
    requires s.main.Waiting?
    ensures var s1 := s.(cancelled := true);
            && Act(s, Cancel) == Some(s1)
            && Act(s1, Expire) == Some(s1.(main := Expiring, fence := Expired(s.fence)))
  {
  }

  lemma AppendFails(s: Invocation)
    requires s.worker.Appending?
    ensures Act(s, AppendReturns(false)) == Some(Post(s.(fence := Closed(s.fence, false)), Failure({})))
  {
  }

  lemma AnswersAfterExpiry(actions: seq<Action>) returns (late: seq<Action>)
    requires Run(START, actions).Some? && Run(START, actions).value.main.Expiring?
    ensures |late| <= 2 && PanicMain !in late && PanicWorker !in late
    ensures Run(START, actions + late).Some? && Run(START, actions + late).value.main.Done?
  {
    hide WorkerAct, DaemonAct;
    var s := Run(START, actions).value;
    ExpiryWaitsForTheAppend(actions, AfterSettlement);
    if Settled(s.fence) {
      late := [AfterSettlement];
      var run := Step(actions, s, AfterSettlement, Act(s, AfterSettlement).value);
    } else {
      var s1 := Post(s.(fence := Closed(s.fence, false)), Failure({}));
      AppendFails(s);
      var a1 := Step(actions, s, AppendReturns(false), s1);
      var run := Step(a1, s1, AfterSettlement, Act(s1, AfterSettlement).value);
      late := [AppendReturns(false), AfterSettlement];
      assert run == actions + late;
    }
  }

  /** The completion observer never fires twice, and it has fired once the command is done
      and the worker, if it was started, has ended. */
  lemma ObserverFiresOnce(actions: seq<Action>)
    requires Run(START, actions).Some?
    ensures var s := Run(START, actions).value;
            && s.observed <= 1
            && (s.main.Done? && (s.worker.NotStarted? || s.worker.Ended?) ==> s.observed == 1)
            && (s.observed == 1 ==> s.worker.Ended? || (s.worker.NotStarted? && s.main.Done?))
  {
    RunKeepsInv(actions);
  }
}
