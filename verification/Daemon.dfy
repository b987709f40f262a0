/** The daemon's control state: `State` of src/daemon.rs, the handlers that change it under its lock, and the
    jobs they start. An aborted job takes no further step. */
module Daemon {
  import opened Bytes

  datatype Phase = Idle | StartingUp | Receiving | Sending | Failed

  /** Where a spawned job stands: waiting for the radio, serving a receive window, sending, on its way to the
      lock for the last time, through, or aborted. */
  datatype Job = Starting | Open(window: nat) | Transferring | Ending(ok: bool) | Done | Aborted

  predicate Live(j: Job) {
    !j.Done? && !j.Aborted?
  }

  /** The fields of `State`, and every job spawned so far. `task` names a job, `pending` an Ask. */
  datatype Control = Control(phase: Phase, task: Option<nat>, pending: Option<nat>, jobs: seq<Job>)

  const MIN_SECONDS: int := 1
  const MAX_SECONDS: int := 3600

  datatype Note =
    | BadSeconds | AlreadyReceiving | WindowStarting | Stopped | NothingWaiting
    | TransferApproved | TransferRejected | NeedsHost | OtherActive | SendStarted

  datatype Reply = Reply(ok: bool, phase: Phase, note: Note)

  predicate Busy(c: Control) {
    c.task.Some? && c.task.value < |c.jobs| && Live(c.jobs[c.task.value])
  }

  function Spawn(c: Control, phase: Phase, job: Job): Control {
    Control(phase, Some(|c.jobs|), c.pending, c.jobs + [job])
  }

  function AfterReceive(c: Control, seconds: int): Control {
    if MIN_SECONDS <= seconds <= MAX_SECONDS && !Busy(c) then Spawn(c, StartingUp, Starting) else c
  }

  function AfterSend(c: Control, host: bool): Control {
    if host && !Busy(c) then Spawn(c, Sending, Transferring) else c
  }

  function SetJob(jobs: seq<Job>, i: nat, job: Job): seq<Job> {
    if i < |jobs| then jobs[i := job] else jobs
  }

  function AfterStop(c: Control): Control {
    Control(Idle, None, None, if c.task.Some? then SetJob(c.jobs, c.task.value, Aborted) else c.jobs)
  }

  /** A job's own critical sections: the radio is ready, an Ask is put up for decision, the job is through. */
  function AfterReady(c: Control, i: nat, window: nat): Control
    requires i < |c.jobs|
  {
    c.(phase := Receiving, jobs := c.jobs[i := Open(window)])
  }

  function AfterFinish(c: Control, i: nat): Control
    requires i < |c.jobs| && c.jobs[i].Ending?
  {
    c.(phase := if c.jobs[i].ok then Idle else Failed, task := None, jobs := c.jobs[i := Done])
  }

  class State {
    var phase: Phase
    var task: Option<nat>
    var pending: Option<nat>
    var jobs: seq<Job>

    constructor ()
      ensures Value() == Control(Idle, None, None, [])
    {
      phase, task, pending, jobs := Idle, None, None, [];
    }

    function Value(): Control
      reads this
    {
      Control(phase, task, pending, jobs)
    }

    method StartReceive(seconds: int) returns (r: Reply)
      modifies this
      ensures Value() == AfterReceive(old(Value()), seconds)
      ensures r.ok <==> MIN_SECONDS <= seconds <= MAX_SECONDS
      ensures r.note.WindowStarting? <==> |jobs| == |old(jobs)| + 1
      ensures |jobs| == |old(jobs)| + 1 ==>
                phase == StartingUp && task == Some(|old(jobs)|) && jobs[|old(jobs)|] == Starting
      ensures r.phase == phase
    {
      if !(MIN_SECONDS <= seconds <= MAX_SECONDS) {
        return Reply(false, phase, BadSeconds);
      }
      if task.Some? && task.value < |jobs| && Live(jobs[task.value]) {
        return Reply(true, phase, AlreadyReceiving);
      }
      phase := StartingUp;
      task := Some(|jobs|);
      jobs := jobs + [Starting];
      r := Reply(true, phase, WindowStarting);
    }

    method StartSend(host: bool) returns (r: Reply)
      modifies this
      ensures Value() == AfterSend(old(Value()), host)
      ensures r.ok <==> |jobs| == |old(jobs)| + 1
      ensures r.ok ==> phase == Sending && task == Some(|old(jobs)|) && jobs[|old(jobs)|] == Transferring
    {
      if !host {
        return Reply(false, Idle, NeedsHost);
      }
      if task.Some? && task.value < |jobs| && Live(jobs[task.value]) {
        return Reply(false, phase, OtherActive);
      }
      phase := Sending;
      task := Some(|jobs|);
      jobs := jobs + [Transferring];
      r := Reply(true, Sending, SendStarted);
    }

    method Stop() returns (r: Reply)
      modifies this
      ensures Value() == AfterStop(old(Value()))
      ensures phase == Idle && task.None? && pending.None?
      ensures forall i :: 0 <= i < |jobs| && Some(i) == old(task) ==> jobs[i] == Aborted
      ensures r == Reply(true, Idle, Stopped)
    {
      if task.Some? {
        if task.value < |jobs| {
          jobs := jobs[task.value := Aborted];
        }
        task := None;
      }
      phase := Idle;
      pending := None;
      r := Reply(true, Idle, Stopped);
    }

    /** `approve` and `reject`: the pending Ask is taken out, and it is the one the decision is sent to. */
    method Decide(accepted: bool) returns (r: Reply, sent: Option<nat>)
      modifies this
      ensures Value() == old(Value()).(pending := None)
      ensures sent == old(pending) && r.phase == phase
      ensures r.ok <==> old(pending).Some?
    {
      sent := pending;
      if pending.None? {
        return Reply(false, phase, NothingWaiting), None;
      }
      pending := None;
      r := Reply(true, phase, if accepted then TransferApproved else TransferRejected);
    }

    method Ready(i: nat, window: nat)
      requires i < |jobs|
      modifies this
      ensures Value() == AfterReady(old(Value()), i, window)
      ensures phase == Receiving && jobs == old(jobs)[i := Open(window)]
    {
      phase := Receiving;
      jobs := jobs[i := Open(window)];
    }

    /** An Ask still pending is overwritten; its decision channel is dropped. */
    method Show(ask: nat) returns (dropped: Option<nat>)
      modifies this
      ensures Value() == old(Value()).(pending := Some(ask))
      ensures dropped == old(pending)
    {
      dropped := pending;
      pending := Some(ask);
    }

    method Finish(i: nat)
      requires i < |jobs| && jobs[i].Ending?
      modifies this
      ensures Value() == AfterFinish(old(Value()), i)
      ensures phase == (if old(jobs)[i] == Ending(true) then Idle else Failed) && task.None?
    {
      phase := if jobs[i].ok then Idle else Failed;
      task := None;
      jobs := jobs[i := Done];
    }
  }

  /** At most one job is live, it is the one stored in `task`, and the phase shows what it does. */
  ghost predicate OneJob(c: Control) {
    && (forall i :: 0 <= i < |c.jobs| && Live(c.jobs[i]) ==> c.task == Some(i))
    && (c.task.None? <==> c.phase.Idle? || c.phase.Failed?)
    && (c.task.Some? ==> c.task.value < |c.jobs| && Shows(c.phase, c.jobs[c.task.value]))
  }

  ghost predicate Shows(phase: Phase, j: Job) {
    match j
    case Starting => phase == StartingUp
    case Open(_) => phase == Receiving
    case Transferring => phase == Sending
    case Ending(_) => phase == StartingUp || phase == Receiving || phase == Sending
    case Done => false
    case Aborted => false
  }
}
