// What holds over every interleaving of callers, worker and shutdown.
module WorkerRuns {
  import opened Words
  import opened Worker

  // An execution: the states between the steps taken, in any order.
  ghost predicate Run(cfg: Config, device: Device, states: seq<State>, steps: seq<Step>) {
    && |states| == |steps| + 1 && states[0] == Init()
    && forall i :: 0 <= i < |steps| ==> Takes(cfg, device, states[i], steps[i], states[i + 1])
  }

  ghost predicate Takes(cfg: Config, device: Device, s: State, step: Step, t: State) {
    Enabled(cfg, s, step) && t == Next(cfg, device, s, step)
  }

  lemma InitInv(cfg: Config, device: Device)
    ensures Inv(cfg, device, Init())
  {
  }

  lemma {:induction false} RunInv(cfg: Config, device: Device, states: seq<State>, steps: seq<Step>)
    requires GoodConfig(cfg) && Run(cfg, device, states, steps)
    ensures Inv(cfg, device, states[|steps|])
  {
    hide Bounded, Phased, Accounted, Served, Honest, Next, Enabled;
    if steps == [] {
      InitInv(cfg, device);
    } else {
      var n := |steps| - 1;
      RunInv(cfg, device, states[..n + 1], steps[..n]);
      assert Takes(cfg, device, states[n], steps[n], states[n + 1]);
      KeepsBounded(cfg, device, states[n], steps[n]);
      KeepsPhased(cfg, device, states[n], steps[n]);
      KeepsAccounted(cfg, device, states[n], steps[n]);
      KeepsServed(cfg, device, states[n], steps[n]);
      KeepsHonest(cfg, device, states[n], steps[n]);
    }
  }

  // ---- Safety ----

  // A device that computes each opening by itself.
  ghost predicate Faithful(device: Device, point: Job -> Point) {
    forall batch, i :: device(batch).Some? && |device(batch).value| == |batch| && 0 <= i < |batch| ==>
      device(batch).value[i] == point(batch[i])
  }

  // At any time: the queue and the batch are bounded, the device is open while a
  // batch is computed, and a stopped worker has closed `done`.
  lemma RunSafe(cfg: Config, device: Device, states: seq<State>, steps: seq<Step>)
    requires GoodConfig(cfg) && Run(cfg, device, states, steps)
    ensures var s := states[|steps|];
      && |s.queue| <= cfg.maxPending && |Held(s.thread)| <= cfg.batch
      && (s.thread.Opening? ==> s.deviceOpen)
      && (!s.deviceOpen && s.accepted != map[] ==> s.thread == Freed || s.thread == Stopped)
      && (s.thread == Stopped ==> Done(s))
      && (s.closers != {} ==> s.thread == Stopped && !s.deviceOpen)
  {
    hide Accounted, Served, Honest, Next, Enabled;
    RunInv(cfg, device, states, steps);
  }

  // A point returned to a caller is the device's point for the caller's own vector
  // and index.
  lemma RunAnswers(cfg: Config, device: Device, states: seq<State>, steps: seq<Step>, id: nat, point: Job -> Point)
    requires GoodConfig(cfg) && Run(cfg, device, states, steps) && Faithful(device, point)
    ensures var s := states[|steps|];
      id in s.callers && s.callers[id].Returned? && s.callers[id].answer.Ok? ==>
        id in s.accepted && s.accepted[id].id == id && s.accepted[id].Admissible()
        && s.callers[id].answer.value == point(s.accepted[id])
  {
    hide Served, Bounded, Phased, Next, Enabled;
    RunInv(cfg, device, states, steps);
    var s := states[|steps|];
    if id in s.callers && s.callers[id].Returned? && s.callers[id].answer.Ok? {
      assert OwnAnswer(device, s.accepted[id], s.results[id]);
      var batch, i :| AnsweredAt(device, batch, i, s.accepted[id], s.results[id]);
    }
  }

  // Results and accepted jobs are never changed, and once `done` is closed no job
  // is accepted and the reason stays.
  lemma StepMonotone(cfg: Config, device: Device, s: State, step: Step)
    requires Inv(cfg, device, s) && Enabled(cfg, s, step)
    ensures var t := Next(cfg, device, s, step);
      && (forall id :: id in s.results ==> id in t.results && t.results[id] == s.results[id])
      && (forall id :: id in s.accepted ==> id in t.accepted && t.accepted[id] == s.accepted[id])
      && (Done(s) ==> t.accepted == s.accepted && t.err == s.err)
      && (forall id :: id in s.callers && s.callers[id].Returned? ==> id in t.callers && t.callers[id] == s.callers[id])
  {
    hide Bounded, Phased, Honest, Served, Accounted, Next;
    FieldsAfter(cfg, device, s, step);
    ReturnedStay(cfg, device, s, step);
    if step.Deliver? {
      DeliverFresh(s);
    } else if step.Submit? {
      SubmitFresh(s, step.job);
      SubmitFields(cfg, device, s, step.job);
    }
  }

  lemma ReturnedStay(cfg: Config, device: Device, s: State, step: Step)
    requires Enabled(cfg, s, step)
    ensures var t := Next(cfg, device, s, step);
      forall id :: id in s.callers && s.callers[id].Returned? ==> id in t.callers && t.callers[id] == s.callers[id]
  {
    hide Job.Admissible;
  }

  lemma {:induction false} RunMonotone(cfg: Config, device: Device, states: seq<State>, steps: seq<Step>, i: nat)
    requires GoodConfig(cfg) && Run(cfg, device, states, steps) && i <= |steps|
    ensures var s, t := states[i], states[|steps|];
      && (forall id :: id in s.results ==> id in t.results && t.results[id] == s.results[id])
      && (forall id :: id in s.accepted ==> id in t.accepted && t.accepted[id] == s.accepted[id])
      && (Done(s) ==> t.accepted == s.accepted && t.err == s.err)
      && (forall id :: id in s.callers && s.callers[id].Returned? ==> id in t.callers && t.callers[id] == s.callers[id])
    decreases |steps|
  {
    hide Inv, Next, Enabled;
    if i < |steps| {
      var n := |steps| - 1;
      RunMonotone(cfg, device, states[..n + 1], steps[..n], i);
      RunInv(cfg, device, states[..n + 1], steps[..n]);
      assert Takes(cfg, device, states[n], steps[n], states[n + 1]);
      StepMonotone(cfg, device, states[n], steps[n]);
    }
  }

  // ---- Refusals ----

  // Not a vector of 4096 scalars of the field with an index into it.
  ghost predicate Malformed(job: Job) {
    || |job.evaluations| != 4096 || job.index >= 4096
    || exists i :: 0 <= i < |job.evaluations| && (
         job.evaluations[i] >= 0x73eda753299d7d483339d80809a1d80553bda402fffe5bfeffffffff00000001)
  }

  lemma MalformedIs(job: Job)
    ensures Malformed(job) <==> !job.Admissible()
  {
  }

  // What a caller learns at the step that refuses it.
  ghost predicate Refuses(cfg: Config, s: State, step: Step, id: nat, e: WorkerError) {
    match e
    case InvalidInput => Submits(step, id) && Malformed(step.job)
    case Busy => Submits(step, id) && !Malformed(step.job) && s.err == None && |s.queue| == cfg.maxPending
    case _ => s.err == Some(e) && (step == Release(id) || (Submits(step, id) && !Malformed(step.job)))
  }

  ghost predicate Submits(step: Step, id: nat) {
    step.Submit? && step.job.id == id
  }

  ghost predicate Reason(err: Option<WorkerError>) {
    err == None || err == Some(Closed) || err == Some(DeviceFailed)
  }

  lemma StepRefuses(cfg: Config, device: Device, s: State, step: Step, id: nat, e: WorkerError)
    requires Enabled(cfg, s, step) && Reason(s.err) && |s.queue| <= cfg.maxPending
    requires var t := Next(cfg, device, s, step); id in t.callers && t.callers[id] == Returned(Err(e))
    ensures (id in s.callers && s.callers[id] == Returned(Err(e))) || Refuses(cfg, s, step, id, e)
  {
    hide Job.Admissible, Malformed, DeviceAnswer, AfterFirst, Next, Enabled;
    if step.Submit? {
      SubmitRefuses(cfg, device, s, step.job);
    } else {
      LeaveRefuses(cfg, device, s, step);
    }
  }

  lemma SubmitRefuses(cfg: Config, device: Device, s: State, job: Job)
    requires Enabled(cfg, s, Submit(job))
    ensures Next(cfg, device, s, Submit(job)).callers == s.callers[job.id :=
      if Malformed(job) then Returned(Err(InvalidInput))
      else if s.err.Some? then Returned(Err(s.err.value))
      else if |s.queue| >= cfg.maxPending then Returned(Err(Busy)) else Waiting(job)]
  {
    hide Job.Admissible, Malformed;
    MalformedIs(job);
  }

  lemma LeaveRefuses(cfg: Config, device: Device, s: State, step: Step)
    requires Enabled(cfg, s, step) && !step.Submit?
    ensures var t := Next(cfg, device, s, step);
      forall id :: id in t.callers && t.callers[id].Returned? && t.callers[id].answer.Err? ==> (
        (id in s.callers && s.callers[id] == t.callers[id])
        || (step == Release(id) && s.err == Some(t.callers[id].answer.error)))
  {
    hide DeviceAnswer, AfterFirst;
  }

  // Nothing is refused without its reason: a malformed job, a full queue of an open
  // worker, or the worker's own end.
  lemma {:induction false} RunRefusals(cfg: Config, device: Device, states: seq<State>, steps: seq<Step>, id: nat,
                                       e: WorkerError)
    requires GoodConfig(cfg) && Run(cfg, device, states, steps)
    requires id in states[|steps|].callers && states[|steps|].callers[id] == Returned(Err(e))
    ensures exists i :: 0 <= i < |steps| && Refuses(cfg, states[i], steps[i], id, e)
    ensures e == Closed || e == DeviceFailed ==> states[|steps|].err == Some(e)
    decreases |steps|
  {
    hide Inv, Next, Enabled, Malformed;
    if steps != [] {
      var n := |steps| - 1;
      var before, during := states[..n + 1], steps[..n];
      RunInv(cfg, device, before, during);
      RunReason(cfg, device, before, during);
      QueueBound(cfg, device, states[n]);
      assert Takes(cfg, device, states[n], steps[n], states[n + 1]);
      StepRefuses(cfg, device, states[n], steps[n], id, e);
      StepMonotone(cfg, device, states[n], steps[n]);
      if id in states[n].callers && states[n].callers[id] == Returned(Err(e)) {
        RunRefusals(cfg, device, before, during, id, e);
        var i :| 0 <= i < n && Refuses(cfg, before[i], during[i], id, e);
        assert Refuses(cfg, states[i], steps[i], id, e);
      }
    }
  }

  lemma QueueBound(cfg: Config, device: Device, s: State)
    requires Inv(cfg, device, s)
    ensures |s.queue| <= cfg.maxPending
  {
    hide Phased, Accounted, Served, Honest;
  }

  // Every submission is answered as it deserves, and for good.
  lemma RunOutcome(cfg: Config, device: Device, states: seq<State>, steps: seq<Step>, i: nat, job: Job)
    requires GoodConfig(cfg) && Run(cfg, device, states, steps) && i < |steps| && steps[i] == Submit(job)
    ensures var s, t := states[i], states[|steps|];
      if Malformed(job) then Told(t, job.id, InvalidInput)
      else if s.err.Some? then Told(t, job.id, s.err.value)
      else if |s.queue| >= cfg.maxPending then Told(t, job.id, Busy)
      else job.id in t.accepted && t.accepted[job.id] == job && states[i + 1].queue == s.queue + [job]
  {
    hide Inv, Job.Admissible, Malformed;
    MalformedIs(job);
    RunMonotone(cfg, device, states, steps, i + 1);
    assert Takes(cfg, device, states[i], steps[i], states[i + 1]);
  }

  ghost predicate Told(s: State, id: nat, e: WorkerError) {
    id in s.callers && s.callers[id] == Returned(Err(e))
  }

  // The device failed on a batch, or answered the wrong number of points.
  ghost predicate Spoiled(device: Device, s: State, step: Step) {
    step == DeviceReturns && s.thread.Opening?
    && (device(s.thread.batch) == None || |device(s.thread.batch).value| != |s.thread.batch|)
  }

  ghost predicate SpoiledBefore(device: Device, states: seq<State>, steps: seq<Step>, n: nat) {
    exists j :: 0 <= j < n && j < |steps| && j < |states| && Spoiled(device, states[j], steps[j])
  }

  ghost predicate ClosedBefore(steps: seq<Step>, n: nat) {
    exists j :: 0 <= j < n && j < |steps| && steps[j] == CloseStop
  }

  lemma StepReason(cfg: Config, device: Device, s: State, step: Step)
    requires Enabled(cfg, s, step) && Reason(s.err)
    ensures var t := Next(cfg, device, s, step);
      && Reason(t.err)
      && (t.err == Some(Closed) ==> s.err == Some(Closed) || step == CloseStop)
      && (t.err == Some(DeviceFailed) ==> s.err == Some(DeviceFailed) || s.thread == Failing)
      && (t.thread == Failing ==> s.thread == Failing || Spoiled(device, s, step))
  {
    hide Job.Admissible, AfterFirst, Next, Enabled;
    if Outside(step) {
      OutsideReason(cfg, device, s, step);
    } else {
      ThreadReason(cfg, device, s, step);
    }
  }

  lemma OutsideReason(cfg: Config, device: Device, s: State, step: Step)
    requires Enabled(cfg, s, step) && Outside(step)
    ensures var t := Next(cfg, device, s, step);
      t.thread == s.thread && (t.err == s.err || (step == CloseStop && t.err == Some(Closed)))
  {
    hide Job.Admissible;
  }

  lemma ThreadReason(cfg: Config, device: Device, s: State, step: Step)
    requires Enabled(cfg, s, step) && !Outside(step)
    ensures var t := Next(cfg, device, s, step);
      && (t.err == s.err || (s.thread == Failing && t.err == Some(DeviceFailed)))
      && (t.thread == Failing ==> s.thread == Failing || Spoiled(device, s, step))
  {
  }

  // A worker ends only because it was closed, or because its device failed a batch.
  lemma {:induction false} RunReason(cfg: Config, device: Device, states: seq<State>, steps: seq<Step>)
    requires Run(cfg, device, states, steps)
    ensures var n := |steps|; var s := states[n];
      && Reason(s.err)
      && (s.err == Some(Closed) ==> ClosedBefore(steps, n))
      && (s.err == Some(DeviceFailed) || s.thread == Failing ==> SpoiledBefore(device, states, steps, n))
    decreases |steps|
  {
    hide Next, Enabled, Spoiled;
    if steps != [] {
      var n := |steps| - 1;
      RunReason(cfg, device, states[..n + 1], steps[..n]);
      assert Takes(cfg, device, states[n], steps[n], states[n + 1]);
      StepReason(cfg, device, states[n], steps[n]);
    }
  }

  // Once `done` is closed no further batch is computed.
  lemma {:induction false} RunNoMoreBatches(cfg: Config, device: Device, states: seq<State>, steps: seq<Step>, i: nat)
    requires GoodConfig(cfg) && Run(cfg, device, states, steps) && i <= |steps| && Done(states[i])
    requires !states[i].thread.Opening?
    ensures !states[|steps|].thread.Opening?
    decreases |steps|
  {
    hide Next, Enabled;
    if i < |steps| {
      var n := |steps| - 1;
      RunNoMoreBatches(cfg, device, states[..n + 1], steps[..n], i);
      RunMonotone(cfg, device, states[..n + 1], steps[..n], i);
      assert Takes(cfg, device, states[n], steps[n], states[n + 1]);
      StepNoMoreBatches(cfg, device, states[n], steps[n]);
    }
  }

  lemma StepNoMoreBatches(cfg: Config, device: Device, s: State, step: Step)
    requires Enabled(cfg, s, step) && Done(s) && !s.thread.Opening?
    ensures !Next(cfg, device, s, step).thread.Opening?
  {
    hide Job.Admissible;
  }

  // ---- Progress ----

  // Steps the device thread takes on its own.
  predicate ThreadStep(step: Step) {
    !Outside(step) && !step.Factory?
  }

  // No waiting caller is stuck: it can return now, or the device thread can move.
  lemma NeverStuck(cfg: Config, device: Device, s: State, id: nat) returns (step: Step)
    requires GoodConfig(cfg) && Inv(cfg, device, s) && id in s.callers && s.callers[id].Waiting?
    ensures Enabled(cfg, s, step) && (step == Receive(id) || step == Release(id) || ThreadStep(step))
  {
    if id in s.results {
      step := Receive(id);
    } else if Done(s) {
      step := Release(id);
    } else {
      match s.thread
      case Idle =>
        assert Outstanding(s) == s.queue;
        step := TakeFirst;
      case Collecting(_) => step := TimerFires;
      case Filling(batch) => step := if |batch| < cfg.batch && s.queue != [] then Fill else FillDefault;
      case Checking(_) => step := OpenDevice;
      case Opening(_) => step := DeviceReturns;
      case Failing => step := StopFailed;
      case Delivering(batch, _, next) => step := if next < |batch| then Deliver else BatchDone;
    }
  }

  // How much the device thread still has to do.
  function Work(s: State): nat {
    10 * |s.queue| + match s.thread
      case Starting => 4
      case Refused => 0
      case Idle => 3
      case Collecting(batch) => 2 * |batch| + 8
      case Filling(batch) => 2 * |batch| + 7
      case Checking(batch) => 2 * |batch| + 6
      case Opening(batch) => 2 * |batch| + 5
      case Failing => 3
      case Delivering(batch, _, next) => (if next <= |batch| then 2 * (|batch| - next) else 0) + 4
      case Leaving => 2
      case Freed => 1
      case Stopped => 0
  }

  // Every step of the device thread leaves less to do, and callers that leave add
  // nothing: without new jobs the thread comes to rest, so by NeverStuck every
  // waiting caller can return.
  lemma WorkFalls(cfg: Config, device: Device, s: State, step: Step)
    requires GoodConfig(cfg) && Inv(cfg, device, s) && Enabled(cfg, s, step)
    ensures ThreadStep(step) ==> Work(Next(cfg, device, s, step)) < Work(s)
    ensures !ThreadStep(step) && !step.Submit? ==> Work(Next(cfg, device, s, step)) <= Work(s)
  {
    hide Accounted, Served, Honest, Phased;
  }
}
