// The batching worker: callers, a bounded queue, one device thread, and shutdown,
// as the steps they take. Each step is one channel operation or locked section.
module Worker {
  import opened Words

  const MAX_VALUES: nat := 4096

  // The order of the scalar field of BLS12-381.
  const SCALAR_MODULUS: nat := 0x73eda753299d7d483339d80809a1d80553bda402fffe5bfeffffffff00000001

  type Point = seq<byte>

  datatype WorkerError = Closed | Busy | InvalidInput | DeviceFailed

  datatype Job = Job(id: nat, evaluations: seq<nat>, index: nat) {
    predicate Admissible() {
      && |evaluations| == MAX_VALUES && index < MAX_VALUES
      && forall i :: 0 <= i < |evaluations| ==> evaluations[i] < SCALAR_MODULUS
    }
  }

  datatype Config = Config(batch: nat, maxPending: nat, waits: bool)

  predicate GoodConfig(cfg: Config) {
    1 <= cfg.batch <= 64 && 1 <= cfg.maxPending
  }

  // An arbitrary device: it may fail, or answer with the wrong number of points.
  type Device = seq<Job> -> Option<seq<Point>>

  datatype Caller = Waiting(job: Job) | Returned(answer: Result<Point, WorkerError>)

  // Where the device thread is.
  datatype Thread =
    | Starting
    | Refused                                                 // the factory failed
    | Idle
    | Collecting(batch: seq<Job>)                             // waiting for a timer
    | Filling(batch: seq<Job>)
    | Checking(batch: seq<Job>)
    | Opening(batch: seq<Job>)
    | Failing
    | Delivering(batch: seq<Job>, points: seq<Point>, next: nat)
    | Leaving                                                 // run has returned
    | Freed                                                   // the device is closed
    | Stopped

  datatype State = State(
    queue: seq<Job>,
    thread: Thread,
    err: Option<WorkerError>,       // set together with closing `done`
    callers: map<nat, Caller>,
    accepted: map<nat, Job>,        // every job ever queued
    results: map<nat, Point>,       // one buffered slot for each job
    closers: set<nat>,              // Close calls that have returned
    deviceOpen: bool)

  predicate Done(s: State) {
    s.err.Some?
  }

  datatype Step =
    | Factory(ok: bool)
    | Submit(job: Job)
    | Receive(id: nat)
    | Release(id: nat)
    | CloseStop
    | CloseReturn(closer: nat)
    | TakeFirst
    | LeaveIdle
    | Collect
    | TimerFires
    | LeaveCollecting
    | Fill
    | FillDefault
    | LeaveChecking
    | OpenDevice
    | DeviceReturns
    | StopFailed
    | Deliver
    | BatchDone
    | FreeDevice
    | CloseStopped

  function Init(): State {
    State([], Starting, None, map[], map[], map[], {}, false)
  }

  // The first stop wins; later ones change nothing.
  function StopWith(s: State, e: WorkerError): State {
    if s.err.Some? then s else s.(err := Some(e))
  }

  function AfterFirst(cfg: Config, batch: seq<Job>): Thread {
    if cfg.waits && cfg.batch > 1 then Collecting(batch) else Filling(batch)
  }

  // Whether a step can be taken; a select offers every ready case.
  predicate Enabled(cfg: Config, s: State, step: Step) {
    match step
    case Factory(_) => s.thread == Starting
    case Submit(job) => job.id !in s.callers && s.thread != Starting && s.thread != Refused
    case Receive(id) => id in s.callers && s.callers[id].Waiting? && id in s.results
    case Release(id) => id in s.callers && s.callers[id].Waiting? && Done(s)
    case CloseStop => s.thread != Starting && s.thread != Refused
    case CloseReturn(c) => Done(s) && s.thread == Stopped
    case TakeFirst => s.thread == Idle && s.queue != []
    case LeaveIdle => s.thread == Idle && Done(s)
    case Collect => s.thread.Collecting? && |s.thread.batch| < cfg.batch && s.queue != []
    case TimerFires => s.thread.Collecting?
    case LeaveCollecting => s.thread.Collecting? && |s.thread.batch| < cfg.batch && Done(s)
    case Fill => s.thread.Filling? && |s.thread.batch| < cfg.batch && s.queue != []
    case FillDefault => s.thread.Filling? && (|s.thread.batch| >= cfg.batch || s.queue == [])
    case LeaveChecking => s.thread.Checking? && Done(s)
    case OpenDevice => s.thread.Checking? && !Done(s)
    case DeviceReturns => s.thread.Opening?
    case StopFailed => s.thread.Failing?
    case Deliver => s.thread.Delivering? && s.thread.next < |s.thread.batch| && s.thread.next < |s.thread.points|
    case BatchDone => s.thread.Delivering? && s.thread.next == |s.thread.batch|
    case FreeDevice => s.thread == Leaving
    case CloseStopped => s.thread == Freed
  }

  function Submitted(cfg: Config, s: State, job: Job): State {
    if !job.Admissible() then s.(callers := s.callers[job.id := Returned(Err(InvalidInput))])
    else if s.err.Some? then s.(callers := s.callers[job.id := Returned(Err(s.err.value))])
    else if |s.queue| >= cfg.maxPending then s.(callers := s.callers[job.id := Returned(Err(Busy))])
    else s.(queue := s.queue + [job], callers := s.callers[job.id := Waiting(job)],
            accepted := s.accepted[job.id := job])
  }

  function DeviceAnswer(device: Device, batch: seq<Job>): Thread {
    var points := device(batch);
    if points.None? || |points.value| != |batch| then Failing else Delivering(batch, points.value, 0)
  }

  function Next(cfg: Config, device: Device, s: State, step: Step): State
    requires Enabled(cfg, s, step)
  {
    match step
    case Factory(ok) => if ok then s.(thread := Idle, deviceOpen := true) else s.(thread := Refused)
    case Submit(job) => Submitted(cfg, s, job)
    case Receive(id) => s.(callers := s.callers[id := Returned(Ok(s.results[id]))])
    case Release(id) => s.(callers := s.callers[id := Returned(Err(s.err.value))])
    case CloseStop => StopWith(s, Closed)
    case CloseReturn(c) => s.(closers := s.closers + {c})
    case TakeFirst => s.(queue := s.queue[1..], thread := AfterFirst(cfg, [s.queue[0]]))
    case LeaveIdle => s.(thread := Leaving)
    case Collect => s.(queue := s.queue[1..], thread := Collecting(s.thread.batch + [s.queue[0]]))
    case TimerFires => s.(thread := Filling(s.thread.batch))
    case LeaveCollecting => s.(thread := Leaving)
    case Fill => s.(queue := s.queue[1..], thread := Filling(s.thread.batch + [s.queue[0]]))
    case FillDefault => s.(thread := Checking(s.thread.batch))
    case LeaveChecking => s.(thread := Leaving)
    case OpenDevice => s.(thread := Opening(s.thread.batch))
    case DeviceReturns => s.(thread := DeviceAnswer(device, s.thread.batch))
    case StopFailed => StopWith(s.(thread := Leaving), DeviceFailed)
    case Deliver =>
      s.(results := s.results[s.thread.batch[s.thread.next].id := s.thread.points[s.thread.next]],
         thread := s.thread.(next := s.thread.next + 1))
    case BatchDone => s.(thread := Idle)
    case FreeDevice => s.(thread := Freed, deviceOpen := false)
    case CloseStopped => s.(thread := Stopped)
  }

  // ---- What every step keeps ----

  predicate InBatch(t: Thread) {
    t.Collecting? || t.Filling? || t.Checking? || t.Opening?
  }

  // The jobs of the current batch whose results are still to come.
  function Held(t: Thread): seq<Job> {
    if InBatch(t) then t.batch
    else if t.Delivering? && t.next <= |t.batch| then t.batch[t.next..]
    else []
  }

  function Outstanding(s: State): seq<Job> {
    Held(s.thread) + s.queue
  }

  ghost predicate Bounded(cfg: Config, s: State) {
    && |s.queue| <= cfg.maxPending
    && (InBatch(s.thread) ==> 1 <= |s.thread.batch| <= cfg.batch)
    && (s.thread.Delivering? ==> 1 <= |s.thread.batch| <= cfg.batch)
    && (s.thread.Delivering? ==> |s.thread.points| == |s.thread.batch| && s.thread.next <= |s.thread.batch|)
  }

  ghost predicate Gone(t: Thread) {
    t == Leaving || t == Freed || t == Stopped
  }

  predicate Unstarted(t: Thread) {
    t == Starting || t == Refused
  }

  // The device is open from its creation until run has returned; the thread leaves
  // only once `done` is closed; Close returns only after the thread stopped.
  ghost predicate Phased(s: State) {
    && (s.deviceOpen <==> !Unstarted(s.thread) && s.thread != Freed && s.thread != Stopped)
    && (Gone(s.thread) ==> Done(s))
    && (Unstarted(s.thread) ==> s.callers == map[] && s.accepted == map[] && s.queue == [] && s.results == map[])
    && (s.closers != {} ==> s.thread == Stopped)
  }

  // No job is outstanding twice, or outstanding with a result.
  ghost predicate Accounted(s: State) {
    && (forall i, j :: 0 <= i < j < |Outstanding(s)| ==> Outstanding(s)[i].id != Outstanding(s)[j].id)
    && (forall j :: j in Outstanding(s) ==> j.id in s.accepted && s.accepted[j.id] == j && j.id !in s.results)
    && (forall id :: id in s.results ==> id in s.accepted)
    && (forall id :: id in s.accepted ==> id in s.callers && s.accepted[id].id == id && s.accepted[id].Admissible())
  }

  // A waiting caller's job is outstanding, or has its result, or the thread is
  // leaving.
  ghost predicate Served(s: State) {
    forall id :: id in s.callers && s.callers[id].Waiting? ==>
      && id in s.accepted && s.accepted[id] == s.callers[id].job && s.callers[id].job.id == id
      && (id in s.results || Done(s) || s.thread == Failing || s.callers[id].job in Outstanding(s))
  }

  // A result is what the device answered for that very job, at its own place in
  // its own batch.
  ghost predicate OwnAnswer(device: Device, job: Job, p: Point) {
    exists batch, i :: AnsweredAt(device, batch, i, job, p)
  }

  ghost predicate AnsweredAt(device: Device, batch: seq<Job>, i: nat, job: Job, p: Point) {
    && i < |batch| && batch[i] == job
    && device(batch).Some? && |device(batch).value| == |batch| && device(batch).value[i] == p
  }

  ghost predicate Honest(device: Device, s: State) {
    && (s.thread.Delivering? ==> device(s.thread.batch) == Some(s.thread.points))
    && (forall id :: id in s.results && id in s.accepted ==> OwnAnswer(device, s.accepted[id], s.results[id]))
    && (forall id :: id in s.callers && s.callers[id].Returned? && s.callers[id].answer.Ok? ==>
          id in s.results && s.callers[id].answer.value == s.results[id])
  }

  ghost predicate Inv(cfg: Config, device: Device, s: State) {
    Bounded(cfg, s) && Phased(s) && Accounted(s) && Served(s) && Honest(device, s)
  }

  lemma KeepsBounded(cfg: Config, device: Device, s: State, step: Step)
    requires GoodConfig(cfg) && Bounded(cfg, s) && Enabled(cfg, s, step)
    ensures Bounded(cfg, Next(cfg, device, s, step))
  {
    hide Job.Admissible, Next, Enabled;
    if Outside(step) {
      OutsideKeeps(cfg, device, s, step);
    } else {
      ThreadBounded(cfg, device, s, step);
    }
  }

  // Callers and Close leave the thread alone and queue at most up to the limit.
  lemma OutsideKeeps(cfg: Config, device: Device, s: State, step: Step)
    requires Enabled(cfg, s, step) && Outside(step)
    ensures var t := Next(cfg, device, s, step);
      && t.thread == s.thread && t.deviceOpen == s.deviceOpen && (Done(s) ==> Done(t))
      && (|s.queue| <= cfg.maxPending ==> |t.queue| <= cfg.maxPending)
      && (t.closers != s.closers ==> s.thread == Stopped)
      && (Unstarted(s.thread) && s.callers == map[] ==> t.callers == map[] && t.accepted == s.accepted)
      && (Unstarted(s.thread) && s.callers == map[] ==> t.queue == s.queue && t.results == s.results)
  {
    hide Job.Admissible;
  }

  lemma ThreadBounded(cfg: Config, device: Device, s: State, step: Step)
    requires GoodConfig(cfg) && Bounded(cfg, s) && Enabled(cfg, s, step) && !Outside(step)
    ensures Bounded(cfg, Next(cfg, device, s, step))
  {
  }

  lemma KeepsPhased(cfg: Config, device: Device, s: State, step: Step)
    requires Phased(s) && Enabled(cfg, s, step)
    ensures Phased(Next(cfg, device, s, step))
  {
    hide Job.Admissible, Next, Enabled;
    if Outside(step) {
      OutsideKeeps(cfg, device, s, step);
    } else {
      ThreadPhased(cfg, device, s, step);
    }
  }

  lemma ThreadPhased(cfg: Config, device: Device, s: State, step: Step)
    requires Phased(s) && Enabled(cfg, s, step) && !Outside(step)
    ensures Phased(Next(cfg, device, s, step))
  {
  }

  // Callers and Close leave what is outstanding as it is.
  lemma OutstandingSame(cfg: Config, device: Device, s: State, step: Step)
    requires Enabled(cfg, s, step) && Outside(step) && !step.Submit?
    ensures Outstanding(Next(cfg, device, s, step)) == Outstanding(s)
  {
  }

  lemma OutstandingMoves(cfg: Config, device: Device, s: State, step: Step)
    requires Enabled(cfg, s, step)
    requires Moving(step)
    ensures Outstanding(Next(cfg, device, s, step)) == Outstanding(s)
  {
  }

  // Delivering answers the next job of the batch.
  lemma OutstandingDelivers(cfg: Config, device: Device, s: State)
    requires Enabled(cfg, s, Deliver)
    ensures Outstanding(s) == [s.thread.batch[s.thread.next]] + Outstanding(Next(cfg, device, s, Deliver))
  {
    var t := s.thread;
    assert t.batch[t.next..] == [t.batch[t.next]] + t.batch[t.next + 1..];
  }

  // Leaving drops the batch in hand.
  lemma OutstandingDrops(cfg: Config, device: Device, s: State, step: Step)
    requires Enabled(cfg, s, step) && !Outside(step) && !Moving(step) && !step.Deliver?
    ensures var o, t := Outstanding(s), Next(cfg, device, s, step);
      Outstanding(t) == o || (Outstanding(t) == o[|Held(s.thread)|..] && (Done(t) || t.thread == Failing))
  {
    var t := Next(cfg, device, s, step);
    assert t.queue == s.queue;
    assert Outstanding(s)[|Held(s.thread)|..] == s.queue;
    if step.DeviceReturns? && t.thread.Delivering? {
      assert Held(t.thread) == t.thread.batch[0..] == Held(s.thread);
    } else {
      assert Held(t.thread) == [];
    }
  }

  predicate Outside(step: Step) {
    step.Submit? || step.Receive? || step.Release? || step.CloseStop? || step.CloseReturn?
  }

  predicate Moving(step: Step) {
    || step.Factory? || step.TakeFirst? || step.Collect? || step.TimerFires?
    || step.Fill? || step.FillDefault? || step.OpenDevice?
  }

  lemma OutstandingNext(cfg: Config, device: Device, s: State, step: Step)
    requires Enabled(cfg, s, step) && Bounded(cfg, s) && Phased(s)
    ensures var o, p := Outstanding(s), Outstanding(Next(cfg, device, s, step));
      if step.Submit? then p == o || p == o + [step.job] else exists n: nat :: n <= |o| && p == o[n..]
  {
    hide Outstanding, Next, Enabled, Held;
    var o := Outstanding(s);
    assert o[0..] == o;
    if step.Submit? {
      SubmitFields(cfg, device, s, step.job);
    } else if Outside(step) {
      OutstandingSame(cfg, device, s, step);
    } else if Moving(step) {
      OutstandingMoves(cfg, device, s, step);
    } else {
      if step.Deliver? {
        OutstandingDelivers(cfg, device, s);
        assert o[1..] == Outstanding(Next(cfg, device, s, step));
      } else {
        OutstandingDrops(cfg, device, s, step);
        HeldFits(s);
      }
    }
  }

  lemma HeldFits(s: State)
    ensures |Held(s.thread)| <= |Outstanding(s)|
  {
  }

  // Which fields a step may touch, beside the thread and the queue.
  lemma FieldsAfter(cfg: Config, device: Device, s: State, step: Step)
    requires Enabled(cfg, s, step)
    ensures var t := Next(cfg, device, s, step);
      && (!step.Deliver? ==> t.results == s.results)
      && (step.Deliver? ==> t.results == s.results[s.thread.batch[s.thread.next].id := s.thread.points[s.thread.next]])
      && (!step.Submit? ==> t.accepted == s.accepted && t.callers.Keys == s.callers.Keys)
      && (Done(s) ==> t.err == s.err && t.accepted == s.accepted)
  {
    hide Job.Admissible;
    if Outside(step) {
      FieldsOutside(cfg, device, s, step);
    } else {
      FieldsThread(cfg, device, s, step);
    }
  }

  lemma FieldsOutside(cfg: Config, device: Device, s: State, step: Step)
    requires Enabled(cfg, s, step) && Outside(step)
    ensures var t := Next(cfg, device, s, step);
      && t.results == s.results && (!step.Submit? ==> t.accepted == s.accepted && t.callers.Keys == s.callers.Keys)
      && (Done(s) ==> t.err == s.err && t.accepted == s.accepted)
  {
    hide Job.Admissible;
  }

  lemma FieldsThread(cfg: Config, device: Device, s: State, step: Step)
    requires Enabled(cfg, s, step) && !Outside(step)
    ensures var t := Next(cfg, device, s, step);
      && t.accepted == s.accepted && t.callers == s.callers && (Done(s) ==> t.err == s.err)
      && (!step.Deliver? ==> t.results == s.results)
      && (step.Deliver? ==> t.results == s.results[s.thread.batch[s.thread.next].id := s.thread.points[s.thread.next]])
  {
    hide DeviceAnswer, AfterFirst;
  }

  predicate Accepts(cfg: Config, s: State, job: Job) {
    job.Admissible() && s.err == None && |s.queue| < cfg.maxPending
  }

  lemma SubmitFields(cfg: Config, device: Device, s: State, job: Job)
    requires Enabled(cfg, s, Submit(job))
    ensures var t := Next(cfg, device, s, Submit(job));
      if Accepts(cfg, s, job)
      then Outstanding(t) == Outstanding(s) + [job] && t.accepted == s.accepted[job.id := job]
           && t.callers == s.callers[job.id := Waiting(job)]
      else Outstanding(t) == Outstanding(s) && t.accepted == s.accepted
           && exists e :: t.callers == s.callers[job.id := Returned(Err(e))]
  {
    hide Job.Admissible;
    var t := Next(cfg, device, s, Submit(job));
    if Accepts(cfg, s, job) {
      assert Held(s.thread) + (s.queue + [job]) == Outstanding(s) + [job];
    } else {
      var e := t.callers[job.id].answer.error;
      assert t.callers == s.callers[job.id := Returned(Err(e))];
    }
  }

  lemma KeepsAccounted(cfg: Config, device: Device, s: State, step: Step)
    requires Bounded(cfg, s) && Phased(s) && Accounted(s) && Enabled(cfg, s, step)
    ensures Accounted(Next(cfg, device, s, step))
  {
    hide Outstanding, Next, Held, Bounded, Phased, Accounted, Job.Admissible, Enabled;
    if step.Submit? {
      AccountedSubmit(cfg, device, s, step.job);
    } else {
      OutstandingNext(cfg, device, s, step);
      FieldsAfter(cfg, device, s, step);
      if step.Deliver? {
        AccountedDelivers(cfg, device, s);
      } else {
        AccountedFewer(s, Next(cfg, device, s, step));
      }
    }
  }

  lemma AccountedSubmit(cfg: Config, device: Device, s: State, job: Job)
    requires Accounted(s) && Enabled(cfg, s, Submit(job))
    ensures Accounted(Next(cfg, device, s, Submit(job)))
  {
    hide Outstanding, Next, Job.Admissible;
    SubmitFields(cfg, device, s, job);
    SubmitRest(cfg, device, s, job);
    AcceptsAdmissible(cfg, s, job);
  }

  lemma AcceptsAdmissible(cfg: Config, s: State, job: Job)
    ensures Accepts(cfg, s, job) ==> job.Admissible()
  {
    hide Job.Admissible;
  }

  lemma AccountedDelivers(cfg: Config, device: Device, s: State)
    requires Accounted(s) && Enabled(cfg, s, Deliver)
    ensures Accounted(Next(cfg, device, s, Deliver))
  {
    hide Outstanding, Next, Job.Admissible;
    OutstandingDelivers(cfg, device, s);
    FieldsAfter(cfg, device, s, Deliver);
    var o, p := Outstanding(s), Outstanding(Next(cfg, device, s, Deliver));
    assert o[0] in o;
    forall i | 0 <= i < |p|
      ensures p[i] == o[i + 1] && p[i].id != o[0].id
    {
    }
  }

  lemma AccountedFewer(s: State, t: State)
    requires Accounted(s) && exists n: nat :: n <= |Outstanding(s)| && Outstanding(t) == Outstanding(s)[n..]
    requires t.results == s.results && t.accepted == s.accepted && t.callers.Keys == s.callers.Keys
    ensures Accounted(t)
  {
    hide Outstanding, Job.Admissible;
  }

  lemma ServedSubmit(cfg: Config, device: Device, s: State, job: Job)
    requires Served(s) && Enabled(cfg, s, Submit(job))
    ensures Served(Next(cfg, device, s, Submit(job)))
  {
    hide Outstanding, Next, Job.Admissible, Accepts;
    SubmitFields(cfg, device, s, job);
    SubmitRest(cfg, device, s, job);
  }

  lemma SubmitRest(cfg: Config, device: Device, s: State, job: Job)
    requires Enabled(cfg, s, Submit(job))
    ensures var t := Next(cfg, device, s, Submit(job));
      t.results == s.results && t.err == s.err && t.thread == s.thread && job.id !in s.callers
  {
    hide Job.Admissible;
  }

  // Only callers change the callers, and no caller starts to wait again.
  lemma CallersAfter(cfg: Config, device: Device, s: State, step: Step)
    requires Enabled(cfg, s, step) && !step.Submit?
    ensures var t := Next(cfg, device, s, step);
      && (forall id :: id in t.callers && t.callers[id].Waiting? ==> id in s.callers && s.callers[id] == t.callers[id])
      && (Done(s) ==> Done(t)) && (s.thread == Failing ==> t.thread == Failing || Done(t))
  {
  }

  lemma KeepsServed(cfg: Config, device: Device, s: State, step: Step)
    requires Served(s) && Enabled(cfg, s, step)
    ensures Served(Next(cfg, device, s, step))
  {
    hide Outstanding, Held, Next, Enabled;
    if step.Submit? {
      ServedSubmit(cfg, device, s, step.job);
    } else {
      FieldsAfter(cfg, device, s, step);
      CallersAfter(cfg, device, s, step);
      OutstandingKept(cfg, device, s, step);
    }
  }

  // A job leaves the outstanding ones only when it is answered, or when the thread
  // is leaving.
  lemma OutstandingKept(cfg: Config, device: Device, s: State, step: Step)
    requires Enabled(cfg, s, step) && !step.Submit?
    ensures var t := Next(cfg, device, s, step);
      forall j :: j in Outstanding(s) ==> j in Outstanding(t) || j.id in t.results || Done(t) || t.thread == Failing
  {
    hide Outstanding, Held;
    if Outside(step) {
      OutstandingSame(cfg, device, s, step);
    } else if Moving(step) {
      OutstandingMoves(cfg, device, s, step);
    } else if step.Deliver? {
      OutstandingDelivers(cfg, device, s);
    } else {
      OutstandingDrops(cfg, device, s, step);
    }
  }

  lemma KeepsHonest(cfg: Config, device: Device, s: State, step: Step)
    requires Bounded(cfg, s) && Accounted(s) && Honest(device, s) && Enabled(cfg, s, step)
    ensures Honest(device, Next(cfg, device, s, step))
  {
    hide Job.Admissible, OwnAnswer, Accounted, Next, Bounded;
    if step.Deliver? {
      HonestDelivers(cfg, device, s);
    } else if step.Submit? {
      SubmitFresh(s, step.job);
      SubmitFields(cfg, device, s, step.job);
      SubmitRest(cfg, device, s, step.job);
    } else {
      FieldsAfter(cfg, device, s, step);
      AnswersAfter(cfg, device, s, step);
    }
  }

  // A caller returns a point only from its result; a new batch to deliver is what
  // the device just answered.
  lemma AnswersAfter(cfg: Config, device: Device, s: State, step: Step)
    requires Enabled(cfg, s, step) && !step.Submit? && !step.Deliver?
    ensures var t := Next(cfg, device, s, step);
      && (t.thread.Delivering? ==> t.thread == s.thread || device(t.thread.batch) == Some(t.thread.points))
      && forall id :: id in t.callers && t.callers[id].Returned? && t.callers[id].answer.Ok? ==>
          (id in s.callers && s.callers[id] == t.callers[id])
          || (id in s.results && t.callers[id].answer.value == s.results[id])
  {
  }

  lemma HonestDelivers(cfg: Config, device: Device, s: State)
    requires Bounded(cfg, s) && Accounted(s) && Honest(device, s) && Enabled(cfg, s, Deliver)
    ensures Honest(device, Next(cfg, device, s, Deliver))
  {
    hide OwnAnswer, Accounted;
    var t := s.thread;
    DeliverFresh(s);
    OwnAnswerAt(device, t.batch, t.next, t.batch[t.next], t.points[t.next]);
  }

  lemma OwnAnswerAt(device: Device, batch: seq<Job>, i: nat, job: Job, p: Point)
    requires AnsweredAt(device, batch, i, job, p)
    ensures OwnAnswer(device, job, p)
  {
  }

  // The next job to answer has no result yet.
  lemma DeliverFresh(s: State)
    requires Accounted(s) && s.thread.Delivering? && s.thread.next < |s.thread.batch|
    ensures var job := s.thread.batch[s.thread.next];
      job.id !in s.results && job.id in s.accepted && s.accepted[job.id] == job
  {
    assert Outstanding(s)[0] in Outstanding(s);
  }

  lemma SubmitFresh(s: State, job: Job)
    requires Accounted(s) && job.id !in s.callers
    ensures job.id !in s.accepted && job.id !in s.results
  {
  }
}
