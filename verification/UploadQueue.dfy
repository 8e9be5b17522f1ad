/**
  The upload engine: control calls and one worker thread over a job list and a queue of job ids.
  Each critical section of the source is one event, so a run is any interleaving of them.
 */
module UploadQueue {
  type Id = string

  datatype Status = Queued | Compressing | Uploading | Paused | Completed | Failed | Cancelled

  datatype Job = Job(id: Id, filePath: string, serverUrl: string, title: string, description: string,
                     status: Status, progress: real, retryCount: nat)

  /**
    Where the worker thread stands between two critical sections. It is `Starting` until the thread
    that polls the progress exists, and `Running` from then on: an exception that leaves the upload
    while that thread is joinable ends the process, so it is caught only while `Starting`.
   */
  datatype Worker = Idle | Popped(id: Id) | Checked(id: Id) | Starting(id: Id) | Running(id: Id)

  datatype State = State(jobs: seq<Job>, queue: seq<Id>, worker: Worker)

  const MAX_RETRY: nat := 3
  const QUEUE_MAX: nat := 10

  /** The first job with this id and one of these statuses, from `i` on; past the end if none. */
  function Match(jobs: seq<Job>, id: Id, wanted: set<Status>, i: nat): (m: nat)
    requires i <= |jobs|
    ensures i <= m <= |jobs|
    ensures m < |jobs| ==> jobs[m].id == id && jobs[m].status in wanted
    ensures forall k | i <= k < m :: !(jobs[k].id == id && jobs[k].status in wanted)
    decreases |jobs| - i
  {
    if i == |jobs| || (jobs[i].id == id && jobs[i].status in wanted) then i else Match(jobs, id, wanted, i + 1)
  }

  function AnyStatus(): set<Status> {
    {Queued, Compressing, Uploading, Paused, Completed, Failed, Cancelled}
  }

  predicate Known(jobs: seq<Job>, id: Id) {
    exists i :: 0 <= i < |jobs| && jobs[i].id == id
  }

  // ---------------------------------------------------------------- events

  datatype Event =
    | Enqueue(job: Job)
    | Pause(id: Id) | Resume(id: Id) | Cancel(id: Id) | Retry(id: Id)
    | Pop | Check | Start | Throw | Launch | Report(p: real) | Finish(success: bool)

  /** A job as `enqueue` makes it. */
  predicate Fresh(j: Job) {
    j.status == Queued && j.progress == 0.0 && j.retryCount == 0
  }

  /** What the environment provides: a new id for a new job. */
  predicate Allowed(s: State, e: Event) {
    e.Enqueue? ==> Fresh(e.job) && !Known(s.jobs, e.job.id)
  }

  function SetStatus(s: State, id: Id, wanted: set<Status>, status: Status): State {
    var i := Match(s.jobs, id, wanted, 0);
    if i == |s.jobs| then s else s.(jobs := s.jobs[i := s.jobs[i].(status := status)])
  }

  function Control(s: State, e: Event): State {
    match e
    case Enqueue(job) =>
      if |s.queue| >= QUEUE_MAX then s else s.(jobs := s.jobs + [job], queue := s.queue + [job.id])
    case Pause(id) => SetStatus(s, id, {Uploading}, Paused)
    case Cancel(id) => SetStatus(s, id, AnyStatus(), Cancelled)
    case Resume(id) =>
      var i := Match(s.jobs, id, {Paused}, 0);
      if i == |s.jobs| then s
      else s.(jobs := s.jobs[i := s.jobs[i].(status := Queued)], queue := s.queue + [id])
    case Retry(id) =>
      var i := Match(s.jobs, id, {Failed}, 0);
      if i == |s.jobs| then s
      else s.(jobs := s.jobs[i := s.jobs[i].(status := Queued, retryCount := 0, progress := 0.0)],
              queue := s.queue + [id])
    case _ => s
  }

  /** The worker's critical sections; an event that is not the worker's next one changes nothing. */
  function Work(s: State, e: Event): State {
    match (s.worker, e)
    case (Idle, Pop) => if s.queue == [] then s else s.(queue := s.queue[1..], worker := Popped(s.queue[0]))
    case (Popped(id), Check) =>
      var i := Match(s.jobs, id, AnyStatus(), 0);
      s.(worker := if i == |s.jobs| || s.jobs[i].status == Cancelled then Idle else Checked(id))
    case (Checked(id), Start) => SetStatus(s, id, AnyStatus(), Uploading).(worker := Starting(id))
    case (Starting(id), Throw) => SetStatus(s, id, AnyStatus(), Failed).(worker := Idle)
    case (Starting(id), Launch) => s.(worker := Running(id))
    case (Running(id), Report(p)) =>
      var i := Match(s.jobs, id, AnyStatus(), 0);
      if i == |s.jobs| then s else s.(jobs := s.jobs[i := s.jobs[i].(progress := p)])
    case (Running(id), Finish(success)) =>
      var i := Match(s.jobs, id, AnyStatus(), 0);
      if i == |s.jobs| || s.jobs[i].status == Cancelled || s.jobs[i].status == Paused then s.(worker := Idle)
      else if success then
        s.(jobs := s.jobs[i := s.jobs[i].(status := Completed, progress := 1.0)], worker := Idle)
      else
        var tries := s.jobs[i].retryCount + 1;
        if tries < MAX_RETRY then
          s.(jobs := s.jobs[i := s.jobs[i].(status := Queued, retryCount := tries)],
             queue := s.queue + [id], worker := Idle)
        else
          s.(jobs := s.jobs[i := s.jobs[i].(status := Failed, retryCount := tries)], worker := Idle)
    case _ => s
  }

  function Apply(s: State, e: Event): State {
    if e.Enqueue? || e.Pause? || e.Resume? || e.Cancel? || e.Retry? then Control(s, e) else Work(s, e)
  }

  function After(s: State, es: seq<Event>): State {
    if es == [] then s else Apply(After(s, es[..|es| - 1]), es[|es| - 1])
  }

  predicate Run(s: State, es: seq<Event>) {
    es == [] || (Run(s, es[..|es| - 1]) && Allowed(After(s, es[..|es| - 1]), es[|es| - 1]))
  }

  function Initial(): State { State([], [], Idle) }

  // ---------------------------------------------------------------- the invariant

  predicate Distinct(jobs: seq<Job>) {
    forall i, j | 0 <= i < j < |jobs| :: jobs[i].id != jobs[j].id
  }

  /** A queued job is in the queue, or in the worker's hands and not yet started. */
  predicate Accounted(s: State, j: Job) {
    && (j.status == Queued ==> j.id in s.queue || s.worker == Popped(j.id) || s.worker == Checked(j.id))
    && (j.status == Uploading ==> s.worker == Starting(j.id) || s.worker == Running(j.id))
  }

  ghost predicate Inv(s: State) {
    && Distinct(s.jobs)
    && (forall i | 0 <= i < |s.jobs| :: Accounted(s, s.jobs[i]))
    && (forall q | q in s.queue :: Known(s.jobs, q))
    && (s.worker.Idle? || Known(s.jobs, s.worker.id))
  }

  /** Any id match is the job. */
  lemma MatchIs(jobs: seq<Job>, id: Id, wanted: set<Status>, i: nat)
    requires Distinct(jobs) && i < |jobs| && jobs[i].id == id
    ensures Match(jobs, id, wanted, 0) == if jobs[i].status in wanted then i else |jobs|
  {
  }

  lemma StatusKnown(st: Status)
    ensures st in AnyStatus()
  {
  }

  /** Replacing a job by one with the same id. */
  lemma ReplaceKeeps(s: State, t: State, i: nat, j: Job)
    requires Inv(s) && i < |s.jobs| && j.id == s.jobs[i].id
    requires t.jobs == s.jobs[i := j] && s.queue <= t.queue && (forall q | q in t.queue :: Known(s.jobs, q))
    requires Accounted(t, j) && (t.worker.Idle? || Known(s.jobs, t.worker.id))
    requires forall k | 0 <= k < |s.jobs| && k != i :: Accounted(t, s.jobs[k])
    ensures Inv(t)
  {
    forall id | Known(s.jobs, id) ensures Known(t.jobs, id) {
      var k :| 0 <= k < |s.jobs| && s.jobs[k].id == id;
      assert t.jobs[k].id == id;
    }
    forall k | 0 <= k < |t.jobs| ensures Accounted(t, t.jobs[k]) {
    }
  }

  lemma ControlKeeps(s: State, e: Event)
    requires Inv(s) && Allowed(s, e)
    ensures Inv(Control(s, e))
  {
    hide Known;
    var t := Control(s, e);
    match e
    case Enqueue(job) =>
      if |s.queue| < QUEUE_MAX {
        EnqueueKeeps(s, job);
      }
    case Pause(id) =>
      var i := Match(s.jobs, id, {Uploading}, 0);
      if i < |s.jobs| {
        ReplaceKeeps(s, t, i, t.jobs[i]);
      }
    case Cancel(id) =>
      var i := Match(s.jobs, id, AnyStatus(), 0);
      if i < |s.jobs| {
        ReplaceKeeps(s, t, i, t.jobs[i]);
      }
    case Resume(id) =>
      var i := Match(s.jobs, id, {Paused}, 0);
      if i < |s.jobs| {
        Requeued(s, t, i);
      }
    case Retry(id) =>
      var i := Match(s.jobs, id, {Failed}, 0);
      if i < |s.jobs| {
        Requeued(s, t, i);
      }
    case _ =>
  }

  lemma IsKnown(jobs: seq<Job>, i: nat)
    requires i < |jobs|
    ensures Known(jobs, jobs[i].id)
  {
  }

  /** Putting a job back into the queue. */
  lemma Requeued(s: State, t: State, i: nat)
    requires Inv(s) && i < |s.jobs| && |t.jobs| == |s.jobs|
    requires t.jobs == s.jobs[i := t.jobs[i]] && t.jobs[i].id == s.jobs[i].id && t.jobs[i].status == Queued
    requires t.queue == s.queue + [s.jobs[i].id]
    requires t.worker == s.worker || (s.worker == Running(s.jobs[i].id) && t.worker == Idle)
    ensures Inv(t)
  {
    hide Known;
    IsKnown(s.jobs, i);
    ReplaceKeeps(s, t, i, t.jobs[i]);
  }

  lemma EnqueueKeeps(s: State, job: Job)
    requires Inv(s) && Allowed(s, Enqueue(job)) && |s.queue| < QUEUE_MAX
    ensures Inv(Control(s, Enqueue(job)))
  {
    var t := Control(s, Enqueue(job));
    forall id | Known(s.jobs, id) ensures Known(t.jobs, id) {
      var k :| 0 <= k < |s.jobs| && s.jobs[k].id == id;
      assert t.jobs[k].id == id;
    }
    assert t.jobs[|s.jobs|] == job;
    forall k | 0 <= k < |t.jobs| ensures Accounted(t, t.jobs[k]) {
      if k < |s.jobs| {
        assert t.jobs[k] == s.jobs[k];
      }
    }
  }

  /** The job in the worker's hands. */
  lemma Held(s: State) returns (i: nat)
    requires Inv(s) && !s.worker.Idle?
    ensures i < |s.jobs| && s.jobs[i].id == s.worker.id && i == Match(s.jobs, s.worker.id, AnyStatus(), 0)
    ensures forall k | 0 <= k < |s.jobs| && k != i :: s.jobs[k].id != s.worker.id
  {
    hide AnyStatus;
    var k :| 0 <= k < |s.jobs| && s.jobs[k].id == s.worker.id;
    MatchIs(s.jobs, s.worker.id, AnyStatus(), k);
    StatusKnown(s.jobs[k].status);
    i := k;
  }

  lemma PopKeeps(s: State)
    requires Inv(s) && s.worker == Idle && s.queue != []
    ensures Inv(Work(s, Pop))
  {
  }

  lemma WorkKeeps(s: State, e: Event)
    requires Inv(s)
    ensures Inv(Work(s, e))
  {
    hide Known, Match, AnyStatus;
    var t := Work(s, e);
    if s.worker == Idle {
      if e == Pop && s.queue != [] {
        PopKeeps(s);
      }
    } else {
      var i := Held(s);
      IsKnown(s.jobs, i);
      match (s.worker, e)
      case (Popped(id), Check) =>
      case (Checked(id), Start) => ReplaceKeeps(s, t, i, t.jobs[i]);
      case (Running(id), Report(p)) => ReplaceKeeps(s, t, i, t.jobs[i]);
      case (Starting(id), Throw) => ReplaceKeeps(s, t, i, t.jobs[i]);
      case (Starting(id), Launch) =>
      case (Running(id), Finish(success)) => FinishKeeps(s, success, i);
      case _ =>
    }
  }

  lemma FinishKeeps(s: State, success: bool, i: nat)
    requires Inv(s) && s.worker.Running? && i < |s.jobs| && s.jobs[i].id == s.worker.id
    requires i == Match(s.jobs, s.worker.id, AnyStatus(), 0)
    requires forall k | 0 <= k < |s.jobs| && k != i :: s.jobs[k].id != s.worker.id
    ensures Inv(Work(s, Finish(success)))
  {
    hide Known, Match, AnyStatus;
    var t := Work(s, Finish(success));
    if t.jobs == s.jobs {
    } else if t.jobs[i].status == Queued {
      Requeued(s, t, i);
    } else {
      ReplaceKeeps(s, t, i, t.jobs[i]);
    }
  }

  /** Every event keeps the invariant. */
  lemma ApplyKeepsInv(s: State, e: Event)
    requires Inv(s) && Allowed(s, e)
    ensures Inv(Apply(s, e))
  {
    hide Inv, Control, Work;
    if e.Enqueue? || e.Pause? || e.Resume? || e.Cancel? || e.Retry? {
      ControlKeeps(s, e);
    } else {
      WorkKeeps(s, e);
    }
  }

  /** A new job keeps the invariant exactly when its id is new, or the queue is full and it is turned away. */
  lemma EnqueueExact(s: State, job: Job)
    requires Inv(s) && Fresh(job)
    ensures Inv(Apply(s, Enqueue(job))) <==> |s.queue| >= 10 || !Known(s.jobs, job.id)
  {
    if |s.queue| < QUEUE_MAX {
      if Known(s.jobs, job.id) {
        var i :| 0 <= i < |s.jobs| && s.jobs[i].id == job.id;
        var t := Apply(s, Enqueue(job));
        assert t.jobs[i].id == t.jobs[|s.jobs|].id;
      } else {
        EnqueueKeeps(s, job);
      }
    }
  }

  lemma {:induction false} RunKeepsInv(s: State, es: seq<Event>)
    requires Inv(s) && Run(s, es)
    ensures Inv(After(s, es))
  {
    hide Inv, Apply, Allowed;
    if es != [] {
      RunKeepsInv(s, es[..|es| - 1]);
      ApplyKeepsInv(After(s, es[..|es| - 1]), es[|es| - 1]);
    }
  }

  // ---------------------------------------------------------------- what every interleaving guarantees

  /** A queued job is never lost, and only the worker's job is being uploaded. */
  lemma EveryInterleaving(es: seq<Event>)
    requires Run(Initial(), es)
    ensures var s := After(Initial(), es);
      && (forall j | j in s.jobs && j.status == Queued ::
            j.id in s.queue || s.worker == Popped(j.id) || s.worker == Checked(j.id))
      && (forall j | j in s.jobs && j.status == Uploading :: s.worker == Starting(j.id) || s.worker == Running(j.id))
      && (forall i, j | 0 <= i < j < |s.jobs| :: s.jobs[i].status != Uploading || s.jobs[j].status != Uploading)
      && (forall q | q in s.queue :: Known(s.jobs, q))
  {
    hide Run, After, Known;
    RunKeepsInv(Initial(), es);
  }

  /** When the worker is idle and the queue empty, no job is waiting or under way. */
  lemma Quiescent(es: seq<Event>)
    requires Run(Initial(), es) && After(Initial(), es).worker == Idle && After(Initial(), es).queue == []
    ensures forall j | j in After(Initial(), es).jobs :: j.status != Queued && j.status != Uploading
  {
    hide Run, After;
    EveryInterleaving(es);
  }

  // ---------------------------------------------------------------- what an event does to one job

  /** A control call changes the job it names, if its status is the right one, and no other job. */
  lemma ControlJob(s: State, e: Event, i: nat)
    requires Inv(s) && Allowed(s, e) && i < |s.jobs|
    ensures i < |Control(s, e).jobs|
    ensures var j, k := s.jobs[i], Control(s, e).jobs[i];
      k == match e
        case Pause(id) => if id == j.id && j.status == Uploading then j.(status := Paused) else j
        case Resume(id) => if id == j.id && j.status == Paused then j.(status := Queued) else j
        case Cancel(id) => if id == j.id then j.(status := Cancelled) else j
        case Retry(id) =>
          if id == j.id && j.status == Failed then j.(status := Queued, retryCount := 0, progress := 0.0) else j
        case _ => j
  {
    hide AnyStatus, Known;
    StatusKnown(s.jobs[i].status);
    if e.Pause? || e.Resume? || e.Cancel? || e.Retry? {
      if e.id == s.jobs[i].id {
        MatchIs(s.jobs, e.id, AnyStatus(), i);
      }
    }
  }

  /** It queues the id of a job it makes wait again, behind all others. */
  lemma ControlQueue(s: State, e: Event, i: nat)
    requires Inv(s) && i < |s.jobs| && (e == Resume(s.jobs[i].id) || e == Retry(s.jobs[i].id))
    ensures Control(s, e).queue ==
      if s.jobs[i].status == (if e.Resume? then Paused else Failed) then s.queue + [s.jobs[i].id] else s.queue
  {
    hide Known;
    MatchIs(s.jobs, s.jobs[i].id, if e.Resume? then {Paused} else {Failed}, i);
  }

  /** A step of the worker changes the job in its hands alone. */
  lemma WorkJob(s: State, e: Event, i: nat)
    requires Inv(s) && i < |s.jobs|
    ensures |Work(s, e).jobs| == |s.jobs|
    ensures var j, k := s.jobs[i], Work(s, e).jobs[i];
      k == match e
        case Start => if s.worker == Checked(j.id) then j.(status := Uploading) else j
        case Throw => if s.worker == Starting(j.id) then j.(status := Failed) else j
        case Report(p) => if s.worker == Running(j.id) then j.(progress := p) else j
        case Finish(success) =>
          if s.worker != Running(j.id) || j.status == Cancelled || j.status == Paused then j
          else if success then j.(status := Completed, progress := 1.0)
          else j.(status := if j.retryCount < 2 then Queued else Failed, retryCount := j.retryCount + 1)
        case _ => j
  {
    hide AnyStatus, Known, Match;
    if !s.worker.Idle? {
      var h := Held(s);
    }
  }

  /** The worker takes the head of the queue, drops it if it is cancelled, and puts a failed one back at the end. */
  lemma WorkQueue(s: State, e: Event)
    requires Inv(s)
    ensures e == Pop && s.worker == Idle && s.queue != [] ==>
      Work(s, e) == s.(queue := s.queue[1..], worker := Popped(s.queue[0]))
    ensures e == Check && s.worker.Popped? ==>
      exists i :: 0 <= i < |s.jobs| && s.jobs[i].id == s.worker.id &&
        Work(s, e) == s.(worker := if s.jobs[i].status == Cancelled then Idle else Checked(s.worker.id))
    ensures e.Finish? && s.worker.Running? ==>
      exists i :: 0 <= i < |s.jobs| && s.jobs[i].id == s.worker.id && Work(s, e).worker == Idle &&
        Work(s, e).queue == s.queue +
          (if !e.success && s.jobs[i].status != Cancelled && s.jobs[i].status != Paused && s.jobs[i].retryCount < 2
           then [s.worker.id] else [])
  {
    hide AnyStatus, Known, Match;
    if !s.worker.Idle? {
      var h := Held(s);
      assert s.jobs[h].id == s.worker.id;
      assert s.queue + [] == s.queue;
    }
  }

  // ---------------------------------------------------------------- cancelling

  /** What `getStatus` answers; an unknown id counts as cancelled. */
  function StatusOf(s: State, id: Id): Status {
    var i := Match(s.jobs, id, AnyStatus(), 0);
    if i == |s.jobs| then Cancelled else s.jobs[i].status
  }

  predicate Settled(s: State, id: Id) {
    && (exists i :: 0 <= i < |s.jobs| && s.jobs[i].id == id && s.jobs[i].status == Cancelled)
    && s.worker != Checked(id) && s.worker != Starting(id)
  }

  lemma StatusAt(s: State, i: nat)
    requires Distinct(s.jobs) && i < |s.jobs|
    ensures StatusOf(s, s.jobs[i].id) == s.jobs[i].status
  {
  }

  lemma SettledStays(s: State, e: Event, id: Id)
    requires Inv(s) && Allowed(s, e) && Settled(s, id)
    ensures Settled(Apply(s, e), id)
  {
    hide AnyStatus, Known, Control, Work, Inv, Allowed, Match;
    var i :| 0 <= i < |s.jobs| && s.jobs[i].id == id && s.jobs[i].status == Cancelled;
    if e.Enqueue? || e.Pause? || e.Resume? || e.Cancel? || e.Retry? {
      ControlSpares(s, e, i);
    } else {
      WorkSpares(s, e, i);
    }
  }

  lemma ControlSpares(s: State, e: Event, i: nat)
    requires Inv(s) && i < |s.jobs| && s.jobs[i].status == Cancelled
    ensures var t := Control(s, e);
      t.worker == s.worker && i < |t.jobs| && t.jobs[i].id == s.jobs[i].id && t.jobs[i].status == Cancelled
  {
  }

  lemma WorkSpares(s: State, e: Event, i: nat)
    requires Inv(s) && i < |s.jobs| && s.jobs[i].status == Cancelled
    requires s.worker != Checked(s.jobs[i].id) && s.worker != Starting(s.jobs[i].id)
    ensures var t := Work(s, e);
      && i < |t.jobs| && t.jobs[i].id == s.jobs[i].id && t.jobs[i].status == Cancelled
      && t.worker != Checked(s.jobs[i].id) && t.worker != Starting(s.jobs[i].id)
  {
  }

  lemma {:induction false} SettledForGood(s: State, es: seq<Event>, id: Id)
    requires Inv(s) && Run(s, es) && Settled(s, id)
    ensures Settled(After(s, es), id)
  {
    hide Inv, Apply, Allowed, Settled;
    if es != [] {
      var before := es[..|es| - 1];
      SettledForGood(s, before, id);
      RunKeepsInv(s, before);
      SettledStays(After(s, before), es[|es| - 1], id);
    }
  }

  lemma OneEvent(s: State, e: Event)
    requires Allowed(s, e)
    ensures Run(s, [e]) && After(s, [e]) == Apply(s, e)
  {
    assert [e][..0] == [];
    assert Run(s, []) && After(s, []) == s;
  }

  /**
    A cancelled job stays cancelled in every continuation exactly when the worker is not between its
    check of that job and the upload.
   */
  lemma CancelIsFinal(s: State, i: nat)
    requires Inv(s) && i < |s.jobs| && s.jobs[i].status == Cancelled
    ensures var id := s.jobs[i].id;
      (forall es | Run(s, es) :: StatusOf(After(s, es), id) == Cancelled) <==>
      s.worker != Checked(id) && s.worker != Starting(id)
  {
    hide Run, After, StatusOf, Inv, Known, AnyStatus;
    var id := s.jobs[i].id;
    if s.worker != Checked(id) && s.worker != Starting(id) {
      forall es | Run(s, es) ensures StatusOf(After(s, es), id) == Cancelled {
        SettledForGood(s, es, id);
        RunKeepsInv(s, es);
        SettledStatus(After(s, es), id);
      }
    } else {
      var e := if s.worker == Checked(id) then Start else Throw;
      OneEvent(s, e);
      Overturned(s, i, e);
    }
  }

  lemma SettledStatus(s: State, id: Id)
    requires Inv(s) && Settled(s, id)
    ensures StatusOf(s, id) == Cancelled
  {
  }

  lemma Overturned(s: State, i: nat, e: Event)
    requires Inv(s) && i < |s.jobs|
    requires (s.worker == Checked(s.jobs[i].id) && e == Start) || (s.worker == Starting(s.jobs[i].id) && e == Throw)
    ensures StatusOf(Apply(s, e), s.jobs[i].id) != Cancelled
  {
    hide StatusOf, Known, AnyStatus;
    var h := Held(s);
    ApplyKeepsInv(s, e);
    StatusAt(Apply(s, e), i);
  }

  lemma OneMore(s: State, es: seq<Event>, e: Event)
    ensures After(s, es + [e]) == Apply(After(s, es), e)
    ensures Run(s, es + [e]) <==> Run(s, es) && Allowed(After(s, es), e)
  {
    assert (es + [e])[..|es|] == es;
  }

  /** The worker holds a job that is alone in the engine. */
  lemma Checking(j: Job) returns (es: seq<Event>)
    requires Fresh(j)
    ensures es == [Enqueue(j), Pop, Check]
    ensures Run(Initial(), es) && After(Initial(), es) == State([j], [], Checked(j.id))
  {
    OneEvent(Initial(), Enqueue(j));
    OneMore(Initial(), [Enqueue(j)], Pop);
    OneMore(Initial(), [Enqueue(j), Pop], Check);
    es := [Enqueue(j), Pop, Check];
    assert [Enqueue(j)] + [Pop] == [Enqueue(j), Pop] && [Enqueue(j), Pop] + [Check] == es;
    assert After(Initial(), [Enqueue(j)]) == State([j], [j.id], Idle);
  }

  /** Cancelled between the check and the start, a job is uploaded all the same. */
  lemma CancelTooLate(j: Job)
    requires Fresh(j)
    ensures var before := [Enqueue(j), Pop, Check, Cancel(j.id)];
      && Run(Initial(), before + [Start])
      && StatusOf(After(Initial(), before), j.id) == Cancelled
      && StatusOf(After(Initial(), before + [Start]), j.id) == Uploading
  {
    hide After, Run;
    var es := Checking(j);
    OneMore(Initial(), es, Cancel(j.id));
    assert es + [Cancel(j.id)] == [Enqueue(j), Pop, Check, Cancel(j.id)];
    OneMore(Initial(), es + [Cancel(j.id)], Start);
    assert After(Initial(), es + [Cancel(j.id)]) == State([j.(status := Cancelled)], [], Checked(j.id));
  }

  /** Cancelled between the start and an exception, a job has failed, and can be tried again. */
  lemma CancelThenThrow(j: Job)
    requires Fresh(j)
    ensures var before := [Enqueue(j), Pop, Check, Start, Cancel(j.id)];
      && Run(Initial(), before + [Throw])
      && StatusOf(After(Initial(), before), j.id) == Cancelled
      && StatusOf(After(Initial(), before + [Throw]), j.id) == Failed
  {
    hide After, Run;
    var es := Checking(j);
    OneMore(Initial(), es, Start);
    OneMore(Initial(), es + [Start], Cancel(j.id));
    OneMore(Initial(), es + [Start] + [Cancel(j.id)], Throw);
    assert es + [Start] + [Cancel(j.id)] == [Enqueue(j), Pop, Check, Start, Cancel(j.id)];
    assert After(Initial(), es + [Start]) == State([j.(status := Uploading)], [], Starting(j.id));
    assert After(Initial(), es + [Start] + [Cancel(j.id)]) == State([j.(status := Cancelled)], [], Starting(j.id));
  }

  // ---------------------------------------------------------------- the undisturbed worker

  datatype Outcome = Success | Failure | Exception

  /** What follows `Start` when the upload ends so. */
  function Carry(s: State, o: Outcome): State {
    match o
    case Success => Apply(Apply(s, Launch), Finish(true))
    case Failure => Apply(Apply(s, Launch), Finish(false))
    case Exception => Apply(s, Throw)
  }

  /** One turn of the worker loop when nothing else happens. */
  function Turn(s: State, o: Outcome): State {
    var checked := Apply(Apply(s, Pop), Check);
    if checked.worker == Idle then checked else Carry(Apply(checked, Start), o)
  }

  function Turns(s: State, os: seq<Outcome>): State
    decreases |os|
  {
    if os == [] || s.queue == [] then s else Turns(Turn(s, os[0]), os[1..])
  }

  /** How many more automatic retries a job can get. */
  function Spare(j: Job): nat {
    if j.retryCount + 1 < MAX_RETRY then MAX_RETRY - 1 - j.retryCount else 0
  }

  function SpareOf(jobs: seq<Job>): nat {
    if jobs == [] then 0 else SpareOf(jobs[..|jobs| - 1]) + Spare(jobs[|jobs| - 1])
  }

  function Budget(s: State): nat {
    |s.queue| + SpareOf(s.jobs)
  }

  lemma {:induction false} SpareReplaced(jobs: seq<Job>, i: nat, j: Job)
    requires i < |jobs|
    ensures SpareOf(jobs[i := j]) + Spare(jobs[i]) == SpareOf(jobs) + Spare(j)
  {
    var last := |jobs| - 1;
    if i < last {
      SpareReplaced(jobs[..last], i, j);
      assert jobs[i := j][..last] == jobs[..last][i := j];
    } else {
      assert jobs[i := j][..last] == jobs[..last];
    }
  }

  /** A failed upload that is tried again. */
  predicate Again(j: Job, o: Outcome) {
    o == Failure && j.retryCount + 1 < MAX_RETRY
  }

  function JobAfter(j: Job, o: Outcome): Job {
    match o
    case Success => j.(status := Completed, progress := 1.0)
    case Failure => j.(status := if Again(j, o) then Queued else Failed, retryCount := j.retryCount + 1)
    case Exception => j.(status := Failed)
  }

  lemma CarryDoes(s: State, i: nat, o: Outcome)
    requires s.worker.Starting? && i < |s.jobs| && Match(s.jobs, s.worker.id, AnyStatus(), 0) == i
    requires s.jobs[i].status == Uploading && s.jobs[i].id == s.worker.id
    ensures Carry(s, o) == State(s.jobs[i := JobAfter(s.jobs[i], o)],
                                 if Again(s.jobs[i], o) then s.queue + [s.worker.id] else s.queue, Idle)
  {
    hide Match, AnyStatus;
  }

  /** What a turn does to the job at the head of the queue. */
  lemma TurnDoes(s: State, o: Outcome) returns (i: nat)
    requires Inv(s) && s.worker == Idle && s.queue != []
    ensures i < |s.jobs| && s.jobs[i].id == s.queue[0] && Turn(s, o).worker == Idle
    ensures s.jobs[i].status == Cancelled ==> Turn(s, o) == s.(queue := s.queue[1..])
    ensures s.jobs[i].status != Cancelled ==>
      var j := s.jobs[i];
      Turn(s, o) == s.(jobs := s.jobs[i := JobAfter(j, o)],
                       queue := if Again(j, o) then s.queue[1..] + [j.id] else s.queue[1..])
  {
    hide Known, Match, AnyStatus, Carry;
    PopKeeps(s);
    var popped := Apply(s, Pop);
    i := Held(popped);
    var checked := Apply(popped, Check);
    if s.jobs[i].status != Cancelled {
      var started := Apply(checked, Start);
      assert started.jobs == s.jobs[i := s.jobs[i].(status := Uploading)];
      Restarted(s.jobs, i, Uploading);
      CarryDoes(started, i, o);
    }
  }

  lemma Restarted(jobs: seq<Job>, i: nat, st: Status)
    requires i < |jobs| && Match(jobs, jobs[i].id, AnyStatus(), 0) == i
    ensures Match(jobs[i := jobs[i].(status := st)], jobs[i].id, AnyStatus(), 0) == i
  {
  }

  lemma CarryKeeps(s: State, o: Outcome)
    requires Inv(s)
    ensures Inv(Carry(s, o))
  {
    hide Inv, Apply;
    ApplyKeepsInv(s, Throw);
    ApplyKeepsInv(s, Launch);
    ApplyKeepsInv(Apply(s, Launch), Finish(o == Success));
  }

  lemma TurnKeeps(s: State, o: Outcome)
    requires Inv(s) && s.worker == Idle && s.queue != []
    ensures Inv(Turn(s, o))
  {
    hide Inv, Apply;
    ApplyKeepsInv(s, Pop);
    ApplyKeepsInv(Apply(s, Pop), Check);
    var checked := Apply(Apply(s, Pop), Check);
    if checked.worker != Idle {
      ApplyKeepsInv(checked, Start);
      CarryKeeps(Apply(checked, Start), o);
    }
  }

  lemma TurnSpends(s: State, o: Outcome)
    requires Inv(s) && s.worker == Idle && s.queue != []
    ensures Budget(Turn(s, o)) < Budget(s) && Turn(s, o).worker == Idle
  {
    hide Inv, Turn, SpareOf;
    var i := TurnDoes(s, o);
    if s.jobs[i].status != Cancelled {
      SpareReplaced(s.jobs, i, Turn(s, o).jobs[i]);
    }
  }

  /** Whatever the server answers, a worker left alone empties the queue within its budget and leaves no job waiting. */
  lemma {:induction false} Drains(s: State, os: seq<Outcome>)
    requires Inv(s) && s.worker == Idle && |os| >= Budget(s)
    ensures var t := Turns(s, os);
      && Inv(t) && t.queue == [] && t.worker == Idle
      && forall j | j in t.jobs :: j.status != Queued && j.status != Uploading
    decreases |os|
  {
    hide Turn, Known, Distinct, SpareOf;
    if s.queue != [] {
      TurnKeeps(s, os[0]);
      TurnSpends(s, os[0]);
      Drains(Turn(s, os[0]), os[1..]);
    }
  }

  /** When every upload succeeds, exactly the jobs found in the queue and not cancelled are completed. */
  lemma {:induction false} AllSucceed(s: State, os: seq<Outcome>, i: nat)
    requires Inv(s) && s.worker == Idle && |os| >= |s.queue| && i < |s.jobs|
    requires forall k | 0 <= k < |os| :: os[k] == Success
    ensures var t := Turns(s, os);
      && |t.jobs| == |s.jobs|
      && t.jobs[i].status ==
           if s.jobs[i].id in s.queue && s.jobs[i].status != Cancelled then Completed else s.jobs[i].status
    decreases |os|
  {
    hide Turn, Known, Accounted, Distinct;
    if s.queue != [] {
      var t := Turn(s, os[0]);
      var h := TurnDoes(s, os[0]);
      TurnKeeps(s, os[0]);
      AllSucceed(t, os[1..], i);
      SameId(s.jobs, i, h);
    }
  }

  lemma SameId(jobs: seq<Job>, i: nat, h: nat)
    requires Distinct(jobs) && i < |jobs| && h < |jobs|
    ensures jobs[i].id == jobs[h].id <==> i == h
  {
  }

  /** A job that is alone in the engine and about to be tried. */
  function Alone(j: Job): State { State([j], [j.id], Idle) }

  lemma FailsOnce(j: Job)
    requires j.status != Cancelled
    ensures var k := j.(status := if j.retryCount < 2 then Queued else Failed, retryCount := j.retryCount + 1);
      Turn(Alone(j), Failure) == State([k], if j.retryCount < 2 then [k.id] else [], Idle)
  {
    hide AnyStatus, Carry;
    StatusKnown(j.status);
    var started := State([j.(status := Uploading)], [], Starting(j.id));
    assert Apply(Apply(Apply(Alone(j), Pop), Check), Start) == started by { hide Carry; StartsAlone(j); }
    StatusKnown(Uploading);
    CarryDoes(started, 0, Failure);
  }

  lemma StartsAlone(j: Job)
    requires j.status != Cancelled
    ensures Apply(Apply(Alone(j), Pop), Check) == State([j], [], Checked(j.id))
    ensures Apply(Apply(Apply(Alone(j), Pop), Check), Start) == State([j.(status := Uploading)], [], Starting(j.id))
  {
    hide AnyStatus;
    StatusKnown(j.status);
    assert Alone(j).queue[1..] == [];
  }

  /** A new job, and one that is tried again by hand, is given up after exactly three failed uploads. */
  lemma ThreeTries(j: Job)
    requires j.status == Queued && j.retryCount == 0
    ensures Turns(Alone(j), [Failure, Failure]).jobs == [j.(retryCount := 2)]
    ensures Turns(Alone(j), [Failure, Failure]).queue == [j.id]
    ensures Turns(Alone(j), [Failure, Failure, Failure]) == State([j.(status := Failed, retryCount := 3)], [], Idle)
  {
    hide Turn;
    var j1, j2, j3 := j.(retryCount := 1), j.(retryCount := 2), j.(status := Failed, retryCount := 3);
    FailsOnce(j);
    FailsOnce(j1);
    FailsOnce(j2);
    assert Turns(Alone(j2), [Failure]) == Turns(State([j3], [], Idle), []) by { assert [Failure][1..] == []; }
    assert Turns(Alone(j2), []) == Alone(j2);
    assert [Failure, Failure][1..] == [Failure] && [Failure][1..] == [];
    assert [Failure, Failure, Failure][1..] == [Failure, Failure];
    assert Turns(Alone(j1), [Failure]) == Turns(Alone(j2), []);
    assert Turns(Alone(j1), [Failure, Failure]) == Turns(Alone(j2), [Failure]);
  }

  /** Trying a failed job again gives it three tries more. */
  lemma RetryGivesThree(j: Job)
    requires j.status == Failed
    ensures var s := Apply(State([j], [], Idle), Retry(j.id));
      && s == Alone(j.(status := Queued, retryCount := 0, progress := 0.0))
      && Turns(s, [Failure, Failure]).queue == [j.id]
      && Turns(s, [Failure, Failure, Failure]) == State([j.(retryCount := 3, progress := 0.0)], [], Idle)
  {
    hide Turns;
    ThreeTries(j.(status := Queued, retryCount := 0, progress := 0.0));
  }

  /** One turn with two jobs of the same id in the list finds the first. */
  lemma FirstOfTwo(j: Job, k: Job, queue: seq<Id>)
    requires k.id == j.id && j.status != Cancelled
    ensures Turn(State([j, k], [j.id] + queue, Idle), Success) == State([JobAfter(j, Success), k], queue, Idle)
  {
    hide AnyStatus, Carry;
    var s := State([j, k], [j.id] + queue, Idle);
    assert s.queue[1..] == queue;
    StatusKnown(j.status);
    StatusKnown(Uploading);
    var started := Apply(Apply(Apply(s, Pop), Check), Start);
    assert started == State([j.(status := Uploading), k], queue, Starting(j.id));
    CarryDoes(started, 0, Success);
  }

  /** Were two jobs to get the same id, the second would wait for ever, outside the queue. */
  lemma CollisionLosesJob(j: Job, k: Job)
    requires Fresh(j) && Fresh(k) && k.id == j.id
    ensures var s := Apply(Apply(Initial(), Enqueue(j)), Enqueue(k));
      var t := Turns(s, [Success, Success]);
      t.queue == [] && t.worker == Idle && |t.jobs| == 2 && t.jobs[1] == k && k.status == Queued
  {
    hide Turn, Match;
    var s := Apply(Apply(Initial(), Enqueue(j)), Enqueue(k));
    var done := JobAfter(j, Success);
    assert s == State([j, k], [j.id] + [j.id], Idle);
    FirstOfTwo(j, k, [j.id]);
    FirstOfTwo(done, k, []);
    assert [j.id] == [j.id] + [];
    assert [Success, Success][1..] == [Success] && [Success][1..] == [];
    assert JobAfter(done, Success) == done;
    assert Turns(State([done, k], [j.id], Idle), [Success]) == Turns(State([done, k], [], Idle), []);
  }

  // ---------------------------------------------------------------- the code

  class UploadEngine {
    var jobs: seq<Job>
    var queue: seq<Id>
    var worker: Worker

    ghost function Now(): State
      reads this
    {
      State(jobs, queue, worker)
    }

    ghost predicate Valid()
      reads this
    {
      Inv(Now())
    }

    constructor ()
      ensures Valid() && Now() == Initial()
    {
      jobs, queue, worker := [], [], Idle;
    }

    /** The loop over `m_jobs` that every critical section starts with. */
    method Find(id: Id, wanted: set<Status>) returns (i: nat)
      ensures i == Match(jobs, id, wanted, 0)
    {
      i := 0;
      while i < |jobs| && !(jobs[i].id == id && jobs[i].status in wanted)
        invariant i <= |jobs| && Match(jobs, id, wanted, 0) == Match(jobs, id, wanted, i)
      {
        i := i + 1;
      }
    }

    /** `enqueue`, with the generated id as a parameter; the empty string when the queue is full. */
    method Enqueue(id: Id, filePath: string, serverUrl: string, title: string, description: string) returns (r: Id)
      requires Valid()
      modifies this
      ensures Valid() <==> |old(queue)| >= 10 || !Known(old(jobs), id)
      ensures var job := Job(id, filePath, serverUrl, title, description, Queued, 0.0, 0);
        Now() == Apply(old(Now()), Event.Enqueue(job))
      ensures if |old(queue)| >= 10 then r == "" && jobs == old(jobs) && queue == old(queue)
              else r == id && jobs == old(jobs) + [Job(id, filePath, serverUrl, title, description, Queued, 0.0, 0)]
                   && queue == old(queue) + [id]
    {
      hide Inv, Known;
      var job := Job(id, filePath, serverUrl, title, description, Queued, 0.0, 0);
      EnqueueExact(Now(), job);
      if |queue| >= QUEUE_MAX {
        return "";
      }
      jobs, queue := jobs + [job], queue + [id];
      return id;
    }

    method Pause(id: Id)
      requires Valid()
      modifies this
      ensures Valid() && Now() == Apply(old(Now()), Event.Pause(id))
    {
      hide Inv, AnyStatus;
      ApplyKeepsInv(Now(), Event.Pause(id));
      var i := Find(id, {Uploading});
      if i < |jobs| {
        jobs := jobs[i := jobs[i].(status := Paused)];
      }
    }

    method Resume(id: Id)
      requires Valid()
      modifies this
      ensures Valid() && Now() == Apply(old(Now()), Event.Resume(id))
    {
      hide Inv, AnyStatus;
      ApplyKeepsInv(Now(), Event.Resume(id));
      var i := Find(id, {Paused});
      if i < |jobs| {
        jobs := jobs[i := jobs[i].(status := Queued)];
        queue := queue + [id];
      }
    }

    method Cancel(id: Id)
      requires Valid()
      modifies this
      ensures Valid() && Now() == Apply(old(Now()), Event.Cancel(id))
    {
      hide Inv, AnyStatus;
      ApplyKeepsInv(Now(), Event.Cancel(id));
      var i := Find(id, AnyStatus());
      if i < |jobs| {
        jobs := jobs[i := jobs[i].(status := Cancelled)];
      }
    }

    method Retry(id: Id)
      requires Valid()
      modifies this
      ensures Valid() && Now() == Apply(old(Now()), Event.Retry(id))
    {
      hide Inv, AnyStatus;
      ApplyKeepsInv(Now(), Event.Retry(id));
      var i := Find(id, {Failed});
      if i < |jobs| {
        jobs := jobs[i := jobs[i].(status := Queued, retryCount := 0, progress := 0.0)];
        queue := queue + [id];
      }
    }

    method GetStatus(id: Id) returns (st: Status)
      ensures st == StatusOf(Now(), id)
      ensures !Known(jobs, id) ==> st == Cancelled
      ensures Distinct(jobs) ==> forall i | 0 <= i < |jobs| && jobs[i].id == id :: st == jobs[i].status
    {
      var i := Find(id, AnyStatus());
      forall k | 0 <= k < |jobs| && jobs[k].id == id ensures Distinct(jobs) ==> k == i {
        StatusKnown(jobs[k].status);
      }
      return if i < |jobs| then jobs[i].status else Cancelled;
    }

    // The worker loop, one method for each critical section.

    method PopJob()
      requires Valid() && worker == Idle
      modifies this
      ensures Valid() && Now() == Apply(old(Now()), Pop)
    {
      hide Inv, AnyStatus;
      ApplyKeepsInv(Now(), Pop);
      if queue != [] {
        worker := Popped(queue[0]);
        queue := queue[1..];
      }
    }

    method CheckJob()
      requires Valid() && worker.Popped?
      modifies this
      ensures Valid() && Now() == Apply(old(Now()), Check)
    {
      hide Inv, AnyStatus;
      ApplyKeepsInv(Now(), Check);
      var i := Find(worker.id, AnyStatus());
      worker := if i == |jobs| || jobs[i].status == Cancelled then Idle else Checked(worker.id);
    }

    method StartJob()
      requires Valid() && worker.Checked?
      modifies this
      ensures Valid() && Now() == Apply(old(Now()), Start)
    {
      hide Inv, AnyStatus;
      ApplyKeepsInv(Now(), Start);
      var i := Find(worker.id, AnyStatus());
      if i < |jobs| {
        jobs := jobs[i := jobs[i].(status := Uploading)];
      }
      worker := Starting(worker.id);
    }

    /** The thread that polls the progress exists. */
    method LaunchPoller()
      requires Valid() && worker.Starting?
      modifies this
      ensures Valid() && Now() == Apply(old(Now()), Launch)
    {
      hide Inv;
      ApplyKeepsInv(Now(), Launch);
      worker := Running(worker.id);
    }

    method ReportProgress(p: real)
      requires Valid() && worker.Running?
      modifies this
      ensures Valid() && Now() == Apply(old(Now()), Report(p))
    {
      hide Inv, AnyStatus;
      ApplyKeepsInv(Now(), Report(p));
      var i := Find(worker.id, AnyStatus());
      if i < |jobs| {
        jobs := jobs[i := jobs[i].(progress := p)];
      }
    }

    method FinishJob(success: bool)
      requires Valid() && worker.Running?
      modifies this
      ensures Valid() && Now() == Apply(old(Now()), Finish(success))
    {
      hide Inv, AnyStatus;
      ApplyKeepsInv(Now(), Finish(success));
      var i := Find(worker.id, AnyStatus());
      var id := worker.id;
      worker := Idle;
      if i == |jobs| || jobs[i].status == Cancelled || jobs[i].status == Paused {
        return;
      }
      if success {
        jobs := jobs[i := jobs[i].(status := Completed, progress := 1.0)];
      } else {
        var tries := jobs[i].retryCount + 1;
        if tries < MAX_RETRY {
          jobs := jobs[i := jobs[i].(status := Queued, retryCount := tries)];
          queue := queue + [id];
        } else {
          jobs := jobs[i := jobs[i].(status := Failed, retryCount := tries)];
        }
      }
    }

    method FailJob()
      requires Valid() && worker.Starting?
      modifies this
      ensures Valid() && Now() == Apply(old(Now()), Throw)
    {
      hide Inv, AnyStatus;
      ApplyKeepsInv(Now(), Throw);
      var i := Find(worker.id, AnyStatus());
      if i < |jobs| {
        jobs := jobs[i := jobs[i].(status := Failed)];
      }
      worker := Idle;
    }
  }
}
