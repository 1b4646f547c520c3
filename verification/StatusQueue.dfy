/**
 * The update-notice store at the grain of its awaits (apps/extension/shared/update-status.ts).
 * Every operation is a chain of continuations; between any two of them other events may happen.
 * Nothing here says that one operation excludes another: a job starts when the promise that it was
 * chained on has settled, and what that gives is proved.
 */
module StatusQueue {
  import opened Js
  import opened Versions
  import opened StatusStore
  import Runs = StatusRuns

  /** How far an operation has come.  Each stage but the first and last is one await. */
  datatype Stage =
    | Waiting                                       // chained on the promise of the job before
    | ApplyInstalled                                // apply awaits the installed version
    | Reading                                       // storage.get was called
    | GotRead(item: Option<JsValue>)                // storage answered; `None` when it rejected
    | NoticeInstalled(existing: Option<Status>)     // a notice awaits the installed version
    | NoticeReturned(notice: Option<Notice>)        // a dismissal awaits its notice
    | Writing(value: JsValue, reply: Reply)         // storage.set or storage.remove was called
    | Written(reply: Reply)                         // storage answered, or failed silently
    | Settled(reply: Reply)

  datatype Promise = Pending | Fulfilled | Failed

  /**
   * One call of `serializeStatusWrite`.  `after` names the job whose queue promise was `statusWriteQueue` at
   * the call, `None` the resolved promise of the start; `stage` is where `run` is; `queue` is the queue
   * promise that the call puts in place, chained on `run`.
   */
  datatype Job = Job(request: Request, after: Option<nat>, stage: Stage, queue: Promise)

  /** `cell` outlives the worker; `tail` is `statusWriteQueue`, named by the job that made it. */
  datatype Worker = Worker(
    life: Life, cell: JsValue, generation: nat, jobs: seq<Job>, tail: Option<nat>, check: Runs.Check)

  /** `promise.then(onFulfilled, onRejected)`: the handler that runs, once the promise has settled. */
  function Then<T>(promise: Promise, onFulfilled: T, onRejected: T): Option<T> {
    match promise
    case Pending => None
    case Fulfilled => Some(onFulfilled)
    case Failed => Some(onRejected)
  }

  /** The promise that the caller gets: rejected exactly when the operation threw. */
  function RunPromise(stage: Stage): Promise {
    if !stage.Settled? then Pending else if stage.reply.Rejected? then Failed else Fulfilled
  }

  /** The promise that a job was chained on. */
  function Before(w: Worker, job: Job): Promise {
    match job.after
    case None => Fulfilled
    case Some(earlier) => if earlier < |w.jobs| then w.jobs[earlier].queue else Pending
  }

  /** `statusWriteQueue.then(operation, operation)` */
  function Operation(w: Worker, job: Job): Option<Request> {
    Then(Before(w, job), job.request, job.request)
  }

  /** `run.then(() => undefined, () => undefined)`: both handlers return normally. */
  function QueuePromise(stage: Stage): Option<Promise> {
    Then(RunPromise(stage), Fulfilled, Fulfilled)
  }

  datatype Event =
    | Arrive(request: Request)
    | StartCheck
    | Settle(answer: Runs.Answer)
    | Begin(i: nat)
    | ReadServed(i: nat, ok: bool)
    | WriteServed(i: nat, ok: bool)
    | Resume(i: nat)
    | Release(i: nat)                         // the queue promise of job `i` settles
    | Die(landing: Option<nat>, life: Life)   // a write in flight may still land

  predicate Resumable(stage: Stage) {
    stage.ApplyInstalled? || stage.GotRead? || stage.NoticeInstalled? || stage.NoticeReturned? || stage.Written?
  }

  predicate Enabled(w: Worker, e: Event) {
    match e
    case Arrive(request) => !request.Clear?
    case StartCheck => true
    case Settle(_) => w.check.Asking?
    case Begin(i) => i < |w.jobs| && w.jobs[i].stage.Waiting? && Operation(w, w.jobs[i]).Some?
    case ReadServed(i, _) => i < |w.jobs| && w.jobs[i].stage.Reading?
    case WriteServed(i, _) => i < |w.jobs| && w.jobs[i].stage.Writing?
    case Resume(i) => i < |w.jobs| && Resumable(w.jobs[i].stage)
    case Release(i) => i < |w.jobs| && w.jobs[i].queue.Pending? && QueuePromise(w.jobs[i].stage).Some?
    case Die(landing, _) => landing.Some? ==> landing.value < |w.jobs| && w.jobs[landing.value].stage.Writing?
  }

  function Enqueue(w: Worker, request: Request): Worker {
    w.(jobs := w.jobs + [Job(request, w.tail, Waiting, Pending)], tail := Some(|w.jobs|))
  }

  /** The operation's code up to its first await. */
  function Begun(generation: nat, request: Request): Stage {
    match request
    case Apply(_) => ApplyInstalled
    case Clear(expected) => if generation != expected then Settled(Done) else Reading
    case GetNotice => Reading
    case Dismiss(shown) => if NormalizeVersion(Str(shown)).None? then Settled(Done) else Reading
  }

  /** `getUpdateNoticeUnsafe` returns, to the queue or to the dismissal that called it. */
  function ReturnNotice(request: Request, notice: Option<Notice>): Stage {
    if request.Dismiss? then NoticeReturned(notice) else Settled(NoticeIs(notice))
  }

  function AfterRead(life: Life, request: Request, item: Option<JsValue>): Stage {
    match request
    case Apply(version) =>
      if item.None? || NormalizeVersion(version).None? then Settled(Rejected)
      else
        var normalized := NormalizeVersion(version).value;
        var existing := ReadStatus(item.value);
        if Outranked(existing, normalized) then Settled(Refused)
        else Writing(StoredForm(Merged(existing, normalized)), Accepted)
    case Clear(_) =>
      if item.None? || ReadStatus(item.value).None? then Settled(Done) else Writing(Removed(life), Done)
    case _ =>
      if item.None? then ReturnNotice(request, None) else NoticeInstalled(ReadStatus(item.value))
  }

  function AfterNotice(request: Request, notice: Option<Notice>): Stage {
    if !request.Dismiss? || notice.None? || Some(notice.value.version) != NormalizeVersion(Str(request.shown))
    then Settled(Done)
    else Writing(StoredForm(Status(notice.value.version, Some(notice.value.version))), Done)
  }

  /** The operation's code from one await to the next. */
  function Resumed(life: Life, request: Request, stage: Stage): Stage
    requires Resumable(stage)
  {
    match stage
    case ApplyInstalled =>
      if request.Apply? && Eligible(life, request.version) then Reading else Settled(Refused)
    case GotRead(item) => AfterRead(life, request, item)
    case NoticeInstalled(existing) =>
      if Current(life, existing) then ReturnNotice(request, Some(NoticeOf(existing.value)))
      else if existing.Some? then Writing(Removed(life), NoticeIs(None))
      else ReturnNotice(request, None)
    case NoticeReturned(notice) => AfterNotice(request, notice)
    case Written(reply) => if reply.NoticeIs? then ReturnNotice(request, reply.notice) else Settled(reply)
  }

  /** Only the last stretch of an accepted apply moves the generation. */
  function Bump(stage: Stage): nat {
    if stage == Written(Accepted) then 1 else 0
  }

  function SetStage(w: Worker, i: nat, stage: Stage): Worker
    requires i < |w.jobs|
  {
    w.(jobs := w.jobs[i := w.jobs[i].(stage := stage)])
  }

  /** One event; an event that is not enabled changes nothing, so every sequence of events is a run. */
  function Step(w: Worker, e: Event): Worker {
    if !Enabled(w, e) then w
    else
      match e
      case Arrive(request) => Enqueue(w, request)
      case StartCheck => w.(check := Runs.Started(w.check, w.generation))
      case Settle(answer) =>
        var answered := w.(check := Runs.Answered(w.check.captured));
        (match answer
         case UpdateAvailable(version) => Enqueue(answered, Apply(version))
         case NoUpdate => Enqueue(answered, Clear(w.check.captured))
         case Silent => answered)
      case Begin(i) => SetStage(w, i, Begun(w.generation, Operation(w, w.jobs[i]).value))
      case ReadServed(i, ok) => SetStage(w, i, GotRead(if ok then Some(w.cell) else None))
      case WriteServed(i, ok) =>
        SetStage(w, i, Written(w.jobs[i].stage.reply)).(cell := if ok then w.jobs[i].stage.value else w.cell)
      case Resume(i) =>
        SetStage(w, i, Resumed(w.life, w.jobs[i].request, w.jobs[i].stage))
          .(generation := w.generation + Bump(w.jobs[i].stage))
      case Release(i) => w.(jobs := w.jobs[i := w.jobs[i].(queue := QueuePromise(w.jobs[i].stage).value)])
      case Die(landing, life) =>
        var cell := if landing.Some? then w.jobs[landing.value].stage.value else w.cell;
        Worker(life, cell, 0, [], None, Runs.NotStarted)
  }

  function After(w: Worker, events: seq<Event>): Worker {
    if events == [] then w else Step(After(w, events[..|events| - 1]), events[|events| - 1])
  }

  /** The worker after the first `k` events. */
  function At(w: Worker, events: seq<Event>, k: nat): Worker
    requires k <= |events|
  {
    After(w, events[..k])
  }

  lemma AtNext(w: Worker, events: seq<Event>, k: nat)
    requires k < |events|
    ensures At(w, events, k + 1) == Step(At(w, events, k), events[k])
  {
    hide Step;
    assert events[..k + 1][..k] == events[..k];
  }

  /**
   * What the model leaves to the world: any message, any answer while the check is asked, a read that fails or not,
   * a write that lands or is lost, and death at any moment, with or without a write in flight landing.
   */
  lemma WorldIsFree(w: Worker, request: Request, answer: Runs.Answer, i: nat, ok: bool, life: Life)
    ensures !request.Clear? ==> Requested(Step(w, Arrive(request)), |w.jobs|, request)
    ensures w.check.Asking? ==> Enabled(w, Settle(answer))
    ensures i < |w.jobs| && w.jobs[i].stage.Reading? ==>
      && i < |Step(w, ReadServed(i, ok)).jobs|
      && Step(w, ReadServed(i, ok)).jobs[i].stage == GotRead(if ok then Some(w.cell) else None)
    ensures i < |w.jobs| && w.jobs[i].stage.Writing? ==>
      && i < |Step(w, WriteServed(i, ok)).jobs|
      && Step(w, WriteServed(i, ok)).jobs[i].stage == Written(w.jobs[i].stage.reply)
      && Step(w, WriteServed(i, ok)).cell == (if ok then w.jobs[i].stage.value else w.cell)
      && Step(w, Die(Some(i), life)) == Worker(life, w.jobs[i].stage.value, 0, [], None, Runs.NotStarted)
    ensures Step(w, Die(None, life)) == Worker(life, w.cell, 0, [], None, Runs.NotStarted)
  {
    hide Components, Begun, Resumed;
  }

  predicate Requested(w: Worker, i: nat, request: Request) {
    i < |w.jobs| && w.jobs[i].request == request && w.jobs[i].stage.Waiting?
  }

  /** A worker that has just started on whatever is stored. */
  predicate Fresh(w: Worker) {
    w.generation == 0 && w.jobs == [] && w.tail.None? && w.check.NotStarted?
  }

  /** The worker lives on and storage answers well. */
  predicate Works(e: Event) {
    && !e.Die?
    && (e.ReadServed? ==> e.ok)
    && (e.WriteServed? ==> e.ok)
  }

  /* ---------- The promise queue runs one job at a time, in order ---------- */

  /**
   * Each job is chained on the one before it and has moved only if that one's queue promise is settled; no
   * queue promise is ever rejected, and none settles before its job has.
   */
  predicate Chained(w: Worker) {
    && w.tail == (if w.jobs == [] then None else Some(|w.jobs| - 1))
    && (forall i :: 0 <= i < |w.jobs| ==> w.jobs[i].after == if i == 0 then None else Some(i - 1))
    && (forall i :: 0 <= i < |w.jobs| ==>
          w.jobs[i].queue.Pending? || (w.jobs[i].queue.Fulfilled? && w.jobs[i].stage.Settled?))
    && (forall i :: 0 < i < |w.jobs| && !w.jobs[i].stage.Waiting? ==> w.jobs[i - 1].queue.Fulfilled?)
  }

  /** A job that has not settled and may move can go to any stage. */
  lemma StageKeepsChained(w: Worker, i: nat, stage: Stage)
    requires Chained(w) && i < |w.jobs| && !w.jobs[i].stage.Settled?
    requires w.jobs[i].stage.Waiting? ==> Operation(w, w.jobs[i]).Some?
    ensures Chained(SetStage(w, i, stage))
  {
  }

  lemma EnqueueKeepsChained(w: Worker, request: Request)
    requires Chained(w)
    ensures Chained(Enqueue(w, request))
  {
  }

  lemma StepKeepsChained(w: Worker, e: Event)
    requires Chained(w)
    ensures Chained(Step(w, e))
  {
    hide Begun, Resumed, Components;
    if Enabled(w, e) && (e.Begin? || e.Resume? || e.ReadServed? || e.WriteServed?) {
      hide Chained, Operation;
      StageKeepsChained(w, e.i, Step(w, e).jobs[e.i].stage);
      SameJobsChained(SetStage(w, e.i, Step(w, e).jobs[e.i].stage), Step(w, e));
    }
  }

  lemma SameJobsChained(w: Worker, v: Worker)
    requires w.jobs == v.jobs && w.tail == v.tail
    ensures Chained(w) <==> Chained(v)
  {
  }

  lemma {:induction false} RunIsChained(w: Worker, events: seq<Event>)
    requires Fresh(w)
    ensures Chained(After(w, events))
  {
    hide Step;
    if events != [] {
      RunIsChained(w, events[..|events| - 1]);
      StepKeepsChained(After(w, events[..|events| - 1]), events[|events| - 1]);
    }
  }

  /** A job that has started finds every job before it finished. */
  lemma {:induction false} EarlierFinished(w: Worker, i: nat, j: nat)
    requires Chained(w) && i < j < |w.jobs| && !w.jobs[j].stage.Waiting?
    ensures w.jobs[i].queue.Fulfilled? && w.jobs[i].stage.Settled?
  {
    if i + 1 < j {
      EarlierFinished(w, i, j - 1);
    }
  }

  predicate Underway(stage: Stage) { !stage.Waiting? && !stage.Settled? }

  /** In every state of every run at most one operation is under way, and the ones behind it have not started. */
  lemma MutualExclusion(w: Worker, events: seq<Event>, i: nat, j: nat)
    requires Fresh(w)
    requires i < j < |After(w, events).jobs| && Underway(After(w, events).jobs[i].stage)
    ensures After(w, events).jobs[j].stage.Waiting?
  {
    RunIsChained(w, events);
    if !After(w, events).jobs[j].stage.Waiting? {
      EarlierFinished(After(w, events), i, j);
    }
  }

  /**
   * A rejection reaches the caller and nobody else: in every run the queue promise of a job that threw can
   * settle, is then fulfilled, and lets the next job start on its own operation.
   */
  lemma RejectionIsAbsorbed(w: Worker, events: seq<Event>, i: nat)
    requires Fresh(w) && i < |After(w, events).jobs| && RunPromise(After(w, events).jobs[i].stage).Failed?
    ensures
      var now := After(w, events);
      var next := if now.jobs[i].queue.Pending? then Step(now, Release(i)) else now;
      && (now.jobs[i].queue.Pending? ==> Enabled(now, Release(i)))
      && next.jobs[i].queue.Fulfilled?
      && (i + 1 < |next.jobs| && next.jobs[i + 1].stage.Waiting? ==>
            Enabled(next, Begin(i + 1)) && Operation(next, next.jobs[i + 1]) == Some(next.jobs[i + 1].request))
  {
    RunIsChained(w, events);
    StepKeepsChained(After(w, events), Release(i));
  }
}
