/**
 * Every interleaving of the awaits is a run of the one-operation-at-a-time machine: same replies, same
 * generation, same queue, and the same stored item whenever no operation is under way.
 */
module StatusRefinement {
  import opened Js
  import opened Versions
  import opened StatusStore
  import opened StatusQueue
  import Runs = StatusRuns

  /* ---------- One operation ---------- */

  predicate Shown(request: Request) {
    request.Dismiss? ==> NormalizeVersion(Str(request.shown)).Some?
  }

  /** The checks that an operation has passed once it reads the store. */
  predicate Passed(life: Life, generation: nat, request: Request) {
    match request
    case Apply(version) => Eligible(life, version)
    case Clear(expected) => expected == generation
    case GetNotice => true
    case Dismiss(_) => Shown(request)
  }

  /** The whole effect of an operation is what its write does. */
  predicate WriteIsEffect(life: Life, base: JsValue, generation: nat, request: Request, reply: Reply, ok: bool,
                          cell: JsValue) {
    if reply.NoticeIs? then
      && reply.notice.None?
      && (request.GetNotice? || request.Dismiss?) && Shown(request)
      && PerformNotice(life, Core(base, generation), Fate(true, ok)) == (Core(cell, generation), None)
    else
      Perform(life, Core(base, generation), request, Fate(true, ok))
      == (Core(cell, generation + Bump(Written(reply))), reply)
  }

  /**
   * A stage is explained by the item `base` from which the operation started and by what storage has answered
   * it so far: what it has seen is `base`, and the item now is `base` or what the whole operation makes of it.
   */
  predicate Explained(life: Life, base: JsValue, fate: Fate, cell: JsValue, generation: nat, request: Request,
                      stage: Stage) {
    match stage
    case Waiting => cell == base && fate == Fate(true, true)
    case ApplyInstalled => cell == base && fate == Fate(true, true) && request.Apply?
    case Reading => cell == base && fate == Fate(true, true) && Passed(life, generation, request)
    case GotRead(item) =>
      && cell == base && fate.writeOk && Passed(life, generation, request)
      && item == (if fate.readOk then Some(base) else None)
    case NoticeInstalled(existing) =>
      && cell == base && fate == Fate(true, true) && existing == ReadStatus(base)
      && (request.GetNotice? || request.Dismiss?) && Shown(request)
    case NoticeReturned(notice) =>
      && request.Dismiss? && Shown(request) && (notice.Some? ==> fate == Fate(true, true))
      && PerformNotice(life, Core(base, generation), fate) == (Core(cell, generation), notice)
    case Writing(value, reply) =>
      && cell == base && fate == Fate(true, true)
      && WriteIsEffect(life, base, generation, request, reply, true, value)
      && WriteIsEffect(life, base, generation, request, reply, false, base)
    case Written(reply) => fate.readOk && WriteIsEffect(life, base, generation, request, reply, fate.writeOk, cell)
    case Settled(_) => false
  }

  /** The operation is over: it did what the whole operation does with this fate. */
  predicate Performed(life: Life, base: JsValue, fate: Fate, cell: JsValue, before: nat, after: nat,
                      request: Request, reply: Reply) {
    Perform(life, Core(base, before), request, fate) == (Core(cell, after), reply)
  }

  lemma BeginExplained(life: Life, base: JsValue, generation: nat, request: Request)
    ensures
      var stage, fate := Begun(generation, request), Fate(true, true);
      if stage.Settled? then Performed(life, base, fate, base, generation, generation, request, stage.reply)
      else Explained(life, base, fate, base, generation, request, stage)
  {
    hide Components, Eligible, ReadStatus, Current;
  }

  lemma AfterReadExplained(life: Life, base: JsValue, fate: Fate, generation: nat, request: Request,
                           item: Option<JsValue>)
    requires Explained(life, base, fate, base, generation, request, GotRead(item))
    ensures
      var stage := AfterRead(life, request, item);
      if stage.Settled? then Performed(life, base, fate, base, generation, generation, request, stage.reply)
      else Explained(life, base, fate, base, generation, request, stage)
  {
    hide Components, ReadStatus, NewerThan, Installed, Current;
    if request.Dismiss? && item.None? {
      assert PerformNotice(life, Core(base, generation), fate) == (Core(base, generation), None);
    }
  }

  lemma NoticeInstalledExplained(life: Life, base: JsValue, generation: nat, request: Request)
    requires (request.GetNotice? || request.Dismiss?) && Shown(request)
    ensures
      var stage, fate := Resumed(life, request, NoticeInstalled(ReadStatus(base))), Fate(true, true);
      if stage.Settled? then Performed(life, base, fate, base, generation, generation, request, stage.reply)
      else Explained(life, base, fate, base, generation, request, stage)
  {
    hide Components, ReadStatus, Current, NormalizeVersion;
  }

  lemma NoticeReturnedExplained(life: Life, base: JsValue, fate: Fate, cell: JsValue, generation: nat,
                                request: Request, notice: Option<Notice>)
    requires Explained(life, base, fate, cell, generation, request, NoticeReturned(notice))
    ensures
      var stage := AfterNotice(request, notice);
      if stage.Settled? then Performed(life, base, fate, cell, generation, generation, request, stage.reply)
      else Explained(life, base, fate, cell, generation, request, stage)
  {
    hide Components, ReadStatus, Current, NormalizeVersion;
    if !AfterNotice(request, notice).Settled? {
      assert cell == base;
      assert PerformNotice(life, Core(base, generation), Fate(true, false)) == (Core(base, generation), notice);
    }
  }

  lemma WrittenExplained(life: Life, base: JsValue, fate: Fate, cell: JsValue, generation: nat, request: Request,
                         reply: Reply)
    requires Explained(life, base, fate, cell, generation, request, Written(reply))
    ensures
      var stage := Resumed(life, request, Written(reply));
      if stage.Settled? then
        Performed(life, base, fate, cell, generation, generation + Bump(Written(reply)), request, stage.reply)
      else Bump(Written(reply)) == 0 && Explained(life, base, fate, cell, generation, request, stage)
  {
    hide Components, ReadStatus, Current, NormalizeVersion, PerformApply, PerformClear, PerformNotice, PerformDismiss;
  }

  /**
   * One stretch of code between awaits: the operation is still explained, or it has done what it does as a
   * whole with the answers that storage gave it.
   */
  lemma ResumeExplained(life: Life, base: JsValue, fate: Fate, cell: JsValue, generation: nat, request: Request,
                        stage: Stage)
    requires Resumable(stage) && Explained(life, base, fate, cell, generation, request, stage)
    ensures
      var next := Resumed(life, request, stage);
      if next.Settled? then
        Performed(life, base, fate, cell, generation, generation + Bump(stage), request, next.reply)
      else Bump(stage) == 0 && Explained(life, base, fate, cell, generation, request, next)
  {
    hide Components, ReadStatus, Current, NormalizeVersion;
    match stage
    case ApplyInstalled =>
    case GotRead(item) => AfterReadExplained(life, base, fate, generation, request, item);
    case NoticeInstalled(_) => NoticeInstalledExplained(life, base, generation, request);
    case NoticeReturned(notice) => NoticeReturnedExplained(life, base, fate, cell, generation, request, notice);
    case Written(reply) => WrittenExplained(life, base, fate, cell, generation, request, reply);
  }

  /** At every await the stored item is what it was before the operation or what the whole operation leaves. */
  lemma BeforeOrAfter(life: Life, base: JsValue, fate: Fate, cell: JsValue, generation: nat, request: Request,
                      stage: Stage)
    requires Explained(life, base, fate, cell, generation, request, stage)
    ensures cell == base || cell == Perform(life, Core(base, generation), request, fate).0.cell
  {
    hide Components, ReadStatus, Current, NormalizeVersion;
    if stage.Written? {
      WrittenCell(life, base, generation, request, stage.reply, fate.writeOk, cell);
    }
  }

  lemma WrittenCell(life: Life, base: JsValue, generation: nat, request: Request, reply: Reply, ok: bool, cell: JsValue)
    requires WriteIsEffect(life, base, generation, request, reply, ok, cell)
    ensures Perform(life, Core(base, generation), request, Fate(true, ok)).0.cell == cell
  {
    hide Components, ReadStatus, Current, NormalizeVersion, PerformNotice;
  }

  /* ---------- What a run amounts to in whole operations ---------- */

  /** How many operations are over, the item they left, and what storage has answered the one under way. */
  datatype Progress = Progress(over: nat, base: JsValue, fate: Fate)

  function Start(w: Worker): Progress {
    Progress(0, w.cell, Fate(true, true))
  }

  /** An operation is over at the event with which its promise settles. */
  predicate Finishes(w: Worker, e: Event) {
    (e.Begin? || e.Resume?) && Enabled(w, e) && Step(w, e).jobs[e.i].stage.Settled?
  }

  function Advanced(w: Worker, p: Progress, e: Event): Progress {
    if !Enabled(w, e) then p
    else if Finishes(w, e) then Progress(p.over + 1, w.cell, Fate(true, true))
    else
      match e
      case ReadServed(_, ok) => p.(fate := p.fate.(readOk := ok))
      case WriteServed(_, ok) => p.(fate := p.fate.(writeOk := ok))
      case Die(_, _) => Start(Step(w, e))
      case _ => p
  }

  /** Whether the operation under way has had its effect when the worker dies. */
  function Cut(w: Worker, p: Progress, landing: Option<nat>): Option<Fate> {
    if landing.Some? || w.cell != p.base then Some(p.fate) else None
  }

  /** What an event amounts to: an operation runs, with the answers that storage gave it, when it is over. */
  function WholeEvent(w: Worker, p: Progress, e: Event): Runs.Event {
    match e
    case Arrive(request) => Runs.Arrive(request)
    case StartCheck => Runs.StartCheck
    case Settle(answer) => Runs.Settle(answer)
    case Die(landing, life) => if Enabled(w, e) then Runs.Die(Cut(w, p, landing), life) else Runs.Stutter
    case _ => if Finishes(w, e) then Runs.Next(p.fate) else Runs.Stutter
  }

  function Reached(w: Worker, events: seq<Event>): Progress {
    if events == [] then Start(w)
    else
      var prefix := events[..|events| - 1];
      Advanced(StatusQueue.After(w, prefix), Reached(w, prefix), events[|events| - 1])
  }

  function Wholes(w: Worker, events: seq<Event>): (wholes: seq<Runs.Event>)
    ensures |wholes| == |events|
  {
    if events == [] then []
    else
      var prefix := events[..|events| - 1];
      Wholes(w, prefix) + [WholeEvent(StatusQueue.After(w, prefix), Reached(w, prefix), events[|events| - 1])]
  }

  lemma {:induction false} WholesPrefix(w: Worker, events: seq<Event>, k: nat)
    requires k <= |events|
    ensures Wholes(w, events)[..k] == Wholes(w, events[..k])
    ensures k < |events| ==> Wholes(w, events)[k] == WholeEvent(At(w, events, k), Reached(w, events[..k]), events[k])
  {
    hide WholeEvent, Reached, StatusQueue.After;
    if k == |events| {
      assert events[..k] == events;
    } else {
      var prefix := events[..|events| - 1];
      WholesPrefix(w, prefix, k);
      assert prefix[..k] == events[..k];
    }
  }

  /* ---------- The coupling of the two machines ---------- */

  function Requests(jobs: seq<Job>): seq<Request> {
    seq(|jobs|, i requires 0 <= i < |jobs| => jobs[i].request)
  }

  function Replies(jobs: seq<Job>): seq<Reply> {
    seq(|jobs|, i requires 0 <= i < |jobs| => if jobs[i].stage.Settled? then jobs[i].stage.reply else Done)
  }

  /** The first `n` jobs are over, job `n` (if any) is next or under way, the rest wait. */
  predicate Frontier(jobs: seq<Job>, n: nat) {
    && n <= |jobs|
    && (forall i :: 0 <= i < n ==> jobs[i].stage.Settled?)
    && (n < |jobs| ==> !jobs[n].stage.Settled?)
    && (forall i :: n < i < |jobs| ==> jobs[i].stage.Waiting?)
  }

  /**
   * The operations that count as over are, and the one at the frontier is explained; if there is none, nothing
   * is open.
   */
  predicate Coupled(w: Worker, p: Progress) {
    && Chained(w)
    && Frontier(w.jobs, p.over)
    && if p.over < |w.jobs| then
         Explained(w.life, p.base, p.fate, w.cell, w.generation, w.jobs[p.over].request, w.jobs[p.over].stage)
       else w.cell == p.base && p.fate == Fate(true, true)
  }

  /** The machine that has performed those operations whole: the others are pending, and the item is what they left. */
  function Whole(w: Worker, p: Progress): Runs.Machine
    requires p.over <= |w.jobs|
  {
    Runs.Machine(w.life, Core(p.base, w.generation), Requests(w.jobs[p.over..]), Replies(w.jobs[..p.over]), w.check)
  }

  lemma EnqueueCoupled(w: Worker, p: Progress, request: Request)
    requires Coupled(w, p)
    ensures Coupled(Enqueue(w, request), p)
    ensures
      var whole := Whole(w, p);
      Whole(Enqueue(w, request), p) == whole.(pending := whole.pending + [request])
  {
    hide Chained, Passed, Shown, WriteIsEffect, PerformNotice, ReadStatus;
    var jobs := Enqueue(w, request).jobs;
    EnqueueKeepsChained(w, request);
    assert jobs[p.over..] == w.jobs[p.over..] + [jobs[|w.jobs|]];
    assert jobs[..p.over] == w.jobs[..p.over];
  }

  /** A job that moves is the one at the frontier. */
  lemma MoverIsFrontier(w: Worker, n: nat, i: nat)
    requires Chained(w) && Frontier(w.jobs, n) && i < |w.jobs| && !w.jobs[i].stage.Settled?
    requires w.jobs[i].stage.Waiting? ==> Enabled(w, Begin(i))
    ensures i == n
  {
  }

  /** The job at the frontier goes on but is not over: nothing changes for the whole-operation machine. */
  lemma StageCoupled(w: Worker, p: Progress, cell: JsValue, fate: Fate, stage: Stage)
    requires Coupled(w, p) && p.over < |w.jobs| && !stage.Settled? && !stage.Waiting?
    requires Chained(SetStage(w, p.over, stage).(cell := cell))
    requires Explained(w.life, p.base, fate, cell, w.generation, w.jobs[p.over].request, stage)
    ensures Coupled(SetStage(w, p.over, stage).(cell := cell), p.(fate := fate))
    ensures Whole(SetStage(w, p.over, stage).(cell := cell), p.(fate := fate)) == Whole(w, p)
  {
    hide Explained, Chained;
    var jobs := SetStage(w, p.over, stage).jobs;
    assert jobs[..p.over] == w.jobs[..p.over];
    assert Requests(jobs[p.over..]) == Requests(w.jobs[p.over..]);
  }

  /** The job at the frontier is over: the whole-operation machine performs it. */
  lemma SettleCoupled(w: Worker, p: Progress, generation: nat, reply: Reply)
    requires Coupled(w, p) && p.over < |w.jobs|
    requires Chained(SetStage(w, p.over, Settled(reply)).(generation := generation))
    requires Performed(w.life, p.base, p.fate, w.cell, w.generation, generation, w.jobs[p.over].request, reply)
    ensures
      var after := SetStage(w, p.over, Settled(reply)).(generation := generation);
      var next := Progress(p.over + 1, w.cell, Fate(true, true));
      && Coupled(after, next)
      && Runs.Step(Whole(w, p), Runs.Next(p.fate)) == Whole(after, next)
  {
    hide Components, Perform, Chained;
    var n := p.over;
    var after := SetStage(w, n, Settled(reply)).(generation := generation);
    assert Requests(w.jobs[n..])[0] == w.jobs[n].request;
    assert Requests(after.jobs[n + 1..]) == Requests(w.jobs[n..])[1..];
    assert Replies(after.jobs[..n + 1]) == Replies(w.jobs[..n]) + [reply];
    if n + 1 < |w.jobs| {
      assert after.jobs[n + 1].stage.Waiting?;
    }
  }

  /** A death leaves the item that whole operations leave, without or with the one under way. */
  lemma DeathCoupled(w: Worker, p: Progress, landing: Option<nat>, life: Life)
    requires Coupled(w, p) && Enabled(w, Die(landing, life))
    ensures Cut(w, p, landing).Some? ==> p.over < |w.jobs|
    ensures
      var next, cut := Step(w, Die(landing, life)), Cut(w, p, landing);
      && next.cell == (if cut.None? then p.base
                       else Perform(w.life, Core(p.base, w.generation), w.jobs[p.over].request, cut.value).0.cell)
      && Coupled(next, Start(next))
      && Runs.Step(Whole(w, p), Runs.Die(cut, life)) == Whole(next, Start(next))
  {
    hide Components, Perform, ReadStatus, Current;
    if p.over < |w.jobs| {
      var job := w.jobs[p.over];
      assert Requests(w.jobs[p.over..])[0] == job.request;
      if landing.Some? {
        MoverIsFrontier(w, p.over, landing.value);
        WrittenCell(w.life, p.base, w.generation, job.request, job.stage.reply, true, job.stage.value);
      } else {
        BeforeOrAfter(w.life, p.base, p.fate, w.cell, w.generation, job.request, job.stage);
      }
    }
  }

  /** One event of the first machine is, through `WholeEvent`, an event of the second. */
  predicate Refines(w: Worker, p: Progress, e: Event)
    requires p.over <= |w.jobs|
  {
    && Coupled(Step(w, e), Advanced(w, p, e))
    && Runs.Step(Whole(w, p), WholeEvent(w, p, e)) == Whole(Step(w, e), Advanced(w, p, e))
  }

  lemma ArriveRefines(w: Worker, p: Progress, request: Request)
    requires Coupled(w, p)
    ensures Refines(w, p, Arrive(request))
  {
    hide Explained, Chained;
    EnqueueCoupled(w, p, request);
  }

  lemma SettleRefines(w: Worker, p: Progress, answer: Runs.Answer)
    requires Coupled(w, p)
    ensures Refines(w, p, Settle(answer))
  {
    hide Explained, Chained;
    if w.check.Asking? {
      var answered := w.(check := Runs.Answered(w.check.captured));
      assert Coupled(answered, p) by { SameJobsChained(w, answered); }
      match answer
      case UpdateAvailable(version) => EnqueueCoupled(answered, p, Apply(version));
      case NoUpdate => EnqueueCoupled(answered, p, Clear(w.check.captured));
      case Silent =>
        assert Whole(w, p).pending + [] == Whole(w, p).pending;
    }
  }

  lemma CheckRefines(w: Worker, p: Progress)
    requires Coupled(w, p)
    ensures Refines(w, p, StartCheck)
  {
    hide Explained, Chained, Frontier;
    SameJobsChained(w, Step(w, StartCheck));
  }

  lemma DisabledRefines(w: Worker, p: Progress, e: Event)
    requires Coupled(w, p) && !Enabled(w, e)
    ensures Refines(w, p, e)
  {
    hide Explained, Chained, Frontier;
  }

  lemma FrontierOf(w: Worker, p: Progress, e: Event)
    requires Coupled(w, p) && Enabled(w, e)
    requires e.Begin? || e.Resume? || e.ReadServed? || e.WriteServed?
    ensures e.i == p.over && p.over < |w.jobs|
  {
    hide Explained;
    MoverIsFrontier(w, p.over, e.i);
  }

  lemma StepRefines(w: Worker, p: Progress, e: Event)
    requires Coupled(w, p)
    ensures Refines(w, p, e)
  {
    hide Coupled, Whole, Step, Runs.Step, Refines, Enabled;
    if !Enabled(w, e) {
      DisabledRefines(w, p, e);
    } else {
      match e
      case Arrive(request) => ArriveRefines(w, p, request);
      case StartCheck => CheckRefines(w, p);
      case Settle(answer) => SettleRefines(w, p, answer);
      case Begin(_) => BeginRefines(w, p, e);
      case Resume(_) => ResumeRefines(w, p, e);
      case ReadServed(_, _) => ServeRefines(w, p, e);
      case WriteServed(_, _) => ServeRefines(w, p, e);
      case Release(_) => ReleaseRefines(w, p, e);
      case Die(landing, life) => DeathRefines(w, p, landing, life);
    }
  }

  lemma DeathRefines(w: Worker, p: Progress, landing: Option<nat>, life: Life)
    requires Coupled(w, p) && Enabled(w, Die(landing, life))
    ensures Refines(w, p, Die(landing, life))
  {
    hide Coupled, Whole, Step, Runs.Step;
    DeathCoupled(w, p, landing, life);
  }

  lemma BeginRefines(w: Worker, p: Progress, e: Event)
    requires Coupled(w, p) && e.Begin? && Enabled(w, e)
    ensures Refines(w, p, e)
  {
    hide Components, NormalizeVersion, Perform, Chained, Performed;
    FrontierOf(w, p, e);
    StepKeepsChained(w, e);
    BeginExplained(w.life, p.base, w.generation, w.jobs[p.over].request);
    var stage := Begun(w.generation, w.jobs[p.over].request);
    if stage.Settled? {
      SettleCoupled(w, p, w.generation, stage.reply);
    } else {
      StageCoupled(w, p, w.cell, p.fate, stage);
    }
  }

  lemma ResumeRefines(w: Worker, p: Progress, e: Event)
    requires Coupled(w, p) && e.Resume? && Enabled(w, e)
    ensures Refines(w, p, e)
  {
    hide Components, NormalizeVersion, Perform, Chained, Performed, Explained, Resumed;
    FrontierOf(w, p, e);
    StepKeepsChained(w, e);
    var job := w.jobs[p.over];
    var stage := Resumed(w.life, job.request, job.stage);
    ResumeExplained(w.life, p.base, p.fate, w.cell, w.generation, job.request, job.stage);
    if stage.Settled? {
      SettleCoupled(w, p, w.generation + Bump(job.stage), stage.reply);
    } else {
      NeverWaitsAgain(w.life, job.request, job.stage);
      StageCoupled(w, p, w.cell, p.fate, stage);
    }
  }

  lemma NeverWaitsAgain(life: Life, request: Request, stage: Stage)
    requires Resumable(stage)
    ensures !Resumed(life, request, stage).Waiting?
  {
    hide Components, NormalizeVersion, Eligible, ReadStatus, Current, Outranked;
  }

  lemma ServeRefines(w: Worker, p: Progress, e: Event)
    requires Coupled(w, p) && (e.ReadServed? || e.WriteServed?) && Enabled(w, e)
    ensures Refines(w, p, e)
  {
    hide Components, NormalizeVersion, Perform, Chained, Passed, WriteIsEffect;
    FrontierOf(w, p, e);
    StepKeepsChained(w, e);
    var after := Step(w, e);
    StageCoupled(w, p, after.cell, Advanced(w, p, e).fate, after.jobs[p.over].stage);
  }

  lemma ReleaseRefines(w: Worker, p: Progress, e: Event)
    requires Coupled(w, p) && e.Release? && Enabled(w, e)
    ensures Refines(w, p, e)
  {
    hide Components, Explained, Chained;
    StepKeepsChained(w, e);
    var n, after := p.over, Step(w, e);
    assert e.i < n;
    assert after.jobs[n..] == w.jobs[n..];
    assert Replies(after.jobs[..n]) == Replies(w.jobs[..n]);
  }

  lemma {:induction false} Simulated(w: Worker, events: seq<Event>)
    requires Fresh(w)
    ensures Coupled(StatusQueue.After(w, events), Reached(w, events))
    ensures Runs.After(Whole(w, Start(w)), Wholes(w, events)) == Whole(StatusQueue.After(w, events), Reached(w, events))
  {
    hide Step, Explained, WholeEvent, Advanced;
    if events != [] {
      var prefix, e := events[..|events| - 1], events[|events| - 1];
      Simulated(w, prefix);
      StepRefines(StatusQueue.After(w, prefix), Reached(w, prefix), e);
      assert Wholes(w, events)[..|events| - 1] == Wholes(w, prefix);
    }
  }

  /**
   * Every run of the workers, through every interleaving, lost write and death, is a run of whole operations,
   * event for event.  At each moment `k` the second machine has performed exactly the operations that are over,
   * each with the answers that storage gave it: same replies, generation, queue and check, and the same stored
   * item whenever no operation is under way.
   */
  lemma RunRefines(w: Worker, events: seq<Event>)
    requires Fresh(w)
    ensures forall k :: 0 <= k <= |events| ==>
      && Coupled(At(w, events, k), Reached(w, events[..k]))
      && Runs.After(Whole(w, Start(w)), Wholes(w, events)[..k]) == Whole(At(w, events, k), Reached(w, events[..k]))
  {
    hide Explained, Chained, Requests, Replies, Wholes, Reached, StatusQueue.After, Runs.After;
    forall k | 0 <= k <= |events|
      ensures
        && Coupled(At(w, events, k), Reached(w, events[..k]))
        && Runs.After(Whole(w, Start(w)), Wholes(w, events)[..k]) == Whole(At(w, events, k), Reached(w, events[..k]))
    {
      Simulated(w, events[..k]);
      WholesPrefix(w, events, k);
    }
  }
}
