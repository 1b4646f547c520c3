/**
 * What every interleaving of the update-notice store keeps: the fence against late answers, deaths at
 * any await, progress of the queue, and the generation counter
 * (apps/extension/shared/update-status.ts).
 */
module StatusSafety {
  import opened Js
  import opened Versions
  import opened StatusStore
  import opened StatusQueue
  import opened StatusRefinement
  import Runs = StatusRuns

  /* ---------- The fence ---------- */

  predicate WillAccept(stage: Stage) { (stage.Writing? || stage.Written?) && stage.reply == Accepted }

  /**
   * Every removal asked for by the check carries the captured generation, and is under way only while that is
   * current.
   */
  predicate Fenced(w: Worker) {
    && (!w.check.NotStarted? ==> w.check.captured <= w.generation)
    && (forall i :: 0 <= i < |w.jobs| && w.jobs[i].request.Clear? ==>
          !w.check.NotStarted? && w.jobs[i].request.expected == w.check.captured)
    && (forall i :: 0 <= i < |w.jobs| && w.jobs[i].request.Clear? && Underway(w.jobs[i].stage) ==>
          w.jobs[i].request.expected == w.generation)
    && (forall i :: 0 <= i < |w.jobs| && WillAccept(w.jobs[i].stage) ==> w.jobs[i].request.Apply?)
  }

  /** Only the code of an apply goes on to a write that accepts. */
  lemma OnlyApplyAccepts(life: Life, request: Request, stage: Stage)
    requires Resumable(stage)
    ensures WillAccept(Resumed(life, request, stage)) ==> request.Apply?
  {
    hide Components, NormalizeVersion, Eligible, ReadStatus, Current, Outranked, Merged;
  }

  lemma OtherNotUnderway(w: Worker, i: nat, j: nat)
    requires Chained(w) && i < |w.jobs| && j < |w.jobs| && i != j && Underway(w.jobs[i].stage)
    ensures !Underway(w.jobs[j].stage)
  {
    if Underway(w.jobs[j].stage) {
      if i < j {
        EarlierFinished(w, i, j);
      } else {
        EarlierFinished(w, j, i);
      }
    }
  }

  lemma StepKeepsFenced(w: Worker, e: Event)
    requires Chained(w) && Fenced(w)
    ensures Fenced(Step(w, e))
  {
    hide Components, NormalizeVersion, Resumed, Chained;
    if Enabled(w, e) && e.Resume? {
      OnlyApplyAccepts(w.life, w.jobs[e.i].request, w.jobs[e.i].stage);
      forall j | 0 <= j < |w.jobs| && j != e.i ensures !Underway(w.jobs[j].stage) {
        OtherNotUnderway(w, e.i, j);
      }
    }
  }

  lemma {:induction false} RunIsFenced(w: Worker, events: seq<Event>)
    requires Fresh(w)
    ensures Fenced(StatusQueue.After(w, events))
  {
    hide Step, Fenced, Chained;
    if events == [] {
      assert Fenced(w) by { FreshIsFenced(w); }
    } else {
      RunIsFenced(w, events[..|events| - 1]);
      RunIsChained(w, events[..|events| - 1]);
      StepKeepsFenced(StatusQueue.After(w, events[..|events| - 1]), events[|events| - 1]);
    }
  }

  lemma FreshIsFenced(w: Worker)
    requires Fresh(w)
    ensures Fenced(w)
  {
  }

  /** The event with which an apply is accepted: its last stretch runs and moves the generation. */
  predicate Accepts(w: Worker, e: Event) {
    e.Resume? && Enabled(w, e) && w.jobs[e.i].stage == Written(Accepted)
  }

  lemma StepInLife(w: Worker, e: Event)
    requires !e.Die?
    ensures Step(w, e).generation == w.generation + if Accepts(w, e) then 1 else 0
    ensures !w.check.NotStarted? ==>
      !Step(w, e).check.NotStarted? && Step(w, e).check.captured == w.check.captured
    ensures e.StartCheck? ==> !Step(w, e).check.NotStarted?
  {
    hide Components, NormalizeVersion, Resumed, Begun;
  }

  /** Within a life the captured generation stays and the current one never goes down. */
  lemma {:induction false} LaterInLife(w: Worker, events: seq<Event>, i: nat, j: nat)
    requires i <= j <= |events| && forall k :: i <= k < j ==> !events[k].Die?
    requires !At(w, events, i).check.NotStarted?
    ensures !At(w, events, j).check.NotStarted?
    ensures At(w, events, j).check.captured == At(w, events, i).check.captured
    ensures At(w, events, i).generation <= At(w, events, j).generation
    decreases j
  {
    hide Step, StatusQueue.After;
    if i < j {
      LaterInLife(w, events, i, j - 1);
      AtNext(w, events, j - 1);
      StepInLife(At(w, events, j - 1), events[j - 1]);
    }
  }

  /**
   * The fence: if an apply is accepted after the check was asked, whether or not it was already queued or
   * half done then, no removal from that check is or gets under way, so none reaches the stored item.
   */
  lemma FenceHolds(w: Worker, events: seq<Event>, asked: nat, accepted: nat, late: nat)
    requires Fresh(w) && asked < accepted < late <= |events|
    requires events[asked].StartCheck? && Accepts(At(w, events, accepted), events[accepted])
    requires forall k :: asked <= k < late ==> !events[k].Die?
    ensures
      var now := At(w, events, late);
      forall i :: 0 <= i < |now.jobs| && now.jobs[i].request.Clear? ==>
        && !Underway(now.jobs[i].stage)
        && Begun(now.generation, now.jobs[i].request) == Settled(Done)
  {
    hide Step, StatusQueue.After, Components;
    AtNext(w, events, asked);
    StepInLife(At(w, events, asked), events[asked]);
    LaterInLife(w, events, asked + 1, accepted);
    AtNext(w, events, accepted);
    StepInLife(At(w, events, accepted), events[accepted]);
    LaterInLife(w, events, accepted + 1, late);
    RunIsFenced(w, events[..accepted]);
    RunIsFenced(w, events[..late]);
  }

  /** The job whose write an event brings to the store. */
  function Writer(e: Event): Option<nat> {
    match e
    case WriteServed(i, ok) => if ok then Some(i) else None
    case Die(landing, _) => landing
    case _ => None
  }

  /** Only a write that was called for can change the stored item. */
  lemma OnlyWritersChange(w: Worker, e: Event)
    requires Step(w, e).cell != w.cell
    ensures Writer(e).Some? && Writer(e).value < |w.jobs| && w.jobs[Writer(e).value].stage.Writing?
  {
    hide Components, Resumed, Begun;
  }

  /**
   * A late "no update" answer is harmless: after an apply accepted since the check was asked, whatever
   * changes the stored item, even at the worker's death, is not a removal from that check.
   */
  lemma LateAnswerHarmless(w: Worker, events: seq<Event>, asked: nat, accepted: nat, late: nat)
    requires Fresh(w) && asked < accepted < late < |events|
    requires events[asked].StartCheck? && Accepts(At(w, events, accepted), events[accepted])
    requires forall k :: asked <= k < late ==> !events[k].Die?
    requires At(w, events, late + 1).cell != At(w, events, late).cell
    ensures Writer(events[late]).Some? && Writer(events[late]).value < |At(w, events, late).jobs|
    ensures !At(w, events, late).jobs[Writer(events[late]).value].request.Clear?
  {
    hide Step, StatusQueue.After, Components;
    AtNext(w, events, late);
    OnlyWritersChange(At(w, events, late), events[late]);
    FenceHolds(w, events, asked, accepted, late);
  }

  /* ---------- Deaths ---------- */

  /**
   * Whenever the worker dies, and whether or not a write in flight still lands: the operations that were over
   * have run whole, each with the answers that storage gave it, and the next life starts from the item they
   * left, without or with the whole effect of the one operation that was under way.
   */
  lemma DeathIsAtomic(w: Worker, events: seq<Event>, landing: Option<nat>, life: Life)
    requires Fresh(w) && Enabled(StatusQueue.After(w, events), Die(landing, life))
    ensures
      var now, p := StatusQueue.After(w, events), Reached(w, events);
      var next, cut := Step(now, Die(landing, life)), Cut(now, p, landing);
      && Coupled(now, p)
      && Runs.After(Whole(w, Start(w)), Wholes(w, events)) == Whole(now, p)
      && (cut.Some? ==> p.over < |now.jobs|)
      && next.cell == (if cut.None? then p.base
                       else Perform(now.life, Core(p.base, now.generation), now.jobs[p.over].request, cut.value).0.cell)
      && Runs.Step(Whole(now, p), Runs.Die(cut, life)) == Whole(next, Start(next))
      && Fresh(next) && next.life == life
  {
    hide Components, Perform, Explained, Chained, Wholes, Reached, StatusQueue.After, Runs.After;
    Simulated(w, events);
    DeathCoupled(StatusQueue.After(w, events), Reached(w, events), landing, life);
  }

  /* ---------- Progress ---------- */

  /** How many internal events a job can still need. */
  function JobWork(job: Job): nat {
    match job.stage
    case Waiting => 11
    case ApplyInstalled => 10
    case Reading => 9
    case GotRead(_) => 8
    case NoticeInstalled(_) => 7
    case NoticeReturned(_) => 4
    case Writing(_, reply) => if reply.NoticeIs? then 6 else 3
    case Written(reply) => if reply.NoticeIs? then 5 else 2
    case Settled(_) => if job.queue.Pending? then 1 else 0
  }

  function Work(jobs: seq<Job>): nat {
    if jobs == [] then 0 else Work(jobs[..|jobs| - 1]) + JobWork(jobs[|jobs| - 1])
  }

  lemma {:induction false} WorkUpdate(jobs: seq<Job>, i: nat, job: Job)
    requires i < |jobs|
    ensures Work(jobs[i := job]) == Work(jobs) - JobWork(jobs[i]) + JobWork(job)
  {
    hide JobWork;
    var n := |jobs| - 1;
    if i < n {
      WorkUpdate(jobs[..n], i, job);
      assert jobs[i := job][..n] == jobs[..n][i := job];
    } else {
      assert jobs[i := job][..n] == jobs[..n];
    }
  }

  /** The events that the queue produces by itself, given that storage answers. */
  predicate Internal(e: Event) {
    e.Begin? || e.ReadServed? || e.WriteServed? || e.Resume? || e.Release?
  }

  lemma ResumeWork(life: Life, request: Request, stage: Stage)
    requires Resumable(stage)
    ensures JobWork(Job(request, None, Resumed(life, request, stage), Pending))
          < JobWork(Job(request, None, stage, Pending))
  {
    hide Components, NormalizeVersion, Eligible, ReadStatus, Current, Outranked, Merged;
  }

  /** Every internal event leaves strictly less to do. */
  lemma InternalDecreases(w: Worker, e: Event)
    requires Internal(e) && Enabled(w, e) && Chained(w)
    ensures Work(Step(w, e).jobs) < Work(w.jobs)
  {
    hide Components, NormalizeVersion, Resumed, Work;
    var job := w.jobs[e.i];
    WorkUpdate(w.jobs, e.i, Step(w, e).jobs[e.i]);
    assert Step(w, e).jobs == w.jobs[e.i := Step(w, e).jobs[e.i]];
    if e.Resume? {
      ResumeWork(w.life, job.request, job.stage);
    }
  }

  predicate AllOver(w: Worker) {
    forall i :: 0 <= i < |w.jobs| ==> w.jobs[i].stage.Settled? && w.jobs[i].queue.Fulfilled?
  }

  /** Unless every operation has settled, something can still happen, whatever the others replied. */
  lemma NeverStuck(w: Worker) returns (e: Event)
    requires Chained(w) && !AllOver(w)
    ensures Internal(e) && Enabled(w, e) && Works(e)
  {
    var i: nat := 0;
    while w.jobs[i].queue.Fulfilled?
      invariant exists k :: i <= k < |w.jobs| && !w.jobs[k].queue.Fulfilled?
      invariant forall k :: 0 <= k < i ==> w.jobs[k].queue.Fulfilled?
      decreases |w.jobs| - i
    {
      i := i + 1;
    }
    e := match w.jobs[i].stage
      case Waiting => Begin(i)
      case Reading => ReadServed(i, true)
      case Writing(_, _) => WriteServed(i, true)
      case Settled(_) => Release(i)
      case _ => Resume(i);
  }

  /** From every state of every run the queue can drain, within the work left, and every operation settles. */
  lemma {:induction false} QueueDrains(w: Worker) returns (rest: seq<Event>)
    requires Chained(w)
    ensures |rest| <= Work(w.jobs) && forall i :: 0 <= i < |rest| ==> Internal(rest[i]) && Works(rest[i])
    ensures AllOver(StatusQueue.After(w, rest)) && |StatusQueue.After(w, rest).jobs| == |w.jobs|
    decreases Work(w.jobs)
  {
    hide Step, Work, Chained, AllOver;
    if AllOver(w) {
      return [];
    }
    var e := NeverStuck(w);
    InternalDecreases(w, e);
    StepKeepsChained(w, e);
    InternalKeepsCount(w, e);
    var later := QueueDrains(Step(w, e));
    AfterFirst(w, e, later);
    rest := [e] + later;
  }

  lemma InternalKeepsCount(w: Worker, e: Event)
    requires Internal(e)
    ensures |Step(w, e).jobs| == |w.jobs|
  {
    hide Components, Resumed, Begun;
  }

  lemma {:induction false} AfterFirst(w: Worker, e: Event, later: seq<Event>)
    ensures StatusQueue.After(w, [e] + later) == StatusQueue.After(Step(w, e), later)
  {
    hide Step;
    var events := [e] + later;
    if later == [] {
      assert events[..0] == [] && StatusQueue.After(w, []) == w;
    } else {
      AfterFirst(w, e, later[..|later| - 1]);
      assert events[..|events| - 1] == [e] + later[..|later| - 1];
    }
  }

  /** However internal events are chosen, no run of them is longer than the work left. */
  lemma {:induction false} InternalRunsEnd(w: Worker, events: seq<Event>)
    requires Chained(w)
    requires forall k :: 0 <= k < |events| ==> Internal(events[k]) && Enabled(At(w, events, k), events[k])
    ensures |events| + Work(StatusQueue.After(w, events).jobs) <= Work(w.jobs) && Chained(StatusQueue.After(w, events))
  {
    hide Step, Work, Chained;
    if events != [] {
      var n := |events| - 1;
      var prefix := events[..n];
      forall k | 0 <= k < n ensures Internal(prefix[k]) && Enabled(At(w, prefix, k), prefix[k]) {
        assert prefix[..k] == events[..k];
        assert Enabled(At(w, events, k), events[k]);
      }
      InternalRunsEnd(w, prefix);
      assert Enabled(At(w, events, n), events[n]);
      InternalDecreases(StatusQueue.After(w, prefix), events[n]);
      StepKeepsChained(StatusQueue.After(w, prefix), events[n]);
    }
  }

  /* ---------- The generation ---------- */

  /** The generation counts exactly the applies accepted in the current life, at every moment. */
  lemma GenerationAlwaysCounts(w: Worker, events: seq<Event>)
    requires Fresh(w)
    ensures
      var now := StatusQueue.After(w, events);
      now.generation == Runs.CountAccepted(Replies(now.jobs))
  {
    hide Components, Perform, Explained;
    Simulated(w, events);
    Runs.GenerationCountsAccepted(Whole(w, Start(w)), Wholes(w, events));
    UnsettledCountsNothing(StatusQueue.After(w, events).jobs, Reached(w, events).over);
  }

  lemma {:induction false} UnsettledCountsNothing(jobs: seq<Job>, n: nat)
    requires n <= |jobs| && forall i :: n <= i < |jobs| ==> !jobs[i].stage.Settled?
    ensures Runs.CountAccepted(Replies(jobs)) == Runs.CountAccepted(Replies(jobs[..n]))
  {
    if n == |jobs| {
      assert jobs[..n] == jobs;
    } else {
      var shorter := jobs[..|jobs| - 1];
      UnsettledCountsNothing(shorter, n);
      assert shorter[..n] == jobs[..n];
      assert Replies(jobs)[..|jobs| - 1] == Replies(shorter);
    }
  }
}
