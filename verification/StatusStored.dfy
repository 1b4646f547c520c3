/**
 * What happens to the stored record, and what callers are told, at every moment of every interleaving of
 * the update-notice store (apps/extension/shared/update-status.ts).
 */
module StatusStored {
  import opened Js
  import opened Versions
  import opened StatusStore
  import opened StatusQueue
  import opened StatusRefinement
  import opened StatusSafety
  import Runs = StatusRuns

  /* ---------- Changes of the item ---------- */

  /** The operation whose write an event brings to the store, if it does. */
  function Landed(w: Worker, e: Event): Option<Request> {
    if Enabled(w, e) && Writer(e).Some? then Some(w.jobs[Writer(e).value].request) else None
  }

  /**
   * At every moment of every interleaving an event leaves the item alone, or it is a landing write, and then
   * the new item is the whole effect of that operation on the item as it was just before.
   */
  lemma LandingIsEffect(w: Worker, events: seq<Event>, e: Event)
    requires Fresh(w)
    ensures
      var now := StatusQueue.After(w, events);
      Step(now, e).cell ==
      match Landed(now, e)
      case None => now.cell
      case Some(request) => Perform(now.life, Core(now.cell, now.generation), request, Fate(true, true)).0.cell
  {
    hide Components, Perform, Chained, Begun, Resumed;
    Simulated(w, events);
    var now, p := StatusQueue.After(w, events), Reached(w, events);
    if Landed(now, e).Some? {
      var job := now.jobs[Writer(e).value];
      MoverIsFrontier(now, p.over, Writer(e).value);
      WrittenCell(now.life, p.base, now.generation, job.request, job.stage.reply, true, job.stage.value);
    }
  }

  /** From a tidy store every state of every interleaving, mid-operation or not, holds nothing or a tidy record. */
  lemma {:induction false} StoredIsAlwaysTidy(w: Worker, events: seq<Event>)
    requires Fresh(w) && Runs.Tidy(w.cell)
    ensures Runs.Tidy(StatusQueue.After(w, events).cell)
  {
    hide Components, Perform, Runs.Tidy, Step, Landed;
    if events != [] {
      var prefix, e := events[..|events| - 1], events[|events| - 1];
      var now := StatusQueue.After(w, prefix);
      StoredIsAlwaysTidy(w, prefix);
      LandingIsEffect(w, prefix, e);
      if Landed(now, e).Some? {
        Runs.PerformKeepsTidy(now.life, Core(now.cell, now.generation), Landed(now, e).value, Fate(true, true));
      }
    }
  }

  /** No event replaces a record by one of lower rank. */
  lemma RankNeverDrops(w: Worker, events: seq<Event>, e: Event)
    requires Fresh(w)
    requires ReadStatus(StatusQueue.After(w, events).cell).Some?
    requires ReadStatus(Step(StatusQueue.After(w, events), e).cell).Some?
    ensures Rank(ReadStatus(StatusQueue.After(w, events).cell).value.available)
         <= Rank(ReadStatus(Step(StatusQueue.After(w, events), e).cell).value.available)
  {
    hide Components, Perform, ReadStatus, Step, Landed;
    var now := StatusQueue.After(w, events);
    LandingIsEffect(w, events, e);
    if Landed(now, e).Some? {
      Runs.RankNeverDrops(now.life, Core(now.cell, now.generation), Landed(now, e).value, Fate(true, true));
    }
  }

  /** As long as a record is present, through restarts and in the middle of operations, its rank only grows. */
  lemma {:induction false} RankOnlyGrows(w: Worker, events: seq<Event>, k: nat)
    requires Fresh(w) && k <= |events|
    requires forall j :: k <= j <= |events| ==> ReadStatus(At(w, events, j).cell).Some?
    ensures ReadStatus(At(w, events, k).cell).Some? && ReadStatus(StatusQueue.After(w, events).cell).Some?
    ensures Rank(ReadStatus(At(w, events, k).cell).value.available)
         <= Rank(ReadStatus(StatusQueue.After(w, events).cell).value.available)
    decreases |events|
  {
    hide Components, ReadStatus, Step, Rank;
    assert events[..|events|] == events;
    assert ReadStatus(At(w, events, |events|).cell).Some?;
    if k < |events| {
      var prefix := events[..|events| - 1];
      forall j | k <= j <= |prefix| ensures ReadStatus(At(w, prefix, j).cell).Some? {
        assert prefix[..j] == events[..j];
        assert ReadStatus(At(w, events, j).cell).Some?;
      }
      RankOnlyGrows(w, prefix, k);
      assert prefix[..k] == events[..k];
      RankNeverDrops(w, prefix, events[|events| - 1]);
    }
  }

  /**
   * A record goes exactly when a clear of the current generation, or a read that found it stale, gets its
   * removal to the store.
   */
  lemma RecordGoesExactly(w: Worker, events: seq<Event>, e: Event)
    requires Fresh(w) && ReadStatus(StatusQueue.After(w, events).cell).Some?
    ensures
      var now := StatusQueue.After(w, events);
      ReadStatus(Step(now, e).cell).None?
      <==> Landed(now, e).Some? && Runs.Removes(now.life, Core(now.cell, now.generation), Landed(now, e).value)
  {
    hide Components, Perform, ReadStatus, Step, Landed, Runs.Removes;
    var now := StatusQueue.After(w, events);
    LandingIsEffect(w, events, e);
    if Landed(now, e).Some? {
      Runs.RecordGoesExactly(now.life, Core(now.cell, now.generation), Landed(now, e).value, Fate(true, true));
    }
  }

  /** An apply of a version newer than the installed one gets its write to the store. */
  predicate LandsApply(w: Worker, e: Event) {
    Landed(w, e).Some? && Landed(w, e).value.Apply? && Eligible(w.life, Landed(w, e).value.version)
  }

  /** Where there is none, a record comes exactly with such a write. */
  lemma RecordComesExactly(w: Worker, events: seq<Event>, e: Event)
    requires Fresh(w) && ReadStatus(StatusQueue.After(w, events).cell).None?
    ensures
      var now := StatusQueue.After(w, events);
      ReadStatus(Step(now, e).cell).Some? <==> LandsApply(now, e)
  {
    hide Components, Perform, ReadStatus, Step, Landed, Eligible;
    var now := StatusQueue.After(w, events);
    LandingIsEffect(w, events, e);
    if Landed(now, e).Some? {
      Runs.RecordComesExactly(now.life, Core(now.cell, now.generation), Landed(now, e).value, Fate(true, true));
    }
  }

  /** One of the operations that end a dismissal gets its write to the store. */
  predicate LandsEnd(w: Worker, e: Event, version: string) {
    && Landed(w, e).Some?
    && Runs.EndsDismissal(w.life, Core(w.cell, w.generation), Landed(w, e).value, Fate(true, true), version)
  }

  /** A dismissal ends exactly with such a write. */
  lemma DismissalEndsExactly(w: Worker, events: seq<Event>, e: Event, version: string)
    requires Fresh(w) && Runs.DismissedAt(StatusQueue.After(w, events).cell, version)
    ensures
      var now := StatusQueue.After(w, events);
      Runs.DismissedAt(Step(now, e).cell, version) <==> !LandsEnd(now, e, version)
  {
    hide Components, Perform, ReadStatus, Step, Landed, Runs.EndsDismissal, Runs.DismissedAt;
    var now := StatusQueue.After(w, events);
    LandingIsEffect(w, events, e);
    if Landed(now, e).Some? {
      var core := Core(now.cell, now.generation);
      Runs.DismissalKeptExactly(now.life, core, Landed(now, e).value, Fate(true, true), version);
    }
  }

  /** Until then a dismissed version stays dismissed, through restarts and in the middle of operations. */
  lemma {:induction false} DismissalSurvives(w: Worker, events: seq<Event>, k: nat, version: string)
    requires Fresh(w) && k <= |events| && Runs.DismissedAt(At(w, events, k).cell, version)
    requires forall j :: k <= j < |events| ==> !LandsEnd(At(w, events, j), events[j], version)
    ensures Runs.DismissedAt(StatusQueue.After(w, events).cell, version)
    decreases |events|
  {
    hide Components, Runs.DismissedAt, LandsEnd, Step;
    if k == |events| {
      assert events[..k] == events;
    } else {
      var prefix := events[..|events| - 1];
      forall j | k <= j < |prefix| ensures !LandsEnd(At(w, prefix, j), prefix[j], version) {
        assert prefix[..j] == events[..j];
        assert !LandsEnd(At(w, events, j), events[j], version);
      }
      assert prefix[..k] == events[..k];
      DismissalSurvives(w, prefix, k, version);
      assert !LandsEnd(At(w, events, |prefix|), events[|prefix|], version);
      DismissalEndsExactly(w, prefix, events[|prefix|], version);
    }
  }

  predicate HarmlessEvent(version: string, e: Event) {
    match e
    case Arrive(request) => Runs.Harmless(version, request)
    case Settle(answer) => Runs.HarmlessAnswer(version, answer)
    case Die(_, life) => Runs.Behind(version, life)
    case _ => true
  }

  /**
   * A dismissed version stays dismissed in every state of every interleaving of notices, dismissals,
   * checks, lost writes, deaths and restarts, and applies of that version or of older ones.
   */
  lemma DismissalSticks(w: Worker, events: seq<Event>, version: string)
    requires Fresh(w) && Runs.DismissedAt(w.cell, version) && Runs.Behind(version, w.life)
    requires forall i :: 0 <= i < |events| ==> HarmlessEvent(version, events[i])
    ensures Runs.DismissedAt(StatusQueue.After(w, events).cell, version)
  {
    hide Components, Perform, Explained, Runs.Harmless, Runs.Behind, Runs.DismissedAt, NormalizeVersion;
    Simulated(w, events);
    var wholes := Wholes(w, events);
    forall i | 0 <= i < |wholes| ensures Runs.HarmlessEvent(version, wholes[i]) {
      WholesPrefix(w, events, i);
      assert HarmlessEvent(version, events[i]);
    }
    Runs.HarmlessRun(Whole(w, Start(w)), wholes, version);
    var now, p := StatusQueue.After(w, events), Reached(w, events);
    if p.over < |now.jobs| {
      var job := now.jobs[p.over];
      assert Whole(now, p).pending[0] == job.request;
      BeforeOrAfter(now.life, p.base, p.fate, now.cell, now.generation, job.request, job.stage);
      Runs.HarmlessKeeps(now.life, Core(p.base, now.generation), job.request, p.fate, version);
    }
  }

  /* ---------- Replies ---------- */

  /** When an operation's promise settles, it has done what the whole operation does to `base` with those answers. */
  lemma SettlesAsWhole(now: Worker, p: Progress, e: Event)
    requires Coupled(now, p) && Finishes(now, e)
    ensures
      var next := Step(now, e);
      && e.i == p.over && next.cell == now.cell
      && Perform(now.life, Core(p.base, now.generation), now.jobs[e.i].request, p.fate)
         == (Core(next.cell, next.generation), next.jobs[e.i].stage.reply)
  {
    hide Components, Perform, Chained, Explained, Begun, Resumed;
    var next := Step(now, e);
    StepRefines(now, p, e);
    FrontierOf(now, p, e);
    assert Requests(now.jobs[p.over..])[0] == now.jobs[p.over].request;
    var reply := Perform(now.life, Core(p.base, now.generation), now.jobs[p.over].request, p.fate).1;
    assert Replies(next.jobs[..p.over + 1]) == Replies(now.jobs[..p.over]) + [reply];
    assert Replies(next.jobs[..p.over + 1])[p.over] == next.jobs[p.over].stage.reply;
  }

  /** An operation that began at event `b` of this life is not over. */
  predicate Running(w: Worker, events: seq<Event>, b: nat, i: nat) {
    && b < |events|
    && events[b] == Begin(i) && Enabled(At(w, events, b), events[b])
    && (forall k :: b <= k < |events| ==> !events[k].Die?)
    && i < |StatusQueue.After(w, events).jobs| && !StatusQueue.After(w, events).jobs[i].stage.Settled?
  }

  lemma SettledStays(w: Worker, e: Event, i: nat)
    requires !e.Die? && i < |w.jobs|
    ensures i < |Step(w, e).jobs| && (w.jobs[i].stage.Settled? ==> Step(w, e).jobs[i].stage == w.jobs[i].stage)
  {
    hide Begun, Resumed;
  }

  lemma {:induction false} JobStays(w: Worker, events: seq<Event>, b: nat, i: nat)
    requires b <= |events| && i < |At(w, events, b).jobs| && forall k :: b <= k < |events| ==> !events[k].Die?
    ensures i < |StatusQueue.After(w, events).jobs|
    decreases |events|
  {
    hide Step;
    if b == |events| {
      assert events[..b] == events;
    } else {
      var prefix := events[..|events| - 1];
      assert prefix[..b] == events[..b];
      JobStays(w, prefix, b, i);
      SettledStays(StatusQueue.After(w, prefix), events[|events| - 1], i);
    }
  }

  lemma WasRunning(w: Worker, events: seq<Event>, b: nat, i: nat)
    requires Running(w, events, b, i) && b + 1 < |events|
    ensures Running(w, events[..|events| - 1], b, i)
  {
    hide Step;
    var prefix := events[..|events| - 1];
    assert prefix[..b] == events[..b];
    assert i < |At(w, prefix, b).jobs|;
    JobStays(w, prefix, b, i);
    SettledStays(StatusQueue.After(w, prefix), events[|events| - 1], i);
  }

  /** The code that moves the generation is the last of its operation. */
  lemma AcceptsFinishes(w: Worker, e: Event)
    ensures Accepts(w, e) ==> Finishes(w, e)
  {
    hide Components, Begun;
  }

  /** While an operation runs, `base` is the item as it was when it began, and the generation does not move. */
  lemma {:induction false} BaseIsItemAtBegin(w: Worker, events: seq<Event>, b: nat, i: nat)
    requires Fresh(w) && Running(w, events, b, i)
    ensures Reached(w, events).over == i && Reached(w, events).base == At(w, events, b).cell
    ensures StatusQueue.After(w, events).generation == At(w, events, b).generation
    decreases |events|
  {
    hide Components, Step, Explained, Chained, Frontier;
    var n := |events| - 1;
    var prefix, e := events[..n], events[n];
    var before, p := StatusQueue.After(w, prefix), Reached(w, prefix);
    Simulated(w, prefix);
    StepInLife(before, e);
    AcceptsFinishes(before, e);
    if Finishes(before, e) || e.Begin? {
      if Enabled(before, e) {
        FrontierOf(before, p, e);
      }
    }
    if b == n {
      WaitingAtBase(before, p);
    } else {
      WasRunning(w, events, b, i);
      BaseIsItemAtBegin(w, prefix, b, i);
      assert prefix[..b] == events[..b];
    }
  }

  lemma WaitingAtBase(w: Worker, p: Progress)
    requires Coupled(w, p) && p.over < |w.jobs| && w.jobs[p.over].stage.Waiting?
    ensures w.cell == p.base
  {
    hide Chained, Frontier;
  }

  /**
   * Every operation is atomic, whatever happens between its awaits: when its promise settles, the item, the
   * generation and the reply are what the whole operation makes of the item and the generation at its
   * beginning, with the answers that storage gave it.
   */
  lemma OperationsAreAtomic(w: Worker, events: seq<Event>, b: nat, i: nat)
    requires Fresh(w) && Running(w, events, b, i) && Finishes(StatusQueue.After(w, events), Resume(i))
    ensures
      var begun, next := At(w, events, b), Step(StatusQueue.After(w, events), Resume(i));
      Perform(next.life, Core(begun.cell, begun.generation), next.jobs[i].request, Reached(w, events).fate)
      == (Core(next.cell, next.generation), next.jobs[i].stage.reply)
  {
    hide Components, Perform, Running, Reached;
    BaseIsItemAtBegin(w, events, b, i);
    Simulated(w, events);
    SettlesAsWhole(StatusQueue.After(w, events), Reached(w, events), Resume(i));
  }

  /* ---------- Notices ---------- */

  /**
   * At the moment a notice is given, in any interleaving and from any stored content: it is null exactly when
   * the read failed or found no record newer than the installed version; otherwise the record is still there,
   * the notice names its version, and calls it dismissed exactly when it is.
   */
  lemma NoticesAreExact(w: Worker, events: seq<Event>, i: nat)
    requires Fresh(w) && Finishes(StatusQueue.After(w, events), Resume(i))
    requires StatusQueue.After(w, events).jobs[i].request.GetNotice?
    ensures
      var now, p := StatusQueue.After(w, events), Reached(w, events);
      var reply := Step(now, Resume(i)).jobs[i].stage.reply;
      && reply.NoticeIs?
      && (reply.notice.Some? <==> p.fate.readOk && Current(now.life, ReadStatus(p.base)))
      && (reply.notice.Some? ==>
            && ReadStatus(now.cell).Some? && Current(now.life, ReadStatus(now.cell))
            && reply.notice.value.version == ReadStatus(now.cell).value.available
            && (reply.notice.value.dismissed <==> Runs.DismissedAt(now.cell, reply.notice.value.version)))
  {
    hide Components, ReadStatus, NewerThan, Installed, Finishes, Reached, Step;
    var now, p := StatusQueue.After(w, events), Reached(w, events);
    Simulated(w, events);
    SettlesAsWhole(now, p, Resume(i));
    Runs.NoticeIsTrue(now.life, Core(p.base, now.generation), p.fate);
  }

  /** Every notice given in any interleaving names a version newer than the installed one. */
  lemma NoticesAlwaysTrue(w: Worker, events: seq<Event>, i: nat)
    requires Fresh(w) && i < |StatusQueue.After(w, events).jobs|
    requires
      var stage := StatusQueue.After(w, events).jobs[i].stage;
      stage.Settled? && stage.reply.NoticeIs? && stage.reply.notice.Some?
    ensures
      var now := StatusQueue.After(w, events);
      && Installed(now.life).Some?
      && NewerThan(now.jobs[i].stage.reply.notice.value.version, Installed(now.life).value)
  {
    hide Components, Perform, Explained, NormalizeVersion;
    Simulated(w, events);
    Runs.NoticesAreNewer(Whole(w, Start(w)), Wholes(w, events));
    var now, p := StatusQueue.After(w, events), Reached(w, events);
    assert Replies(now.jobs[..p.over])[i] == now.jobs[i].stage.reply;
  }

  /** Once there is no record, there is none until an apply of something newer gets its write to the store. */
  lemma {:induction false} NoRecordUntilNewer(w: Worker, events: seq<Event>, k: nat)
    requires Fresh(w) && k <= |events| && ReadStatus(At(w, events, k).cell).None?
    requires forall j :: k <= j < |events| ==> !LandsApply(At(w, events, j), events[j])
    ensures ReadStatus(StatusQueue.After(w, events).cell).None?
    decreases |events|
  {
    hide Components, ReadStatus, LandsApply, Step;
    if k == |events| {
      assert events[..k] == events;
    } else {
      var prefix := events[..|events| - 1];
      forall j | k <= j < |prefix| ensures !LandsApply(At(w, prefix, j), prefix[j]) {
        assert prefix[..j] == events[..j];
        assert !LandsApply(At(w, events, j), events[j]);
      }
      assert prefix[..k] == events[..k];
      NoRecordUntilNewer(w, prefix, k);
      assert !LandsApply(At(w, events, |prefix|), events[|prefix|]);
      RecordComesExactly(w, prefix, events[|prefix|]);
    }
  }

  /** Until then every notice is null, even one that had begun before the record went. */
  lemma QuietUntilNewer(w: Worker, events: seq<Event>, k: nat, i: nat)
    requires Fresh(w) && k <= |events| && ReadStatus(At(w, events, k).cell).None?
    requires forall j :: k <= j < |events| ==> !LandsApply(At(w, events, j), events[j])
    requires Finishes(StatusQueue.After(w, events), Resume(i))
    requires StatusQueue.After(w, events).jobs[i].request.GetNotice?
    ensures Step(StatusQueue.After(w, events), Resume(i)).jobs[i].stage.reply == NoticeIs(None)
  {
    hide Components, ReadStatus, LandsApply, Current, Reached, StatusQueue.After, Begun, Resumed;
    NoRecordUntilNewer(w, events, k);
    NoticesAreExact(w, events, i);
    var reply := Step(StatusQueue.After(w, events), Resume(i)).jobs[i].stage.reply;
    assert reply.notice == None;
  }

  /* ---------- Order, while storage works ---------- */

  /** The first `n` jobs have left and replied what they do one after the other. */
  predicate InOrder(life: Life, cell: JsValue, jobs: seq<Job>, n: nat, core: Core) {
    && n <= |jobs|
    && core == Runs.PerformFirst(life, Core(cell, 0), Requests(jobs), n)
    && forall i :: 0 <= i < n ==>
         var before := Runs.PerformFirst(life, Core(cell, 0), Requests(jobs), i);
         jobs[i].stage == Settled(Perform(life, before, jobs[i].request, Fate(true, true)).1)
  }

  lemma InOrderGrows(life: Life, cell: JsValue, jobs: seq<Job>, longer: seq<Job>, n: nat, core: Core)
    requires InOrder(life, cell, jobs, n, core) && Requests(jobs) <= Requests(longer)
    requires forall i :: 0 <= i < n ==> longer[i].stage == jobs[i].stage
    ensures InOrder(life, cell, longer, n, core)
  {
    hide Perform, Runs.PerformFirst;
    forall i | 0 <= i <= n
      ensures Runs.PerformFirst(life, Core(cell, 0), Requests(longer), i)
           == Runs.PerformFirst(life, Core(cell, 0), Requests(jobs), i)
    {
      Runs.PerformFirstPrefix(life, Core(cell, 0), Requests(jobs), Requests(longer), i);
    }
    forall i | 0 <= i < n ensures longer[i].request == jobs[i].request {
      assert Requests(longer)[i] == Requests(jobs)[i];
    }
  }

  lemma InOrderNext(life: Life, cell: JsValue, jobs: seq<Job>, n: nat, core: Core, next: Core)
    requires InOrder(life, cell, jobs, n, core) && n < |jobs| && jobs[n].stage.Settled?
    requires Perform(life, core, jobs[n].request, Fate(true, true)) == (next, jobs[n].stage.reply)
    ensures InOrder(life, cell, jobs, n + 1, next)
  {
    hide Perform;
  }

  /**
   * While storage works and the worker lives, interleaving changes neither replies nor items: at every moment the
   * operations that are over have left and replied exactly what they do one after the other in queue order.
   */
  lemma {:induction false} WorkingRunIsInOrder(w: Worker, events: seq<Event>)
    requires Fresh(w) && forall k :: 0 <= k < |events| ==> Works(events[k])
    ensures
      var now, p := StatusQueue.After(w, events), Reached(w, events);
      && Coupled(now, p)
      && now.life == w.life && p.fate == Fate(true, true)
      && InOrder(w.life, w.cell, now.jobs, p.over, Core(p.base, now.generation))
  {
    hide Components, Perform, Step, Explained, Chained, Advanced, InOrder;
    Simulated(w, events);
    if events == [] {
      NothingInOrder(w);
    } else {
      var prefix, e := events[..|events| - 1], events[|events| - 1];
      WorkingRunIsInOrder(w, prefix);
      StepInOrder(w, StatusQueue.After(w, prefix), Reached(w, prefix), e);
    }
  }

  lemma NothingInOrder(w: Worker)
    requires Fresh(w)
    ensures InOrder(w.life, w.cell, w.jobs, 0, Core(w.cell, w.generation))
  {
  }

  lemma RequestsStay(w: Worker, e: Event)
    requires !e.Die?
    ensures Requests(w.jobs) <= Requests(Step(w, e).jobs) && Step(w, e).life == w.life
  {
    hide Components, Begun, Resumed;
  }

  lemma StepInOrder(w: Worker, now: Worker, p: Progress, e: Event)
    requires Coupled(now, p) && Works(e) && p.fate == Fate(true, true)
    requires InOrder(w.life, w.cell, now.jobs, p.over, Core(p.base, now.generation)) && now.life == w.life
    ensures
      var next, q := Step(now, e), Advanced(now, p, e);
      && next.life == w.life && q.fate == Fate(true, true)
      && InOrder(w.life, w.cell, next.jobs, q.over, Core(q.base, next.generation))
  {
    hide Components, Perform, Explained, Chained, Step, InOrder, Requests, Frontier;
    var next := Step(now, e);
    RequestsStay(now, e);
    OverStays(now, p, e);
    InOrderGrows(w.life, w.cell, now.jobs, next.jobs, p.over, Core(p.base, now.generation));
    StepInLife(now, e);
    AcceptsFinishes(now, e);
    if Finishes(now, e) {
      SettlesAsWhole(now, p, e);
      InOrderNext(w.life, w.cell, next.jobs, p.over, Core(p.base, now.generation), Core(next.cell, next.generation));
    }
  }

  lemma OverStays(now: Worker, p: Progress, e: Event)
    requires Coupled(now, p) && !e.Die?
    ensures |now.jobs| <= |Step(now, e).jobs|
    ensures forall i :: 0 <= i < p.over ==> Step(now, e).jobs[i].stage == now.jobs[i].stage
    ensures forall i :: 0 <= i < |now.jobs| ==> Step(now, e).jobs[i].request == now.jobs[i].request
  {
    hide Explained, Chained, Begun, Resumed;
    forall i | 0 <= i < p.over ensures Step(now, e).jobs[i].stage == now.jobs[i].stage {
      SettledStays(now, e, i);
    }
  }

  /** The versions that apply jobs offer. */
  function Offered(jobs: seq<Job>): (versions: seq<JsValue>)
    requires forall i :: 0 <= i < |jobs| ==> jobs[i].request.Apply?
    ensures |versions| == |jobs| && forall i :: 0 <= i < |jobs| ==> jobs[i].request == Apply(versions[i])
  {
    seq(|jobs|, i requires 0 <= i < |jobs| => jobs[i].request.version)
  }

  predicate AllSettled(jobs: seq<Job>) {
    forall i :: 0 <= i < |jobs| ==> jobs[i].stage.Settled?
  }

  /** Once all have settled, the item is what the operations leave one after the other. */
  lemma SettledLeave(w: Worker, events: seq<Event>)
    requires Fresh(w) && forall k :: 0 <= k < |events| ==> Works(events[k])
    requires AllSettled(StatusQueue.After(w, events).jobs)
    ensures
      var now := StatusQueue.After(w, events);
      now.cell == Runs.PerformFirst(w.life, Core(w.cell, 0), Requests(now.jobs), |now.jobs|).cell
  {
    hide Components, Perform, Explained, Chained, StatusQueue.After, Reached, Runs.PerformFirst;
    WorkingRunIsInOrder(w, events);
    var now, p := StatusQueue.After(w, events), Reached(w, events);
    assert p.over == |now.jobs| && p.base == now.cell;
  }

  /** Nothing but applies arrived and all of them have settled. */
  predicate AppliesSettled(jobs: seq<Job>) {
    AllSettled(jobs) && forall i :: 0 <= i < |jobs| ==> jobs[i].request.Apply?
  }

  lemma AppliesLeave(w: Worker, events: seq<Event>)
    requires Fresh(w) && forall k :: 0 <= k < |events| ==> Works(events[k])
    requires AppliesSettled(StatusQueue.After(w, events).jobs)
    ensures
      var now := StatusQueue.After(w, events);
      ReadStatus(now.cell) == Runs.Final(w.life, Core(w.cell, 0), Offered(now.jobs))
  {
    hide Components, Perform, ReadStatus, StatusQueue.After, Runs.ApplyFirst, Runs.PerformFirst;
    SettledLeave(w, events);
    var now := StatusQueue.After(w, events);
    Runs.PerformApplies(w.life, Core(w.cell, 0), Requests(now.jobs), Offered(now.jobs), |now.jobs|);
  }

  /**
   * However applies interleave with each other, once they have settled with storage working, the record is the
   * right one: the stored one if all versions newer than the installed one rank below it, else the last of the
   * highest of these.
   */
  lemma AppliesSettleRight(w: Worker, events: seq<Event>)
    requires Fresh(w) && forall k :: 0 <= k < |events| ==> Works(events[k])
    requires AppliesSettled(StatusQueue.After(w, events).jobs)
    ensures
      var now := StatusQueue.After(w, events);
      && Runs.RightOutcome(w.life, ReadStatus(w.cell), Offered(now.jobs), |now.jobs|, ReadStatus(now.cell))
      && (ReadStatus(w.cell).None? ==> Runs.RightRecord(w.life, Offered(now.jobs), |now.jobs|, ReadStatus(now.cell)))
  {
    hide Components, ReadStatus, AppliesSettled, Runs.RightRecord, Runs.RightOutcome, Runs.ApplyFirst,
         StatusQueue.After;
    AppliesLeave(w, events);
    var versions := Offered(StatusQueue.After(w, events).jobs);
    Runs.AppliesEndRight(w.life, Core(w.cell, 0), versions, |versions|);
    if ReadStatus(w.cell).None? {
      Runs.AppliesFillRight(w.life, Core(w.cell, 0), versions, |versions|);
    }
  }

  /**
   * Two runs in which the same applies settle, in whatever order they arrived and however they interleaved,
   * end with the same rank, or both with no record; and, where there was no record, with the same one if the
   * highest are spelled alike.
   */
  lemma ArrivalOrderIndependent(w: Worker, events: seq<Event>, others: seq<Event>)
    requires Fresh(w)
    requires forall k :: 0 <= k < |events| ==> Works(events[k])
    requires forall k :: 0 <= k < |others| ==> Works(others[k])
    requires AppliesSettled(StatusQueue.After(w, events).jobs) && AppliesSettled(StatusQueue.After(w, others).jobs)
    requires multiset(Offered(StatusQueue.After(w, events).jobs))
          == multiset(Offered(StatusQueue.After(w, others).jobs))
    ensures
      var a, b := ReadStatus(StatusQueue.After(w, events).cell), ReadStatus(StatusQueue.After(w, others).cell);
      && (a.Some? <==> b.Some?)
      && (a.Some? ==> Rank(a.value.available) == Rank(b.value.available))
      && (ReadStatus(w.cell).None? && Runs.OneTopSpelling(w.life, Offered(StatusQueue.After(w, events).jobs)) ==>
            a == b)
  {
    hide Components, ReadStatus, AppliesSettled, Runs.ApplyFirst, StatusQueue.After, Runs.OneTopSpelling, Rank;
    AppliesLeave(w, events);
    AppliesLeave(w, others);
    var versions, shuffled := Offered(StatusQueue.After(w, events).jobs), Offered(StatusQueue.After(w, others).jobs);
    Runs.OrderIndependent(w.life, Core(w.cell, 0), versions, shuffled);
    if ReadStatus(w.cell).None? && Runs.OneTopSpelling(w.life, versions) {
      Runs.TopSpellingWins(w.life, Core(w.cell, 0), versions, shuffled);
    }
  }

  /**
   * A dismissal and an apply of something newer commute however their awaits interleave: two runs in which the
   * two settle, in either order of arrival, both end with the newer version stored and not dismissed.
   */
  lemma ArrivalsCommute(w: Worker, events: seq<Event>, others: seq<Event>, shown: string, offered: JsValue)
    requires Fresh(w)
    requires forall k :: 0 <= k < |events| ==> Works(events[k])
    requires forall k :: 0 <= k < |others| ==> Works(others[k])
    requires AllSettled(StatusQueue.After(w, events).jobs) && AllSettled(StatusQueue.After(w, others).jobs)
    requires Requests(StatusQueue.After(w, events).jobs) == [Dismiss(shown), Apply(offered)]
    requires Requests(StatusQueue.After(w, others).jobs) == [Apply(offered), Dismiss(shown)]
    requires ReadStatus(w.cell).Some? && Eligible(w.life, offered)
    requires NewerThan(NormalizeVersion(offered).value, ReadStatus(w.cell).value.available)
    requires ReadStatus(w.cell).value.dismissed != NormalizeVersion(offered)
    requires NormalizeVersion(Str(shown)) != NormalizeVersion(offered)
    ensures StatusQueue.After(w, events).cell == StatusQueue.After(w, others).cell
    ensures ReadStatus(StatusQueue.After(w, events).cell) == Some(Status(NormalizeVersion(offered).value, None))
  {
    hide Components, ReadStatus, Eligible, NewerThan, NormalizeVersion, PerformApply, PerformDismiss, AllSettled,
         StatusQueue.After, Requests, Runs.PerformFirst;
    SettledLeave(w, events);
    SettledLeave(w, others);
    RequestCount(StatusQueue.After(w, events).jobs);
    RequestCount(StatusQueue.After(w, others).jobs);
    PerformTwo(w.life, Core(w.cell, 0), Dismiss(shown), Apply(offered));
    PerformTwo(w.life, Core(w.cell, 0), Apply(offered), Dismiss(shown));
    Runs.DismissAndApplyCommute(w.life, Core(w.cell, 0), shown, offered, Fate(true, true));
  }

  lemma RequestCount(jobs: seq<Job>)
    ensures |Requests(jobs)| == |jobs|
  {
  }

  lemma PerformTwo(life: Life, core: Core, first: Request, second: Request)
    ensures Runs.PerformFirst(life, core, [first, second], 2)
         == Perform(life, Perform(life, core, first, Fate(true, true)).0, second, Fate(true, true)).0
  {
    hide Perform;
    assert Runs.PerformFirst(life, core, [first, second], 0) == core;
    assert Runs.PerformFirst(life, core, [first, second], 1) == Perform(life, core, first, Fate(true, true)).0;
  }
}
