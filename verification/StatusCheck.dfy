/**
 * What the answer of the update check does to the stored record, in every interleaving, and that every
 * sequence of requests has a run that settles it (apps/extension/shared/update-status.ts).
 */
module StatusCheck {
  import opened Js
  import opened Versions
  import opened StatusStore
  import opened StatusQueue
  import opened StatusRefinement
  import opened StatusSafety
  import opened StatusStored
  import Runs = StatusRuns

  /* ---------- The check in a worker's life ---------- */

  lemma {:induction false} RequestsPersist(w: Worker, events: seq<Event>, i: nat)
    requires i <= |events| && forall k :: i <= k < |events| ==> !events[k].Die?
    ensures Requests(At(w, events, i).jobs) <= Requests(StatusQueue.After(w, events).jobs)
    ensures At(w, events, i).life == StatusQueue.After(w, events).life
    decreases |events|
  {
    hide Step, Requests;
    if i == |events| {
      assert events[..i] == events;
    } else {
      var prefix := events[..|events| - 1];
      assert prefix[..i] == events[..i];
      RequestsPersist(w, prefix, i);
      RequestsStay(StatusQueue.After(w, prefix), events[|events| - 1]);
    }
  }

  /** A life without an accepted apply keeps its generation; with one it is past it. */
  lemma {:induction false} GenerationSince(w: Worker, events: seq<Event>, i: nat)
    requires i <= |events| && forall k :: i <= k < |events| ==> !events[k].Die?
    ensures At(w, events, i).generation <= StatusQueue.After(w, events).generation
    ensures At(w, events, i).generation == StatusQueue.After(w, events).generation
       <==> forall k :: i <= k < |events| ==> !Accepts(At(w, events, k), events[k])
    decreases |events|
  {
    hide Step, Accepts;
    if i == |events| {
      assert events[..i] == events;
    } else {
      var n := |events| - 1;
      var prefix := events[..n];
      assert prefix[..i] == events[..i];
      GenerationSince(w, prefix, i);
      StepInLife(StatusQueue.After(w, prefix), events[n]);
      assert At(w, events, n) == StatusQueue.After(w, prefix);
      forall k | i <= k < n ensures At(w, prefix, k) == At(w, events, k) {
        assert prefix[..k] == events[..k];
      }
    }
  }

  /** The check is asked once and answered once in a life: after an answer no other is possible. */
  lemma {:induction false} AnsweredOnce(w: Worker, events: seq<Event>, i: nat)
    requires i < |events| && events[i].Settle? && Enabled(At(w, events, i), events[i])
    requires forall k :: i <= k < |events| ==> !events[k].Die?
    ensures StatusQueue.After(w, events).check.Answered?
    ensures forall answer :: !Enabled(StatusQueue.After(w, events), Settle(answer))
    decreases |events|
  {
    hide Components, Begun, Resumed;
    var n := |events| - 1;
    var prefix := events[..n];
    if i < n {
      assert prefix[..i] == events[..i];
      AnsweredOnce(w, prefix, i);
    }
  }

  predicate NoClear(jobs: seq<Job>) {
    forall j :: 0 <= j < |jobs| ==> !jobs[j].request.Clear?
  }

  /** A removal is asked for by an answer "no update" and by nothing else. */
  lemma ClearsComeFromNoUpdate(w: Worker, e: Event)
    requires NoClear(w.jobs)
    ensures NoClear(Step(w, e).jobs) <==> !(e == Settle(Runs.NoUpdate) && Enabled(w, e))
  {
    hide Components, Begun, Resumed;
    if e == Settle(Runs.NoUpdate) && Enabled(w, e) {
      assert Step(w, e).jobs[|w.jobs|].request.Clear?;
    }
  }

  lemma {:induction false} NoClearBefore(w: Worker, events: seq<Event>)
    requires Fresh(w)
    requires forall k :: 0 <= k < |events| && events[k] == Settle(Runs.NoUpdate) ==>
      !Enabled(At(w, events, k), events[k])
    ensures NoClear(StatusQueue.After(w, events).jobs)
  {
    hide Step, NoClear, Enabled;
    if events == [] {
      NothingToClear(w);
    } else {
      var n := |events| - 1;
      var prefix := events[..n];
      forall k | 0 <= k < n && prefix[k] == Settle(Runs.NoUpdate) ensures !Enabled(At(w, prefix, k), prefix[k]) {
        assert prefix[..k] == events[..k];
        assert !Enabled(At(w, events, k), events[k]);
      }
      NoClearBefore(w, prefix);
      ClearsComeFromNoUpdate(StatusQueue.After(w, prefix), events[n]);
      assert At(w, events, n) == StatusQueue.After(w, prefix);
    }
  }

  lemma NothingToClear(w: Worker)
    requires Fresh(w)
    ensures NoClear(w.jobs)
  {
  }

  /** What the enabled start and the enabled answer of the check do. */
  lemma AskedAndAnswered(w: Worker)
    ensures w.check.NotStarted? ==> Step(w, StartCheck).check == Runs.Asking(w.generation)
    ensures w.check.Asking? ==>
      Requests(Step(w, Settle(Runs.NoUpdate)).jobs) == Requests(w.jobs) + [Clear(w.check.captured)]
    ensures forall version :: w.check.Asking? ==>
      Requests(Step(w, Settle(Runs.UpdateAvailable(version))).jobs) == Requests(w.jobs) + [Apply(version)]
    ensures Step(w, Settle(Runs.Silent)).jobs == w.jobs
  {
  }

  /* ---------- The answer "no update" ---------- */

  /** The removal that the answer asks for, in the queue of the end: it expects the generation of the asking. */
  lemma RemovalInQueue(w: Worker, events: seq<Event>, asked: nat, answered: nat)
    requires Fresh(w) && forall k :: 0 <= k < |events| ==> !events[k].Die?
    requires asked < answered < |events| && events[asked].StartCheck? && At(w, events, asked).check.NotStarted?
    requires events[answered] == Settle(Runs.NoUpdate) && At(w, events, answered).check.Asking?
    ensures
      var g, c := At(w, events, asked).generation, |At(w, events, answered).jobs|;
      var requests := Requests(StatusQueue.After(w, events).jobs);
      && c < |requests| && requests[c] == Clear(g)
      && (forall i :: 0 <= i < |requests| && requests[i].Clear? ==> requests[i].expected == g)
  {
    hide Components, Step, StatusQueue.After;
    var g, c := At(w, events, asked).generation, |At(w, events, answered).jobs|;
    AskedAndAnswered(At(w, events, asked));
    AskedAndAnswered(At(w, events, answered));
    AtNext(w, events, asked);
    AtNext(w, events, answered);
    LaterInLife(w, events, asked + 1, answered);
    LaterInLife(w, events, asked + 1, |events|);
    assert events[..|events|] == events;
    RequestsPersist(w, events, answered + 1);
    assert Requests(At(w, events, answered + 1).jobs)[c] == Clear(g);
    RunIsFenced(w, events);
  }

  /** By the time the queue comes to a request, the generation is at least what it was when that one arrived. */
  lemma GenerationReached(w: Worker, events: seq<Event>, i: nat, c: nat)
    requires Fresh(w) && forall k :: 0 <= k < |events| ==> Works(events[k])
    requires i <= |events| && |At(w, events, i).jobs| <= c <= |StatusQueue.After(w, events).jobs|
    ensures |Requests(StatusQueue.After(w, events).jobs)| == |StatusQueue.After(w, events).jobs|
    ensures At(w, events, i).generation <=
      Runs.PerformFirst(w.life, Core(w.cell, 0), Requests(StatusQueue.After(w, events).jobs), c).generation
  {
    hide Components, Perform, Step, Explained, Chained, StatusQueue.After, Reached, Runs.PerformFirst;
    var requests, core := Requests(StatusQueue.After(w, events).jobs), Core(w.cell, 0);
    WorkingRunIsInOrder(w, events[..i]);
    var over := Reached(w, events[..i]).over;
    RequestsPersist(w, events, i);
    Runs.PerformFirstPrefix(w.life, core, Requests(At(w, events, i).jobs), requests, over);
    Runs.GenerationGrows(w.life, core, requests, over, c);
  }

  /**
   * An answer "no update" removes the record exactly when no apply was accepted after the check was asked.
   * While storage works and once everything has settled, whatever else arrived and however it interleaved,
   * there is no record if none was; and if one was, there is a record newer than the installed version.
   */
  lemma NoUpdateDecides(w: Worker, events: seq<Event>, asked: nat, answered: nat)
    requires Fresh(w) && forall k :: 0 <= k < |events| ==> Works(events[k])
    requires asked < answered < |events| && events[asked].StartCheck? && At(w, events, asked).check.NotStarted?
    requires events[answered] == Settle(Runs.NoUpdate) && At(w, events, answered).check.Asking?
    requires AllSettled(StatusQueue.After(w, events).jobs)
    ensures
      var now := StatusQueue.After(w, events);
      if forall k :: asked <= k < |events| ==> !Accepts(At(w, events, k), events[k])
      then ReadStatus(now.cell).None?
      else Current(w.life, ReadStatus(now.cell))
  {
    hide Components, Perform, ReadStatus, Current, Step, Explained, StatusQueue.After, Reached, Accepts,
         Runs.PerformFirst;
    var now, g, c := StatusQueue.After(w, events), At(w, events, asked).generation, |At(w, events, answered).jobs|;
    var requests, core := Requests(now.jobs), Core(w.cell, 0);
    RemovalInQueue(w, events, asked, answered);
    RequestsPersist(w, events[..answered], asked);
    assert events[..answered][..asked] == events[..asked];
    assert |Requests(At(w, events, asked).jobs)| <= |Requests(At(w, events, answered).jobs)|;
    GenerationReached(w, events, asked, c);
    SettledLeaveCore(w, events);
    GenerationSince(w, events, asked);
    Runs.GenerationGrows(w.life, core, requests, c, |requests|);
    if now.generation == g {
      Runs.ClearedStaysClear(w.life, core, requests, c, |requests|);
    } else {
      Runs.AcceptedStays(w.life, core, requests, g, |requests|);
    }
  }

  /** Once all have settled, item and generation are what the operations leave one after the other. */
  lemma SettledLeaveCore(w: Worker, events: seq<Event>)
    requires Fresh(w) && forall k :: 0 <= k < |events| ==> Works(events[k])
    requires AllSettled(StatusQueue.After(w, events).jobs)
    ensures
      var now := StatusQueue.After(w, events);
      && |Requests(now.jobs)| == |now.jobs|
      && Core(now.cell, now.generation) == Runs.PerformFirst(w.life, Core(w.cell, 0), Requests(now.jobs), |now.jobs|)
  {
    hide Components, Perform, Explained, Chained, StatusQueue.After, Reached, Runs.PerformFirst;
    WorkingRunIsInOrder(w, events);
    var now, p := StatusQueue.After(w, events), Reached(w, events);
    assert p.over == |now.jobs| && p.base == now.cell;
  }

  /* ---------- The answer "update available" ---------- */

  /**
   * An answer that offers a version ranking above the installed one makes it known: while storage works and once
   * everything has settled there is a record, at that rank or a higher one, and if nothing else was asked it is
   * the offered version unless the record before ranked above it.
   */
  lemma UpdateIsStored(w: Worker, events: seq<Event>, answered: nat, version: JsValue)
    requires Fresh(w) && forall k :: 0 <= k < |events| ==> Works(events[k])
    requires answered < |events| && events[answered] == Settle(Runs.UpdateAvailable(version))
    requires At(w, events, answered).check.Asking?
    requires AllSettled(StatusQueue.After(w, events).jobs)
    requires NormalizeVersion(version).Some? && NormalizeVersion(w.life.manifest).Some?
    requires RankOf(version) > RankOf(w.life.manifest)
    ensures
      var now := StatusQueue.After(w, events);
      var before, record := ReadStatus(w.cell), ReadStatus(now.cell);
      && record.Some? && RankOf(version) <= Rank(record.value.available)
      && (|now.jobs| == 1 ==>
            if before.Some? && Rank(before.value.available) > RankOf(version) then record == before
            else Some(record.value.available) == NormalizeVersion(version))
  {
    hide Components, Perform, ReadStatus, Step, Explained, StatusQueue.After, Reached, Rank, RankOf, NewerThan,
         Runs.PerformFirst, Eligible;
    var now, c := StatusQueue.After(w, events), |At(w, events, answered).jobs|;
    var requests, core := Requests(now.jobs), Core(w.cell, 0);
    OfferInQueue(w, events, answered, version);
    SettledLeaveCore(w, events);
    EligibleExactly(w.life, version);
    Runs.OfferStays(w.life, core, requests, c, |requests|);
    CurrentExactly(w.life, now.cell);
    if |now.jobs| == 1 {
      OneApply(w.life, core, requests, version);
    }
  }

  lemma OneApply(life: Life, core: Core, requests: seq<Request>, version: JsValue)
    requires requests == [Apply(version)]
    requires NormalizeVersion(version).Some? && NormalizeVersion(life.manifest).Some?
    requires RankOf(version) > RankOf(life.manifest)
    ensures
      var before, record := ReadStatus(core.cell), ReadStatus(Runs.PerformFirst(life, core, requests, 1).cell);
      && (before.Some? && Rank(before.value.available) > RankOf(version) ==> record == before)
      && (!(before.Some? && Rank(before.value.available) > RankOf(version)) ==>
            record.Some? && Some(record.value.available) == NormalizeVersion(version))
  {
    hide Components, ReadStatus, PerformApply, Rank, RankOf;
    ApplyExactly(life, core, version, Fate(true, true));
    assert Runs.PerformFirst(life, core, requests, 0) == core;
  }

  lemma OfferInQueue(w: Worker, events: seq<Event>, answered: nat, version: JsValue)
    requires Fresh(w) && forall k :: 0 <= k < |events| ==> !events[k].Die?
    requires answered < |events| && events[answered] == Settle(Runs.UpdateAvailable(version))
    requires At(w, events, answered).check.Asking?
    ensures
      var c, requests := |At(w, events, answered).jobs|, Requests(StatusQueue.After(w, events).jobs);
      && c < |requests| && requests[c] == Apply(version)
      && forall i :: 0 <= i < |requests| ==> !requests[i].Clear?
  {
    hide Components, Step, StatusQueue.After;
    var c := |At(w, events, answered).jobs|;
    AskedAndAnswered(At(w, events, answered));
    AtNext(w, events, answered);
    RequestsPersist(w, events, answered + 1);
    assert Requests(At(w, events, answered + 1).jobs)[c] == Apply(version);
    forall k | 0 <= k < |events| && events[k] == Settle(Runs.NoUpdate) ensures !Enabled(At(w, events, k), events[k]) {
      if k > answered {
        assert events[..k][..answered] == events[..answered];
        AnsweredOnce(w, events[..k], answered);
      } else if Enabled(At(w, events, k), events[k]) {
        assert events[..answered][..k] == events[..k];
        AnsweredOnce(w, events[..answered], k);
      }
    }
    NoClearBefore(w, events);
  }

  /* ---------- Every sequence of requests settles ---------- */

  lemma {:induction false} AfterBoth(w: Worker, first: seq<Event>, second: seq<Event>)
    ensures StatusQueue.After(w, first + second) == StatusQueue.After(StatusQueue.After(w, first), second)
  {
    hide Step;
    if second == [] {
      assert first + second == first;
    } else {
      var events := first + second;
      assert events[..|events| - 1] == first + second[..|second| - 1];
      AfterBoth(w, first, second[..|second| - 1]);
    }
  }

  function Arrivals(requests: seq<Request>): (events: seq<Event>)
    ensures |events| == |requests| && forall k :: 0 <= k < |events| ==> Works(events[k])
  {
    seq(|requests|, i requires 0 <= i < |requests| => Arrive(requests[i]))
  }

  /** Requests that arrive are queued, each once and in order. */
  lemma {:induction false} ArrivalsQueue(w: Worker, requests: seq<Request>)
    requires forall i :: 0 <= i < |requests| ==> !requests[i].Clear?
    ensures Requests(StatusQueue.After(w, Arrivals(requests)).jobs) == Requests(w.jobs) + requests
  {
    var events := Arrivals(requests);
    if requests == [] {
      assert StatusQueue.After(w, []) == w;
    } else {
      var n := |requests| - 1;
      ArrivalsQueue(w, requests[..n]);
      assert events[..n] == Arrivals(requests[..n]);
      assert requests == requests[..n] + [requests[n]];
      ArrivalQueues(StatusQueue.After(w, events[..n]), requests[n]);
    }
  }

  lemma ArrivalQueues(w: Worker, request: Request)
    requires !request.Clear?
    ensures Requests(Step(w, Arrive(request)).jobs) == Requests(w.jobs) + [request]
  {
  }

  lemma {:induction false} InternalKeepsRequests(w: Worker, events: seq<Event>)
    requires forall k :: 0 <= k < |events| ==> Internal(events[k])
    ensures Requests(StatusQueue.After(w, events).jobs) == Requests(w.jobs)
  {
    hide Components, Begun, Resumed;
    if events != [] {
      InternalKeepsRequests(w, events[..|events| - 1]);
    }
  }

  /**
   * Whatever requests arrive in whatever order, there is a run with working storage in which they are queued in
   * that order and all settle; so what is said of settled runs is said of something for every such order.
   */
  lemma SettledRunExists(w: Worker, requests: seq<Request>) returns (events: seq<Event>)
    requires Fresh(w) && forall i :: 0 <= i < |requests| ==> !requests[i].Clear?
    ensures forall k :: 0 <= k < |events| ==> Works(events[k])
    ensures Requests(StatusQueue.After(w, events).jobs) == requests && AllSettled(StatusQueue.After(w, events).jobs)
  {
    hide Step, StatusQueue.After, Works, Internal, Work;
    var arrived := Arrivals(requests);
    var queued := StatusQueue.After(w, arrived);
    ArrivalsQueue(w, requests);
    RunIsChained(w, arrived);
    var rest := QueueDrains(queued);
    InternalKeepsRequests(queued, rest);
    AfterBoth(w, arrived, rest);
    events := arrived + rest;
  }

  /**
   * Likewise for a check that is asked at once and answered: a run settles what the answer asks for.  With
   * "no update" it ends without a record, with an offer above the installed version it ends with one.
   */
  lemma CheckedRunExists(w: Worker, answer: Runs.Answer) returns (events: seq<Event>)
    requires Fresh(w)
    ensures |events| >= 2 && events[0] == StartCheck && events[1] == Settle(answer)
    ensures forall k :: 0 <= k < |events| ==> Works(events[k])
    ensures Requests(StatusQueue.After(w, events).jobs) == Runs.FollowUp(answer, 0)
    ensures AllSettled(StatusQueue.After(w, events).jobs)
    ensures answer.NoUpdate? ==> ReadStatus(StatusQueue.After(w, events).cell).None?
    ensures answer.Silent? ==> StatusQueue.After(w, events).cell == w.cell
  {
    hide Step, StatusQueue.After, Internal, Work, ReadStatus, Components;
    var first := [StartCheck, Settle(answer)];
    var queued := StatusQueue.After(w, first);
    CheckedTwice(w, answer);
    RunIsChained(w, first);
    var rest := QueueDrains(queued);
    InternalKeepsRequests(queued, rest);
    AfterBoth(w, first, rest);
    events := first + rest;
    SettledLeaveCore(w, events);
    CheckLeaves(w, answer);
  }

  lemma CheckedTwice(w: Worker, answer: Runs.Answer)
    requires Fresh(w)
    ensures Requests(StatusQueue.After(w, [StartCheck, Settle(answer)]).jobs) == Runs.FollowUp(answer, 0)
  {
    var events := [StartCheck, Settle(answer)];
    assert events[..1] == [StartCheck] && [StartCheck][..0] == [];
    assert StatusQueue.After(w, []) == w;
    assert StatusQueue.After(w, [StartCheck]) == Step(w, StartCheck);
    AskedAndAnswered(w);
    AskedAndAnswered(Step(w, StartCheck));
  }

  lemma CheckLeaves(w: Worker, answer: Runs.Answer)
    ensures
      var requests := Runs.FollowUp(answer, 0);
      var cell := Runs.PerformFirst(w.life, Core(w.cell, 0), requests, |requests|).cell;
      && (answer.NoUpdate? ==> ReadStatus(cell).None?)
      && (answer.Silent? ==> cell == w.cell)
  {
    hide Components, ReadStatus, PerformClear, PerformApply;
    var requests, core := Runs.FollowUp(answer, 0), Core(w.cell, 0);
    assert Runs.PerformFirst(w.life, core, requests, 0) == core;
    if answer.NoUpdate? {
      Runs.ClearLeavesNone(w.life, core, requests[0]);
    }
  }
}
