/**
 * What every history of backup runs keeps: markers and statuses mean receipts, markers are never
 * overwritten, and every published file is whole (apps/server/scripts/backup-remote.py).
 */
module BackupSafety {
  import opened Js
  import opened BackupRuns

  function At(h: Host, events: seq<Event>, k: nat): Host
    requires k <= |events|
  {
    After(h, events[..k])
  }

  lemma AtNext(h: Host, events: seq<Event>, k: nat)
    requires k < |events|
    ensures At(h, events, k + 1) == Step(At(h, events, k), events[k])
  {
    hide Step;
    assert events[..k + 1][..k] == events[..k];
  }

  /* ---------- Receipts ---------- */

  /** The run's round is about this key, with this checksum and size. */
  predicate About(point: Point, key: Key, sha: string, bytes: nat) {
    && (point.Uploading? || point.Checking?)
    && point.next < |point.plan.keys|
    && point.plan.keys[point.next] == key && point.plan.sha == sha && point.plan.bytes == bytes
  }

  /** Event `u` is run `pid` uploading `key` with this checksum and size. */
  ghost predicate Uploads(h: Host, events: seq<Event>, u: nat, pid: nat, key: Key, sha: string, bytes: nat)
    requires u < |events|
  {
    && events[u].Put? && events[u].pid == pid && Enabled(At(h, events, u), events[u])
    && About(At(h, events, u).runs[pid].point, key, sha, bytes)
  }

  /** Event `r` is run `pid` asking the bucket about `key` and being told this checksum and size. */
  ghost predicate Confirms(h: Host, events: seq<Event>, r: nat, pid: nat, key: Key, sha: string, bytes: nat)
    requires r < |events|
  {
    && events[r] == Head(pid) && Enabled(At(h, events, r), events[r])
    && About(At(h, events, r).runs[pid].point, key, sha, bytes)
    && key in At(h, events, r).remote && At(h, events, r).remote[key] == RemoteObject(Some(sha), bytes)
  }

  /** Among the first `n` events one run uploaded `key` and then saw the bucket confirm it. */
  ghost predicate Received(h: Host, events: seq<Event>, n: nat, key: Key, sha: string, bytes: nat)
    requires n <= |events|
  {
    exists u, r, pid :: 0 <= u < r < n && Uploads(h, events, u, pid, key, sha, bytes)
                        && Confirms(h, events, r, pid, key, sha, bytes)
  }

  ghost predicate Uploaded(h: Host, events: seq<Event>, n: nat, pid: nat, key: Key, sha: string, bytes: nat)
    requires n <= |events|
  {
    exists u :: 0 <= u < n && Uploads(h, events, u, pid, key, sha, bytes)
  }

  /** How many keys of its plan a run has had confirmed. */
  function Confirmed(point: Point): nat {
    match point
    case Uploading(_, next) => next
    case Checking(_, next) => next
    case MarkerWriting(_, next) => next + 1
    case MarkerRenaming(_, next) => next + 1
    case StatusWriting(plan) => |plan.keys|
    case StatusRenaming(plan) => |plan.keys|
    case Reporting(plan) => |plan.keys|
    case _ => 0
  }

  function PlanOf(point: Point): Plan {
    match point
    case Uploading(plan, _) => plan
    case Checking(plan, _) => plan
    case MarkerWriting(plan, _) => plan
    case MarkerRenaming(plan, _) => plan
    case StatusWriting(plan) => plan
    case StatusRenaming(plan) => plan
    case Reporting(plan) => plan
    case _ => Plan("", 0, [])
  }

  /** What a run counts as confirmed was received, and what it is about to check was uploaded. */
  ghost predicate RunSeen(h: Host, events: seq<Event>, n: nat, pid: nat, point: Point)
    requires n <= |events|
  {
    var plan := PlanOf(point);
    && Confirmed(point) <= |plan.keys|
    && (forall i :: 0 <= i < Confirmed(point) ==> Received(h, events, n, plan.keys[i], plan.sha, plan.bytes))
    && (point.Checking? ==> point.next < |plan.keys|
                            && Uploaded(h, events, n, pid, plan.keys[point.next], plan.sha, plan.bytes))
  }

  ghost predicate MarkerSeen(h: Host, events: seq<Event>, n: nat, day: nat, content: Content)
    requires n <= |events|
  {
    && content.Marker? && content.key.Daily? && Day(content.key.stamp) == day
    && Received(h, events, n, content.key, content.sha, content.bytes)
  }

  ghost predicate StatusSeen(h: Host, events: seq<Event>, n: nat, files: Files, content: Content)
    requires n <= |events|
  {
    && content.Success? && content.keys != [] && content.keys[0].Hourly?
    && MarkerFile(Day(content.keys[0].stamp)) in files
    && forall i :: 0 <= i < |content.keys| ==> Received(h, events, n, content.keys[i], content.sha, content.bytes)
  }

  ghost predicate Seen(h: Host, events: seq<Event>, n: nat)
    requires n <= |events|
  {
    var now := At(h, events, n);
    && (forall pid :: pid in now.runs ==> RunSeen(h, events, n, pid, now.runs[pid].point))
    && (forall day :: MarkerFile(day) in now.files ==> MarkerSeen(h, events, n, day, now.files[MarkerFile(day)]))
    && (StatusFile in now.files ==> StatusSeen(h, events, n, now.files, now.files[StatusFile]))
  }

  lemma ReceivedStays(h: Host, events: seq<Event>, n: nat, key: Key, sha: string, bytes: nat)
    requires n < |events| && Received(h, events, n, key, sha, bytes)
    ensures Received(h, events, n + 1, key, sha, bytes)
  {
  }

  /**
   * A run at the same point of the same plan, or at a point that counts no more keys, has still seen what it
   * counts.
   */
  lemma SeenStays(h: Host, events: seq<Event>, n: nat, pid: nat, before: Point, point: Point)
    requires n < |events| && RunSeen(h, events, n, pid, before)
    requires point == before
          || (!point.Checking? && Confirmed(point) <= Confirmed(before)
              && (Confirmed(point) > 0 ==> PlanOf(point) == PlanOf(before)))
    ensures RunSeen(h, events, n + 1, pid, point)
  {
    hide Uploads, Confirms;
    var plan := PlanOf(before);
    forall i | 0 <= i < Confirmed(point) ensures Received(h, events, n + 1, plan.keys[i], plan.sha, plan.bytes) {
      ReceivedStays(h, events, n, plan.keys[i], plan.sha, plan.bytes);
    }
    if point.Checking? {
      var u :| 0 <= u < n && Uploads(h, events, u, pid, plan.keys[before.next], plan.sha, plan.bytes);
      assert Uploads(h, events, u, pid, plan.keys[point.next], plan.sha, plan.bytes);
    }
  }

  lemma PutSeen(h: Host, events: seq<Event>, n: nat, pid: nat, point: Point)
    requires n < |events| && events[n].Put? && events[n].pid == pid && Enabled(At(h, events, n), events[n])
    requires point == At(h, events, n).runs[pid].point && RunSeen(h, events, n, pid, point)
    ensures RunSeen(h, events, n + 1, pid, Checking(point.plan, point.next))
  {
    hide Confirms, Step;
    var plan := point.plan;
    assert Uploads(h, events, n, pid, plan.keys[point.next], plan.sha, plan.bytes);
    forall i | 0 <= i < point.next ensures Received(h, events, n + 1, plan.keys[i], plan.sha, plan.bytes) {
      ReceivedStays(h, events, n, plan.keys[i], plan.sha, plan.bytes);
    }
  }

  lemma HeadSeen(h: Host, events: seq<Event>, n: nat, pid: nat, point: Point)
    requires n < |events| && events[n] == Head(pid) && Enabled(At(h, events, n), events[n])
    requires point == At(h, events, n).runs[pid].point && RunSeen(h, events, n, pid, point)
    ensures RunSeen(h, events, n + 1, pid, AfterHead(At(h, events, n), point.plan, point.next))
  {
    hide Step, Target, Value;
    var now, plan, next := At(h, events, n), point.plan, point.next;
    var key := plan.keys[next];
    forall i | 0 <= i < next ensures Received(h, events, n + 1, plan.keys[i], plan.sha, plan.bytes) {
      ReceivedStays(h, events, n, plan.keys[i], plan.sha, plan.bytes);
    }
    if ReceiptMatches(now.remote, key, plan.sha, plan.bytes) {
      var u :| 0 <= u < n && Uploads(h, events, u, pid, key, plan.sha, plan.bytes);
      assert Confirms(h, events, n, pid, key, plan.sha, plan.bytes);
      assert Received(h, events, n + 1, key, plan.sha, plan.bytes);
    }
  }

  lemma OthersStay(h: Host, e: Event, pid: nat)
    requires pid in h.runs && (e.Drift? || e.pid != pid)
    ensures pid in Step(h, e).runs && Step(h, e).runs[pid] == h.runs[pid]
  {
    hide Target, Value, ReceiptMatches;
  }

  /** Every event other than an upload or a check leaves a run at a point that counts no more keys than before. */
  lemma OthersCountNoMore(h: Host, e: Event, pid: nat)
    requires Sound(h) && Enabled(h, e) && pid in h.runs
    requires (e.Put? || e.Head?) ==> e.pid != pid
    ensures pid in Step(h, e).runs
    ensures
      var before, point := h.runs[pid].point, Step(h, e).runs[pid].point;
      point == before
      || (!point.Checking? && Confirmed(point) <= Confirmed(before)
          && (Confirmed(point) > 0 ==> PlanOf(point) == PlanOf(before)))
  {
    hide MarkerSettled, ReceiptMatches, Day, Target, Value;
    if e.Drift? || e.pid != pid {
      OthersStay(h, e, pid);
    } else {
      assert RunOk(h.files, h.runs[pid]);
    }
  }

  lemma RunsStaySeen(h: Host, events: seq<Event>, n: nat, pid: nat)
    requires n < |events| && Seen(h, events, n) && Sound(At(h, events, n))
    requires pid in At(h, events, n + 1).runs
    ensures RunSeen(h, events, n + 1, pid, At(h, events, n + 1).runs[pid].point)
  {
    hide Sound, RunSeen, MarkerSeen, StatusSeen, Received, Uploads, Confirms;
    AtNext(h, events, n);
    var now, e := At(h, events, n), events[n];
    if !Enabled(now, e) {
      SeenStays(h, events, n, pid, now.runs[pid].point, now.runs[pid].point);
    } else if pid !in now.runs {
      WaitingSeen(h, events, n + 1, pid);
    } else if e.Put? && e.pid == pid {
      PutSeen(h, events, n, pid, now.runs[pid].point);
    } else if e.Head? && e.pid == pid {
      HeadSeen(h, events, n, pid, now.runs[pid].point);
    } else {
      OthersCountNoMore(now, e, pid);
      SeenStays(h, events, n, pid, now.runs[pid].point, Step(now, e).runs[pid].point);
    }
  }

  lemma WaitingSeen(h: Host, events: seq<Event>, n: nat, pid: nat)
    requires n <= |events|
    ensures RunSeen(h, events, n, pid, Waiting)
  {
  }

  /** The file that an event replaces, by renaming a pending file to it. */
  function Replaced(h: Host, e: Event): Option<File> {
    if e.Rename? && Enabled(h, e) then Some(Target(h.runs[e.pid])) else None
  }

  /**
   * Publishing is atomic: an event replaces at most one published file, by the whole value its run
   * publishes, and a run cut short anywhere else leaves every published file as it was.
   */
  lemma PublishedWhole(h: Host, e: Event, file: File)
    requires Sound(h) && !file.Pending?
    ensures
      if Replaced(h, e) == Some(file) then
        && file in Step(h, e).files && Step(h, e).files[file] == Value(h.runs[e.pid]) && Value(h.runs[e.pid]) != Torn
      else
        && (file in Step(h, e).files <==> file in h.files)
        && (file in h.files ==> Step(h, e).files[file] == h.files[file])
  {
    if Replaced(h, e) == Some(file) {
      assert RunOk(h.files, h.runs[e.pid]);
    }
  }

  lemma MarkersStaySeen(h: Host, events: seq<Event>, n: nat, day: nat)
    requires n < |events| && Seen(h, events, n) && Sound(At(h, events, n))
    requires MarkerFile(day) in At(h, events, n + 1).files
    ensures MarkerSeen(h, events, n + 1, day, At(h, events, n + 1).files[MarkerFile(day)])
  {
    hide Sound, StatusSeen, Uploads, Confirms, Step;
    AtNext(h, events, n);
    var now, e := At(h, events, n), events[n];
    PublishedWhole(now, e, MarkerFile(day));
    if Replaced(now, e) == Some(MarkerFile(day)) {
      var run := now.runs[e.pid];
      var plan := PlanOf(run.point);
      HolderPlan(now, e.pid);
      assert RunSeen(h, events, n, e.pid, run.point);
      ReceivedStays(h, events, n, plan.keys[1], plan.sha, plan.bytes);
    } else {
      var content := now.files[MarkerFile(day)];
      assert MarkerSeen(h, events, n, day, content);
      ReceivedStays(h, events, n, content.key, content.sha, content.bytes);
    }
  }

  /** What a run that is about to rename relies on. */
  lemma HolderPlan(h: Host, pid: nat)
    requires Sound(h) && pid in h.runs
    ensures
      var run := h.runs[pid];
      && (run.point.MarkerRenaming? ==>
            run.point.next == 1 && run.point.plan.keys == [Hourly(run.stamp), Daily(run.stamp)]
            && MarkerFile(Day(run.stamp)) !in h.files)
      && (run.point.StatusRenaming? ==>
            PlanFor(run.point.plan, run.stamp) && MarkerFile(Day(run.stamp)) in h.files)
  {
    assert RunOk(h.files, h.runs[pid]);
  }

  lemma StatusStaysSeen(h: Host, events: seq<Event>, n: nat)
    requires n < |events| && Seen(h, events, n) && Sound(At(h, events, n))
    requires StatusFile in At(h, events, n + 1).files
    ensures StatusSeen(h, events, n + 1, At(h, events, n + 1).files, At(h, events, n + 1).files[StatusFile])
  {
    hide Sound, MarkerSeen, Uploads, Confirms, Step;
    AtNext(h, events, n);
    var now, e := At(h, events, n), events[n];
    PublishedWhole(now, e, StatusFile);
    var content := At(h, events, n + 1).files[StatusFile];
    if Replaced(now, e) == Some(StatusFile) {
      var run := now.runs[e.pid];
      HolderPlan(now, e.pid);
      assert RunSeen(h, events, n, e.pid, run.point);
      PublishedWhole(now, e, MarkerFile(Day(run.stamp)));
      forall i | 0 <= i < |content.keys|
        ensures Received(h, events, n + 1, content.keys[i], content.sha, content.bytes)
      {
        ReceivedStays(h, events, n, content.keys[i], content.sha, content.bytes);
      }
    } else {
      assert StatusSeen(h, events, n, now.files, content);
      PublishedWhole(now, e, MarkerFile(Day(content.keys[0].stamp)));
      forall i | 0 <= i < |content.keys|
        ensures Received(h, events, n + 1, content.keys[i], content.sha, content.bytes)
      {
        ReceivedStays(h, events, n, content.keys[i], content.sha, content.bytes);
      }
    }
  }

  lemma {:induction false} AlwaysSeen(h: Host, events: seq<Event>, n: nat)
    requires Unused(h) && n <= |events|
    ensures Seen(h, events, n)
  {
    hide Sound, RunSeen, MarkerSeen, StatusSeen, Step;
    if n == 0 {
      assert events[..0] == [];
    } else {
      AlwaysSeen(h, events, n - 1);
      HistoryIsSound(h, events[..n - 1]);
      forall pid | pid in At(h, events, n).runs ensures RunSeen(h, events, n, pid, At(h, events, n).runs[pid].point) {
        RunsStaySeen(h, events, n - 1, pid);
      }
      forall day | MarkerFile(day) in At(h, events, n).files
        ensures MarkerSeen(h, events, n, day, At(h, events, n).files[MarkerFile(day)])
      {
        MarkersStaySeen(h, events, n - 1, day);
      }
      if StatusFile in At(h, events, n).files {
        StatusStaysSeen(h, events, n - 1);
      }
    }
  }

  /* ---------- Main results ---------- */

  /**
   * In every history, with runs failing or killed anywhere and the bucket drifting, a marker for day `d`
   * names a daily key of that day that some run uploaded and then saw the bucket confirm, with the digest
   * and size that the marker records.
   */
  lemma MarkerMeansReceipt(h: Host, events: seq<Event>, day: nat)
    requires Unused(h) && MarkerFile(day) in After(h, events).files
    ensures MarkerSeen(h, events, |events|, day, After(h, events).files[MarkerFile(day)])
  {
    AlwaysSeen(h, events, |events|);
    assert events[..|events|] == events;
  }

  /** No later run overwrites a marker, however the history goes on. */
  lemma {:induction false} MarkerIsNeverOverwritten(h: Host, events: seq<Event>, k: nat, day: nat)
    requires Unused(h) && k <= |events| && MarkerFile(day) in At(h, events, k).files
    ensures MarkerFile(day) in After(h, events).files
    ensures After(h, events).files[MarkerFile(day)] == At(h, events, k).files[MarkerFile(day)]
    decreases |events|
  {
    hide Step, Sound, Target, Value;
    if k == |events| {
      assert events[..k] == events;
    } else {
      var n := |events| - 1;
      assert events[..n][..k] == events[..k];
      MarkerIsNeverOverwritten(h, events[..n], k, day);
      HistoryIsSound(h, events[..n]);
      MarkerStays(After(h, events[..n]), events[n], day);
    }
  }

  lemma MarkerStays(h: Host, e: Event, day: nat)
    requires Sound(h) && MarkerFile(day) in h.files
    ensures MarkerFile(day) in Step(h, e).files && Step(h, e).files[MarkerFile(day)] == h.files[MarkerFile(day)]
  {
    hide Sound, Step;
    PublishedWhole(h, e, MarkerFile(day));
    if Replaced(h, e) == Some(MarkerFile(day)) {
      HolderPlan(h, e.pid);
    }
  }

  /**
   * Of the runs of a UTC day, those that plan their keys after one has published the day's marker make no daily
   * copy, and those that plan them before do, however the history went and goes on.
   */
  lemma DailyCopyIsMadeOnce(h: Host, events: seq<Event>, k: nat, pid: nat, sha: string, bytes: nat)
    requires Unused(h) && k <= |events|
    requires pid in After(h, events).runs && After(h, events).runs[pid].point == Preparing(Encrypt)
    ensures
      var now := After(h, events);
      var stamp := now.runs[pid].stamp;
      var planned := Step(now, PlanKeys(pid, sha, bytes)).runs[pid].point;
      && (MarkerFile(stamp / 86400) in At(h, events, k).files ==>
            planned == Uploading(Plan(sha, bytes, [Hourly(stamp)]), 0))
      && (MarkerFile(stamp / 86400) !in now.files ==>
            planned == Uploading(Plan(sha, bytes, [Hourly(stamp), Daily(stamp)]), 0))
  {
    hide Keys, After;
    var now := After(h, events);
    var stamp := now.runs[pid].stamp;
    KeysExactly(now.files, stamp);
    if MarkerFile(stamp / 86400) in At(h, events, k).files {
      MarkerIsNeverOverwritten(h, events, k, stamp / 86400);
    }
  }

  /**
   * Whenever the status file holds a value, it is a success whose every key was uploaded and confirmed
   * with the digest and size it records, and the marker for that run's day exists.
   */
  lemma SuccessMeansReceipts(h: Host, events: seq<Event>)
    requires Unused(h) && StatusFile in After(h, events).files
    ensures StatusSeen(h, events, |events|, After(h, events).files, After(h, events).files[StatusFile])
  {
    AlwaysSeen(h, events, |events|);
    assert events[..|events|] == events;
  }

  /** The one event that changes the status: the last rename of a run that has published everything else. */
  predicate PublishesStatus(h: Host, e: Event) {
    e.Rename? && Enabled(h, e) && h.runs[e.pid].point.StatusRenaming?
  }

  /** As long as no run gets to that rename, the previous status value, or its absence, is intact. */
  lemma {:induction false} StatusIntactUntilPublished(h: Host, events: seq<Event>, k: nat)
    requires Unused(h) && k <= |events|
    requires forall i :: k <= i < |events| ==> !PublishesStatus(At(h, events, i), events[i])
    ensures StatusFile in After(h, events).files <==> StatusFile in At(h, events, k).files
    ensures StatusFile in After(h, events).files ==>
      After(h, events).files[StatusFile] == At(h, events, k).files[StatusFile]
    decreases |events|
  {
    hide Step, Sound;
    if k == |events| {
      assert events[..k] == events;
    } else {
      var n := |events| - 1;
      var prefix := events[..n];
      forall i | k <= i < n ensures !PublishesStatus(At(h, prefix, i), prefix[i]) {
        assert prefix[..i] == events[..i];
        assert !PublishesStatus(At(h, events, i), events[i]);
      }
      assert prefix[..k] == events[..k];
      StatusIntactUntilPublished(h, prefix, k);
      HistoryIsSound(h, prefix);
      PublishedWhole(After(h, prefix), events[n], StatusFile);
      assert !PublishesStatus(At(h, events, n), events[n]);
    }
  }

  /** No published file is ever torn, although pending ones may be. */
  lemma {:induction false} PublishedNeverTorn(h: Host, events: seq<Event>, file: File)
    requires Unused(h) && !file.Pending? && file in After(h, events).files
    ensures After(h, events).files[file] != Torn
  {
    hide Step, Sound, Target, Value;
    if events != [] {
      var prefix := events[..|events| - 1];
      HistoryIsSound(h, prefix);
      PublishedWhole(After(h, prefix), events[|events| - 1], file);
      if file in After(h, prefix).files {
        PublishedNeverTorn(h, prefix, file);
      }
    }
  }

  /** Which of the five phases of preparation this is. */
  function PhaseIndex(phase: Phase): nat {
    match phase
    case Lock => 0
    case Capture => 1
    case Verify => 2
    case Archive => 3
    case _ => 4
  }

  /** How many events moved run `pid` to its next phase of preparation. */
  function Prepared(h: Host, events: seq<Event>, pid: nat): nat {
    if events == [] then 0
    else
      var prefix, e := events[..|events| - 1], events[|events| - 1];
      Prepared(h, prefix, pid) + (if e == Prepare(pid) && Enabled(After(h, prefix), e) then 1 else 0)
  }

  predicate PreparedFor(point: Point, prepared: nat) {
    match point
    case Waiting => prepared == 0
    case Preparing(phase) => prepared == PhaseIndex(phase) && phase != Upload && phase != Receipt
    case Exited => true
    case FailureWriting(_) => true
    case FailureRenaming(_) => true
    case _ => prepared == 4
  }

  lemma StepPrepares(h: Host, e: Event, pid: nat, prepared: nat)
    requires if pid in h.runs then PreparedFor(h.runs[pid].point, prepared) else prepared == 0
    ensures
      var now := prepared + (if e == Prepare(pid) && Enabled(h, e) then 1 else 0);
      if pid in Step(h, e).runs then PreparedFor(Step(h, e).runs[pid].point, now) else now == 0
  {
    hide Target, Value, ReceiptMatches, Keys, Tear;
  }

  /**
   * A run goes through capture, verification, archive and encryption in this order, one step each, before it
   * plans any key; so nothing is uploaded, and no marker or status published, that was not prepared in full.
   */
  lemma {:induction false} NothingUnprepared(h: Host, events: seq<Event>, pid: nat)
    requires Unused(h)
    ensures
      var now := After(h, events);
      if pid in now.runs then PreparedFor(now.runs[pid].point, Prepared(h, events, pid))
      else Prepared(h, events, pid) == 0
  {
    hide Step, PreparedFor, Enabled;
    if events != [] {
      NothingUnprepared(h, events[..|events| - 1], pid);
      StepPrepares(After(h, events[..|events| - 1]), events[|events| - 1], pid,
                   Prepared(h, events[..|events| - 1], pid));
    }
  }

  /** At no moment of any history do two runs hold the lock, and a run that dies or leaves frees it for the next. */
  lemma LockExcludes(h: Host, events: seq<Event>, p: nat, q: nat)
    requires Unused(h)
    ensures
      var now := After(h, events);
      && (p in now.runs && q in now.runs && Locked(now.runs[p].point) && Locked(now.runs[q].point) ==> p == q)
      && (p in now.runs && now.runs[p].point.Waiting? && now.lock.None? ==>
            Locked(Step(now, TakeLock(p)).runs[p].point))
      && (p in now.runs && now.runs[p].point.Waiting? && now.lock.Some? ==>
            Step(now, TakeLock(p)) == now.(runs := now.runs[p := Run(now.runs[p].stamp, Exited)]))
      && (p in now.runs && Locked(now.runs[p].point) ==> Step(now, Die(p, false)).lock.None?)
  {
    HistoryIsSound(h, events);
  }
}
