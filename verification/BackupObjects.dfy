/**
 * What markers and statuses say about the bucket at every later moment: the objects they name are still
 * there, unless the bucket itself changes or expires them (apps/server/scripts/backup-remote.py).
 */
module BackupObjects {
  import opened Js
  import opened BackupRuns
  import opened BackupSafety

  /** An event leaves the object under `key` alone, or it is a run's upload of that key of its own plan. */
  lemma OnlyOwnKeysChange(h: Host, e: Event, key: Key)
    requires Sound(h) && (e.Drift? ==> e.key != key)
    ensures
      || SameAt(h.remote, Step(h, e).remote, key)
      || (e.pid in h.runs && Uploads(h.runs[e.pid], key) && h.lock == Some(e.pid)
          && (key.Daily? ==> MarkerFile(Day(key.stamp)) !in h.files))
  {
    hide Target, Value, ReceiptMatches;
    if (e.Put? || e.Store?) && Enabled(h, e) {
      assert RunOk(h.files, h.runs[e.pid]);
    }
  }

  /** The run is at the upload of `key`, which bears its own time stamp. */
  predicate Uploads(run: Run, key: Key) {
    && run.point.Uploading? && run.point.next < |run.point.plan.keys|
    && run.point.plan.keys[run.point.next] == key && key.stamp == run.stamp
  }

  lemma SameReceipt(h: Host, after: Host, key: Key, sha: string, bytes: nat)
    requires SameAt(h.remote, after.remote, key)
    ensures ReceiptMatches(after.remote, key, sha, bytes) <==> ReceiptMatches(h.remote, key, sha, bytes)
  {
  }

  /**
   * Once a day has its marker, no run uploads a daily object of that day again: only the bucket itself can
   * change one.
   */
  lemma MarkedDayIsNotUploadedAgain(h: Host, events: seq<Event>, e: Event, key: Key)
    requires Unused(h) && key.Daily? && MarkerFile(Day(key.stamp)) in After(h, events).files
    requires e.Drift? ==> e.key != key
    ensures SameAt(After(h, events).remote, Step(After(h, events), e).remote, key)
  {
    hide Sound, Step;
    HistoryIsSound(h, events);
    OnlyOwnKeysChange(After(h, events), e, key);
  }

  /* ---------- Markers ---------- */

  predicate MarkerNames(files: Files, key: Key) {
    var file := MarkerFile(Day(key.stamp));
    file in files && files[file].Marker? && files[file].key == key
  }

  /** The run has seen the bucket confirm `key` and is publishing the marker that names it. */
  predicate WritesMarker(run: Run, key: Key) {
    (run.point.MarkerWriting? || run.point.MarkerRenaming?) && Daily(run.stamp) == key
  }

  predicate Named(h: Host, key: Key) {
    MarkerNames(h.files, key) || exists pid :: pid in h.runs && WritesMarker(h.runs[pid], key)
  }

  /** What names `key` gives the digest and size that the bucket holds. */
  predicate NamedHeld(h: Host, key: Key) {
    && (MarkerNames(h.files, key) ==>
          var content := h.files[MarkerFile(Day(key.stamp))];
          ReceiptMatches(h.remote, key, content.sha, content.bytes))
    && (forall pid :: pid in h.runs && WritesMarker(h.runs[pid], key) ==>
          ReceiptMatches(h.remote, key, h.runs[pid].point.plan.sha, h.runs[pid].point.plan.bytes))
  }

  lemma MarkerReplaced(h: Host, e: Event, day: nat)
    requires Sound(h) && Replaced(h, e) == Some(MarkerFile(day))
    ensures
      var run := h.runs[e.pid];
      && run.point.MarkerRenaming? && day == Day(run.stamp) && Step(h, e).remote == h.remote
      && Value(run) == Marker(Daily(run.stamp), run.point.plan.sha, run.point.plan.bytes)
  {
    HolderPlan(h, e.pid);
  }

  lemma MarkerStaysHeld(h: Host, e: Event, key: Key)
    requires Sound(h) && key.Daily? && NamedHeld(h, key) && (e.Drift? && e.key == key ==> !Named(h, key))
    requires MarkerNames(Step(h, e).files, key)
    ensures
      var content := Step(h, e).files[MarkerFile(Day(key.stamp))];
      ReceiptMatches(Step(h, e).remote, key, content.sha, content.bytes)
  {
    hide Sound, Step, Target, Value, ReceiptMatches;
    var file := MarkerFile(Day(key.stamp));
    PublishedWhole(h, e, file);
    if Replaced(h, e) == Some(file) {
      MarkerReplaced(h, e, Day(key.stamp));
      assert WritesMarker(h.runs[e.pid], key);
    } else {
      OnlyOwnKeysChange(h, e, key);
      SameReceipt(h, Step(h, e), key, h.files[file].sha, h.files[file].bytes);
    }
  }

  lemma OwnMarkerHeld(h: Host, e: Event, pid: nat)
    requires Sound(h) && !e.Drift? && e.pid == pid && pid in h.runs
    requires
      var run := h.runs[pid];
      WritesMarker(run, Daily(run.stamp)) ==>
        ReceiptMatches(h.remote, Daily(run.stamp), run.point.plan.sha, run.point.plan.bytes)
    ensures pid in Step(h, e).runs
    ensures
      var run := Step(h, e).runs[pid];
      WritesMarker(run, Daily(run.stamp)) ==>
        ReceiptMatches(Step(h, e).remote, Daily(run.stamp), run.point.plan.sha, run.point.plan.bytes)
  {
    hide Target, Value;
    assert RunOk(h.files, h.runs[pid]);
  }

  lemma WriterStaysHeld(h: Host, e: Event, key: Key, pid: nat)
    requires Sound(h) && key.Daily? && NamedHeld(h, key) && (e.Drift? && e.key == key ==> !Named(h, key))
    requires pid in Step(h, e).runs && WritesMarker(Step(h, e).runs[pid], key)
    ensures
      var plan := Step(h, e).runs[pid].point.plan;
      ReceiptMatches(Step(h, e).remote, key, plan.sha, plan.bytes)
  {
    hide Step, ReceiptMatches, RunOk;
    WasThere(h, e, pid);
    var run := h.runs[pid];
    if e.Drift? || e.pid != pid {
      OthersStay(h, e, pid);
      OnlyOwnKeysChange(h, e, key);
      SameReceipt(h, Step(h, e), key, run.point.plan.sha, run.point.plan.bytes);
    } else {
      OwnMarkerHeld(h, e, pid);
    }
  }

  /** Runs stay and keep their time stamps; a run that has more than started was there before. */
  lemma WasThere(h: Host, e: Event, pid: nat)
    ensures pid in h.runs ==> pid in Step(h, e).runs && Step(h, e).runs[pid].stamp == h.runs[pid].stamp
    ensures pid in Step(h, e).runs && !Step(h, e).runs[pid].point.Waiting? ==> pid in h.runs
  {
    hide Target, Value, ReceiptMatches;
  }

  lemma {:induction false} AlwaysNamedHeld(h: Host, events: seq<Event>, key: Key)
    requires Unused(h) && key.Daily?
    requires forall i :: 0 <= i < |events| && events[i].Drift? && events[i].key == key ==> !Named(At(h, events, i), key)
    ensures NamedHeld(After(h, events), key)
  {
    hide Step, Sound, Named, MarkerNames, WritesMarker;
    if events == [] {
      NothingNamed(h, key);
    } else {
      var n := |events| - 1;
      var prefix, e := events[..n], events[n];
      var before := After(h, prefix);
      forall i | 0 <= i < n && prefix[i].Drift? && prefix[i].key == key ensures !Named(At(h, prefix, i), key) {
        assert prefix[..i] == events[..i];
        assert !Named(At(h, events, i), key);
      }
      AlwaysNamedHeld(h, prefix, key);
      HistoryIsSound(h, prefix);
      assert e.Drift? && e.key == key ==> !Named(At(h, events, n), key);
      StepKeepsNamedHeld(before, e, key);
    }
  }

  lemma NothingNamed(h: Host, key: Key)
    requires Unused(h)
    ensures NamedHeld(h, key)
  {
  }

  lemma StepKeepsNamedHeld(h: Host, e: Event, key: Key)
    requires Sound(h) && key.Daily? && NamedHeld(h, key) && (e.Drift? && e.key == key ==> !Named(h, key))
    ensures NamedHeld(Step(h, e), key)
  {
    hide Step, Sound, Named, MarkerNames, ReceiptMatches;
    var after := Step(h, e);
    if MarkerNames(after.files, key) {
      MarkerStaysHeld(h, e, key);
    }
    forall pid | pid in after.runs && WritesMarker(after.runs[pid], key)
      ensures ReceiptMatches(after.remote, key, after.runs[pid].point.plan.sha, after.runs[pid].point.plan.bytes)
    {
      WriterStaysHeld(h, e, key, pid);
    }
  }

  /**
   * The object that a marker names is in the bucket with the digest and size that the marker records, at every
   * moment, whatever runs did before or do later and whatever happens to other objects, unless the bucket itself
   * changes or expires this object after it was confirmed.
   */
  lemma MarkedObjectIsHeld(h: Host, events: seq<Event>, day: nat)
    requires Unused(h) && MarkerFile(day) in After(h, events).files
    requires
      var content := After(h, events).files[MarkerFile(day)];
      forall i :: 0 <= i < |events| && events[i].Drift? && content.Marker? && events[i].key == content.key ==>
        !Named(At(h, events, i), content.key)
    ensures
      var content := After(h, events).files[MarkerFile(day)];
      && content.Marker? && content.key in After(h, events).remote
      && After(h, events).remote[content.key] == RemoteObject(Some(content.sha), content.bytes)
  {
    hide Named, Step, Received;
    MarkerMeansReceipt(h, events, day);
    AlwaysNamedHeld(h, events, After(h, events).files[MarkerFile(day)].key);
  }

  /* ---------- Statuses ---------- */

  predicate StatusNames(files: Files, key: Key) {
    StatusFile in files && files[StatusFile].Success? && key in files[StatusFile].keys
  }

  /** The run has seen the bucket confirm `key` and is on its way to the status that names it. */
  predicate Counts(run: Run, key: Key) {
    var keys := PlanOf(run.point).keys;
    exists i :: 0 <= i < Confirmed(run.point) && i < |keys| && keys[i] == key
  }

  predicate Reported(h: Host, key: Key) {
    StatusNames(h.files, key) || exists pid :: pid in h.runs && Counts(h.runs[pid], key)
  }

  /** Past its uploads for good. */
  predicate Past(point: Point) {
    point.Reporting? || IsFailing(point) || point.Exited?
  }

  /** Only one run takes the time stamp of `key`. */
  predicate OneRunFor(h: Host, key: Key) {
    forall p, q :: p in h.runs && q in h.runs && h.runs[p].stamp == key.stamp && h.runs[q].stamp == key.stamp ==> p == q
  }

  predicate ReportedHeld(h: Host, key: Key) {
    && (StatusNames(h.files, key) ==>
          && ReceiptMatches(h.remote, key, h.files[StatusFile].sha, h.files[StatusFile].bytes)
          && exists pid :: pid in h.runs && h.runs[pid].stamp == key.stamp && Past(h.runs[pid].point))
    && (forall pid :: pid in h.runs && Counts(h.runs[pid], key) ==>
          var plan := PlanOf(h.runs[pid].point);
          ReceiptMatches(h.remote, key, plan.sha, plan.bytes))
  }

  lemma PastStays(h: Host, e: Event, pid: nat)
    requires pid in h.runs && Past(h.runs[pid].point)
    ensures pid in Step(h, e).runs && Past(Step(h, e).runs[pid].point)
  {
    hide Target, Value, ReceiptMatches;
  }

  lemma StatusReplaced(h: Host, e: Event, key: Key)
    requires Sound(h) && Replaced(h, e) == Some(StatusFile) && StatusNames(Step(h, e).files, key)
    ensures
      var plan := PlanOf(h.runs[e.pid].point);
      && Counts(h.runs[e.pid], key) && h.runs[e.pid].stamp == key.stamp
      && Step(h, e).files[StatusFile] == Success(plan.keys, plan.sha, plan.bytes)
      && Step(h, e).remote == h.remote
      && e.pid in Step(h, e).runs && Step(h, e).runs[e.pid] == Run(key.stamp, Reporting(plan))
  {
    PublishedWhole(h, e, StatusFile);
    HolderPlan(h, e.pid);
    var i :| 0 <= i < |PlanOf(h.runs[e.pid].point).keys| && PlanOf(h.runs[e.pid].point).keys[i] == key;
  }

  lemma StatusStaysHeld(h: Host, e: Event, key: Key)
    requires Sound(h) && OneRunFor(h, key) && ReportedHeld(h, key)
    requires e.Drift? && e.key == key ==> !Reported(h, key)
    requires StatusNames(Step(h, e).files, key)
    ensures
      var after := Step(h, e);
      && ReceiptMatches(after.remote, key, after.files[StatusFile].sha, after.files[StatusFile].bytes)
      && exists pid :: pid in after.runs && after.runs[pid].stamp == key.stamp && Past(after.runs[pid].point)
  {
    hide Sound, Step, Target, Value, ReceiptMatches, Counts;
    var after := Step(h, e);
    PublishedWhole(h, e, StatusFile);
    if Replaced(h, e) == Some(StatusFile) {
      StatusReplaced(h, e, key);
      assert after.runs[e.pid].stamp == key.stamp && Past(after.runs[e.pid].point);
    } else {
      var pid :| pid in h.runs && h.runs[pid].stamp == key.stamp && Past(h.runs[pid].point);
      PastStays(h, e, pid);
      WasThere(h, e, pid);
      OnlyOwnKeysChange(h, e, key);
      SameReceipt(h, after, key, h.files[StatusFile].sha, h.files[StatusFile].bytes);
    }
  }

  /** The keys that a run counts bear its own time stamp. */
  lemma CountsOwnStamp(h: Host, pid: nat, key: Key)
    requires Sound(h) && pid in h.runs && Counts(h.runs[pid], key)
    ensures h.runs[pid].stamp == key.stamp && Locked(h.runs[pid].point)
    ensures !Uploads(h.runs[pid], key)
  {
    assert RunOk(h.files, h.runs[pid]);
  }

  lemma OwnCountHeld(h: Host, e: Event, key: Key)
    requires Sound(h) && !e.Drift? && e.pid in h.runs && e.pid in Step(h, e).runs
    requires Counts(Step(h, e).runs[e.pid], key)
    ensures
      var plan := PlanOf(Step(h, e).runs[e.pid].point);
      || (Counts(h.runs[e.pid], key) && PlanOf(h.runs[e.pid].point) == plan)
      || (ReceiptMatches(h.remote, key, plan.sha, plan.bytes) && Step(h, e).remote == h.remote)
  {
    hide Target, Value;
    assert RunOk(h.files, h.runs[e.pid]);
  }

  lemma CountStaysHeld(h: Host, e: Event, key: Key, pid: nat)
    requires Sound(h) && OneRunFor(h, key) && ReportedHeld(h, key)
    requires e.Drift? && e.key == key ==> !Reported(h, key)
    requires pid in Step(h, e).runs && Counts(Step(h, e).runs[pid], key)
    ensures
      var plan := PlanOf(Step(h, e).runs[pid].point);
      ReceiptMatches(Step(h, e).remote, key, plan.sha, plan.bytes)
  {
    hide Sound, Step, ReceiptMatches, Counts, PlanOf;
    StartsUncounted(Step(h, e).runs[pid], key);
    WasThere(h, e, pid);
    if e.Drift? || e.pid != pid {
      OthersStay(h, e, pid);
    } else {
      OwnCountHeld(h, e, key);
    }
    if Counts(h.runs[pid], key) {
      var plan := PlanOf(h.runs[pid].point);
      CountsOwnStamp(h, pid, key);
      OnlyOwnKeysChange(h, e, key);
      SameReceipt(h, Step(h, e), key, plan.sha, plan.bytes);
    }
  }

  lemma StartsUncounted(run: Run, key: Key)
    ensures run.point.Waiting? ==> !Counts(run, key)
  {
  }

  lemma StepKeepsReportedHeld(h: Host, e: Event, key: Key)
    requires Sound(h) && OneRunFor(h, key) && ReportedHeld(h, key)
    requires e.Drift? && e.key == key ==> !Reported(h, key)
    ensures ReportedHeld(Step(h, e), key)
  {
    hide Step, Sound, Reported, StatusNames, Counts, OneRunFor, ReceiptMatches, Past, PlanOf;
    var after := Step(h, e);
    if StatusNames(after.files, key) {
      StatusStaysHeld(h, e, key);
    }
    forall pid | pid in after.runs && Counts(after.runs[pid], key)
      ensures ReceiptMatches(after.remote, key, PlanOf(after.runs[pid].point).sha, PlanOf(after.runs[pid].point).bytes)
    {
      CountStaysHeld(h, e, key, pid);
    }
  }

  lemma OneRunBefore(h: Host, e: Event, key: Key)
    requires OneRunFor(Step(h, e), key)
    ensures OneRunFor(h, key)
  {
    hide Step;
    forall pid | pid in h.runs ensures pid in Step(h, e).runs && Step(h, e).runs[pid].stamp == h.runs[pid].stamp {
      WasThere(h, e, pid);
    }
  }

  lemma NothingReported(h: Host, key: Key)
    requires Unused(h)
    ensures ReportedHeld(h, key)
  {
  }

  lemma {:induction false} AlwaysReportedHeld(h: Host, events: seq<Event>, key: Key)
    requires Unused(h) && OneRunFor(After(h, events), key)
    requires forall i :: 0 <= i < |events| && events[i].Drift? && events[i].key == key ==>
      !Reported(At(h, events, i), key)
    ensures ReportedHeld(After(h, events), key)
  {
    hide Step, Sound, Reported, OneRunFor, ReportedHeld;
    if events == [] {
      NothingReported(h, key);
    } else {
      var n := |events| - 1;
      var prefix, e := events[..n], events[n];
      forall i | 0 <= i < n && prefix[i].Drift? && prefix[i].key == key ensures !Reported(At(h, prefix, i), key) {
        assert prefix[..i] == events[..i];
        assert !Reported(At(h, events, i), key);
      }
      OneRunBefore(After(h, prefix), e, key);
      AlwaysReportedHeld(h, prefix, key);
      HistoryIsSound(h, prefix);
      assert e.Drift? && e.key == key ==> !Reported(At(h, events, n), key);
      StepKeepsReportedHeld(After(h, prefix), e, key);
    }
  }

  /**
   * Every object that the success status names is in the bucket with the digest and size that the status
   * records, at every moment, if no second run took the same time stamp and unless the bucket itself changes or
   * expires this object after it was confirmed.
   */
  lemma ReportedObjectIsHeld(h: Host, events: seq<Event>, key: Key)
    requires Unused(h) && StatusNames(After(h, events).files, key) && OneRunFor(After(h, events), key)
    requires forall i :: 0 <= i < |events| && events[i].Drift? && events[i].key == key ==>
      !Reported(At(h, events, i), key)
    ensures
      var status := After(h, events).files[StatusFile];
      key in After(h, events).remote && After(h, events).remote[key] == RemoteObject(Some(status.sha), status.bytes)
  {
    AlwaysReportedHeld(h, events, key);
  }
}
