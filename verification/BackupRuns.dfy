/**
 * Remote backup runs as a machine: any number of runs, each of which can fail or be killed at any
 * point, on one host and one bucket (apps/server/scripts/backup-remote.py).
 */
module BackupRuns {
  import opened Js

  const SECONDS_PER_DAY := 86400

  /** Object keys, by the second in which the run took its time stamp. */
  datatype Key = Hourly(stamp: nat) | Daily(stamp: nat)

  function Day(stamp: nat): nat { stamp / SECONDS_PER_DAY }

  /** `Pending(f)` is the file that `publish_status` writes before it renames it to `f`. */
  datatype File = MarkerFile(day: nat) | StatusFile | FailureFile | Pending(target: File)

  /** The value of the `phase` variable. */
  datatype Phase = Lock | Capture | Verify | Archive | Encrypt | Upload | Receipt

  /** File contents; `Torn` is a value written only in part. */
  datatype Content =
    | Torn
    | Marker(key: Key, sha: string, bytes: nat)
    | Success(keys: seq<Key>, sha: string, bytes: nat)
    | Failure(phase: Phase)

  /** What `head_object` reports: the sha256 metadata, if any, and the length. */
  datatype RemoteObject = RemoteObject(sha: Option<string>, bytes: nat)

  type Files = map<File, Content>

  type Objects = map<Key, RemoteObject>

  /** Checksum and size of the encrypted snapshot and the keys it goes to. */
  datatype Plan = Plan(sha: string, bytes: nat, keys: seq<Key>)

  /** Where a run is; `next` is the key of the loop's current round. */
  datatype Point =
    | Waiting
    | Preparing(phase: Phase)
    | Uploading(plan: Plan, next: nat)
    | Checking(plan: Plan, next: nat)
    | MarkerWriting(plan: Plan, next: nat)
    | MarkerRenaming(plan: Plan, next: nat)
    | StatusWriting(plan: Plan)
    | StatusRenaming(plan: Plan)
    | Reporting(plan: Plan)
    | FailureWriting(phase: Phase)
    | FailureRenaming(phase: Phase)
    | Exited

  datatype Run = Run(stamp: nat, point: Point)

  datatype Host = Host(files: Files, remote: Objects, lock: Option<nat>, runs: map<nat, Run>)

  datatype Event =
    | Launch(pid: nat, stamp: nat)
    | TakeLock(pid: nat)
    | Prepare(pid: nat)                             // the next of capture, verify, archive, encrypt
    | PlanKeys(pid: nat, sha: string, bytes: nat)   // digest and size are known; the daily marker is looked up
    | Store(pid: nat, stored: RemoteObject)         // an object arrives; the upload may still raise or be killed
    | Put(pid: nat, stored: RemoteObject)           // upload_file returns; the bucket holds whatever it holds
    | Head(pid: nat)
    | Write(pid: nat)
    | Rename(pid: nat)
    | Report(pid: nat)
    | Fail(pid: nat, torn: bool)                    // an exception
    | Die(pid: nat, torn: bool)                     // the process is killed
    | Drift(key: Key, now: Option<RemoteObject>)    // the bucket changes or expires an object

  /** The run holds the lock at every point between taking it and leaving. */
  predicate Locked(point: Point) { !point.Waiting? && !point.Exited? }

  predicate IsFailing(point: Point) { point.FailureWriting? || point.FailureRenaming? }

  predicate IsWriting(point: Point) { point.MarkerWriting? || point.StatusWriting? || point.FailureWriting? }

  predicate IsRenaming(point: Point) { point.MarkerRenaming? || point.StatusRenaming? || point.FailureRenaming? }

  /** The file that a publishing run is about to replace. */
  function Target(run: Run): File {
    match run.point
    case MarkerWriting(_, _) => MarkerFile(Day(run.stamp))
    case MarkerRenaming(_, _) => MarkerFile(Day(run.stamp))
    case FailureWriting(_) => FailureFile
    case FailureRenaming(_) => FailureFile
    case _ => StatusFile
  }

  function MarkerOf(plan: Plan, next: nat): Content {
    if next < |plan.keys| then Marker(plan.keys[next], plan.sha, plan.bytes) else Torn
  }

  /** The value that a publishing run publishes. */
  function Value(run: Run): Content {
    match run.point
    case MarkerWriting(plan, next) => MarkerOf(plan, next)
    case MarkerRenaming(plan, next) => MarkerOf(plan, next)
    case StatusWriting(plan) => Success(plan.keys, plan.sha, plan.bytes)
    case StatusRenaming(plan) => Success(plan.keys, plan.sha, plan.bytes)
    case FailureWriting(phase) => Failure(phase)
    case FailureRenaming(phase) => Failure(phase)
    case _ => Torn
  }

  /** The phase that the exception handler reports. */
  function PhaseAt(point: Point): Phase {
    match point
    case Preparing(phase) => phase
    case Uploading(_, _) => Upload
    case _ => Receipt
  }

  function AfterPhase(phase: Phase): Phase {
    match phase
    case Lock => Capture
    case Capture => Verify
    case Verify => Archive
    case _ => Encrypt
  }

  /** The next round of the upload loop, or its end. */
  function Advance(plan: Plan, next: nat): Point {
    if next + 1 < |plan.keys| then Uploading(plan, next + 1) else StatusWriting(plan)
  }

  function AfterRename(point: Point): Point {
    match point
    case MarkerRenaming(plan, next) => Advance(plan, next)
    case StatusRenaming(plan) => Reporting(plan)
    case _ => Exited
  }

  function AfterWrite(point: Point): Point {
    match point
    case MarkerWriting(plan, next) => MarkerRenaming(plan, next)
    case StatusWriting(plan) => StatusRenaming(plan)
    case FailureWriting(phase) => FailureRenaming(phase)
    case _ => point
  }

  /** The daily key joins the hourly one unless today's marker exists. */
  function Keys(files: Files, stamp: nat): seq<Key> {
    if MarkerFile(Day(stamp)) in files then [Hourly(stamp)] else [Hourly(stamp), Daily(stamp)]
  }

  /** The daily key is planned exactly when the marker of the stamp's UTC day, of 86400 seconds, is not there yet. */
  lemma KeysExactly(files: Files, stamp: nat)
    ensures Keys(files, stamp) ==
      if MarkerFile(stamp / 86400) in files then [Hourly(stamp)] else [Hourly(stamp), Daily(stamp)]
  {
  }

  /** Two states of the bucket have the same object, or none, under `key`. */
  predicate SameAt(before: Objects, after: Objects, key: Key) {
    (key in after <==> key in before) && (key in after ==> after[key] == before[key])
  }

  predicate ReceiptMatches(remote: Objects, key: Key, sha: string, bytes: nat) {
    key in remote && remote[key] == RemoteObject(Some(sha), bytes)
  }

  predicate AtUpload(h: Host, pid: nat) {
    pid in h.runs && h.runs[pid].point.Uploading? && h.runs[pid].point.next < |h.runs[pid].point.plan.keys|
  }

  predicate Enabled(h: Host, e: Event) {
    match e
    case Launch(pid, _) => pid !in h.runs
    case TakeLock(pid) => pid in h.runs && h.runs[pid].point.Waiting?
    case Prepare(pid) => pid in h.runs && h.runs[pid].point.Preparing? && h.runs[pid].point.phase != Encrypt
    case PlanKeys(pid, _, _) => pid in h.runs && h.runs[pid].point == Preparing(Encrypt)
    case Store(pid, _) => AtUpload(h, pid)
    case Put(pid, _) => AtUpload(h, pid)
    case Head(pid) =>
      pid in h.runs && h.runs[pid].point.Checking? && h.runs[pid].point.next < |h.runs[pid].point.plan.keys|
    case Write(pid) => pid in h.runs && IsWriting(h.runs[pid].point)
    case Rename(pid) => pid in h.runs && IsRenaming(h.runs[pid].point) && Pending(Target(h.runs[pid])) in h.files
    case Report(pid) => pid in h.runs && h.runs[pid].point.Reporting?
    case Fail(pid, torn) => pid in h.runs && Locked(h.runs[pid].point) && (torn ==> IsWriting(h.runs[pid].point))
    case Die(pid, torn) =>
      pid in h.runs && !h.runs[pid].point.Exited? && (torn ==> IsWriting(h.runs[pid].point))
    case Drift(_, _) => true
  }

  /** The run moves on; leaving releases the lock it holds. */
  function Move(h: Host, pid: nat, point: Point): Host
    requires pid in h.runs
  {
    h.(runs := h.runs[pid := h.runs[pid].(point := point)],
       lock := if point.Exited? && h.lock == Some(pid) then None else h.lock)
  }

  function Tear(files: Files, run: Run, torn: bool): Files {
    if torn then files[Pending(Target(run)) := Torn] else files
  }

  function AfterHead(h: Host, plan: Plan, next: nat): Point
    requires next < |plan.keys|
  {
    var key := plan.keys[next];
    if !ReceiptMatches(h.remote, key, plan.sha, plan.bytes) then FailureWriting(Receipt)
    else if key.Daily? then MarkerWriting(plan, next)
    else Advance(plan, next)
  }

  /** One event; an event that is not enabled changes nothing, so every sequence of events is a history. */
  function Step(h: Host, e: Event): Host {
    if !Enabled(h, e) then h
    else
      match e
      case Launch(pid, stamp) => h.(runs := h.runs[pid := Run(stamp, Waiting)])
      case TakeLock(pid) =>
        if h.lock.Some? then Move(h, pid, Exited) else Move(h, pid, Preparing(Lock)).(lock := Some(pid))
      case Prepare(pid) => Move(h, pid, Preparing(AfterPhase(h.runs[pid].point.phase)))
      case PlanKeys(pid, sha, bytes) =>
        Move(h, pid, Uploading(Plan(sha, bytes, Keys(h.files, h.runs[pid].stamp)), 0))
      case Store(pid, stored) =>
        h.(remote := h.remote[h.runs[pid].point.plan.keys[h.runs[pid].point.next] := stored])
      case Put(pid, stored) =>
        var point := h.runs[pid].point;
        Move(h, pid, Checking(point.plan, point.next)).(remote := h.remote[point.plan.keys[point.next] := stored])
      case Head(pid) => Move(h, pid, AfterHead(h, h.runs[pid].point.plan, h.runs[pid].point.next))
      case Write(pid) =>
        var run := h.runs[pid];
        Move(h, pid, AfterWrite(run.point)).(files := h.files[Pending(Target(run)) := Value(run)])
      case Rename(pid) =>
        var run := h.runs[pid];
        Move(h, pid, AfterRename(run.point))
          .(files := h.files[Target(run) := h.files[Pending(Target(run))]] - {Pending(Target(run))})
      case Report(pid) => Move(h, pid, Exited)
      case Fail(pid, torn) =>
        var run := h.runs[pid];
        Move(h, pid, if IsFailing(run.point) then Exited else FailureWriting(PhaseAt(run.point)))
          .(files := Tear(h.files, run, torn))
      case Die(pid, torn) => Move(h, pid, Exited).(files := Tear(h.files, h.runs[pid], torn))
      case Drift(key, now) => h.(remote := if now.Some? then h.remote[key := now.value] else h.remote - {key})
  }

  function After(h: Host, events: seq<Event>): Host {
    if events == [] then h else Step(After(h, events[..|events| - 1]), events[|events| - 1])
  }

  /**
   * What the model leaves to the world: a run can start under any new number and time, can fail or be killed
   * whenever it holds the lock, tearing the value it is writing or not, and the bucket can hold anything after an
   * upload, whether that returns or not, and change anything at any time.
   */
  lemma WorldIsFree(h: Host, pid: nat, stamp: nat, torn: bool, stored: RemoteObject, key: Key)
    ensures pid !in h.runs ==> Step(h, Launch(pid, stamp)) == h.(runs := h.runs[pid := Run(stamp, Waiting)])
    ensures pid in h.runs && Locked(h.runs[pid].point) && (torn ==> IsWriting(h.runs[pid].point)) ==>
      && Enabled(h, Fail(pid, torn)) && Enabled(h, Die(pid, torn))
      && (torn ==>
            && Pending(Target(h.runs[pid])) in Step(h, Fail(pid, torn)).files
            && Step(h, Fail(pid, torn)).files[Pending(Target(h.runs[pid]))] == Torn
            && Step(h, Die(pid, torn)).files == Step(h, Fail(pid, torn)).files)
    ensures AtUpload(h, pid) ==>
      var point := h.runs[pid].point;
      && Step(h, Store(pid, stored)) == h.(remote := h.remote[point.plan.keys[point.next] := stored])
      && Step(h, Put(pid, stored)).remote == h.remote[point.plan.keys[point.next] := stored]
    ensures Step(h, Drift(key, Some(stored))) == h.(remote := h.remote[key := stored])
    ensures Step(h, Drift(key, None)) == h.(remote := h.remote - {key})
  {
    hide Target, Value;
  }

  /** A host on which no backup has run; the bucket may hold anything. */
  predicate Unused(h: Host) {
    h.files == map[] && h.lock.None? && h.runs == map[]
  }

  /* ---------- The lock, and what the run that holds it relies on ---------- */

  predicate PlanFor(plan: Plan, stamp: nat) {
    plan.keys == [Hourly(stamp)] || plan.keys == [Hourly(stamp), Daily(stamp)]
  }

  /**
   * While the daily copy is still to be made there is no marker for the day; afterwards, or without one to
   * make, there is.
   */
  predicate MarkerSettled(files: Files, run: Run, plan: Plan, published: bool) {
    && PlanFor(plan, run.stamp)
    && (MarkerFile(Day(run.stamp)) in files <==> published || |plan.keys| == 1)
  }

  predicate RunOk(files: Files, run: Run) {
    && (IsRenaming(run.point) ==> Pending(Target(run)) in files && files[Pending(Target(run))] == Value(run))
    && match run.point
       case Uploading(plan, next) => next < |plan.keys| && MarkerSettled(files, run, plan, false)
       case Checking(plan, next) => next < |plan.keys| && MarkerSettled(files, run, plan, false)
       case MarkerWriting(plan, next) => next == 1 && |plan.keys| == 2 && MarkerSettled(files, run, plan, false)
       case MarkerRenaming(plan, next) => next == 1 && |plan.keys| == 2 && MarkerSettled(files, run, plan, false)
       case StatusWriting(plan) => MarkerSettled(files, run, plan, true)
       case StatusRenaming(plan) => MarkerSettled(files, run, plan, true)
       case Reporting(plan) => MarkerSettled(files, run, plan, true)
       case _ => true
  }

  /** At most one run is between taking the lock and leaving, and the files are as it relies on. */
  predicate Sound(h: Host) {
    && (forall pid :: pid in h.runs && Locked(h.runs[pid].point) ==> h.lock == Some(pid))
    && (h.lock.Some? ==> h.lock.value in h.runs && Locked(h.runs[h.lock.value].point))
    && (forall pid :: pid in h.runs ==> RunOk(h.files, h.runs[pid]))
  }

  lemma UnlockedIsOk(files: Files, run: Run)
    requires !Locked(run.point)
    ensures RunOk(files, run)
  {
  }

  /** The run that holds the lock moves and leaves the files as it then relies on: the host stays sound. */
  lemma HolderMoves(h: Host, pid: nat, point: Point, files: Files)
    requires Sound(h) && h.lock == Some(pid) && !point.Waiting?
    requires RunOk(files, Run(h.runs[pid].stamp, point))
    ensures Sound(Move(h, pid, point).(files := files))
  {
    hide RunOk;
    var after := Move(h, pid, point).(files := files);
    forall other | other in after.runs ensures RunOk(after.files, after.runs[other]) {
      if other != pid {
        UnlockedIsOk(files, after.runs[other]);
      }
    }
  }

  lemma SoundIgnoresRemote(h: Host, remote: Objects)
    requires Sound(h)
    ensures Sound(h.(remote := remote))
  {
    hide RunOk;
  }

  function Pid(e: Event): nat {
    if e.Drift? then 0 else e.pid
  }

  /** The events of a run that holds the lock. */
  predicate UnderLock(e: Event) {
    !e.Drift? && !e.Launch? && !e.TakeLock?
  }

  lemma StepKeepsSound(h: Host, e: Event)
    requires Sound(h)
    ensures Sound(Step(h, e))
  {
    hide RunOk;
    if Enabled(h, e) {
      match e
      case Launch(pid, stamp) =>
        UnlockedIsOk(h.files, Run(stamp, Waiting));
      case TakeLock(pid) =>
        LockTaken(h, pid);
      case Drift(key, now) =>
        SoundIgnoresRemote(h, Step(h, e).remote);
      case Die(pid, torn) =>
        if h.runs[pid].point.Waiting? {
          WaitingLeaves(h, pid);
        } else {
          HolderSteps(h, e);
        }
      case _ => HolderSteps(h, e);
    }
  }

  lemma LockTaken(h: Host, pid: nat)
    requires Sound(h) && Enabled(h, TakeLock(pid))
    ensures Sound(Step(h, TakeLock(pid)))
  {
    forall other | other in h.runs && h.lock.None? ensures !Locked(h.runs[other].point) {
    }
  }

  lemma WaitingLeaves(h: Host, pid: nat)
    requires Sound(h) && pid in h.runs && h.runs[pid].point.Waiting?
    ensures Sound(Move(h, pid, Exited))
  {
  }

  lemma HolderSteps(h: Host, e: Event)
    requires Sound(h) && Enabled(h, e) && UnderLock(e)
    requires e.Die? ==> !h.runs[e.pid].point.Waiting?
    ensures Sound(Step(h, e))
  {
    hide RunOk;
    var pid, after := Pid(e), Step(h, e);
    assert Locked(h.runs[pid].point) && h.lock == Some(pid);
    HolderStaysOk(h, e);
    HolderMoves(h, pid, after.runs[pid].point, after.files);
    SoundIgnoresRemote(Move(h, pid, after.runs[pid].point).(files := after.files), after.remote);
    assert after == Move(h, pid, after.runs[pid].point).(files := after.files).(remote := after.remote);
  }

  lemma HolderStaysOk(h: Host, e: Event)
    requires Enabled(h, e) && UnderLock(e) && RunOk(h.files, h.runs[Pid(e)])
    ensures Pid(e) in Step(h, e).runs && RunOk(Step(h, e).files, Step(h, e).runs[Pid(e)])
  {
    hide ReceiptMatches, Day;
  }

  lemma {:induction false} HistoryIsSound(h: Host, events: seq<Event>)
    requires Unused(h)
    ensures Sound(After(h, events))
  {
    hide Step, Sound;
    if events == [] {
      UnusedIsSound(h);
    } else {
      HistoryIsSound(h, events[..|events| - 1]);
      StepKeepsSound(After(h, events[..|events| - 1]), events[|events| - 1]);
    }
  }

  lemma UnusedIsSound(h: Host)
    requires Unused(h)
    ensures Sound(h)
  {
  }
}
