/**
 * One backup run as the script's `main` executes it, step by step on the host's files and the bucket
 * (apps/server/scripts/backup-remote.py), and its place among the histories of the run machine.
 */
module BackupMain {
  import opened Js
  import opened Checksum
  import opened BackupRuns

  const CHUNK := 1024 * 1024

  /** The digest of a file read in chunks is the digest of the whole file. */
  method DigestFile(hash: Sha256, file: seq<Byte>) returns (hex: string)
    ensures hex == SHA256Hex(hash, file)
  {
    var fed: seq<Byte> := [];
    var position := 0;
    var chunk := file[..if |file| < CHUNK then |file| else CHUNK];
    while chunk != []
      invariant 0 <= position <= |file| && fed == file[..position]
      invariant chunk == file[position..if |file| - position < CHUNK then |file| else position + CHUNK]
      decreases |file| - position
    {
      fed := fed + chunk;
      position := position + |chunk|;
      chunk := file[position..if |file| - position < CHUNK then |file| else position + CHUNK];
    }
    assert fed == file;
    return SHA256Hex(hash, fed);
  }

  /** Where publishing a file raises: before anything is written, in the middle of the write, or before the rename. */
  datatype Fault = NotWritten | TornWrite | NotRenamed

  /**
   * What the outside world does in one run: the preparation that raises, the snapshot, what each upload leaves
   * in the bucket, the keys whose upload raises all the same (an upload that leaves nothing always raises), the
   * keys for which `head_object` raises, the files whose publication raises, and whether reporting raises.
   */
  datatype World = World(
    raisesIn: Option<Phase>, snapshot: seq<Byte>, uploads: Objects, raisingUploads: set<Key>, raisingHeads: set<Key>,
    faults: map<File, Fault>, reportRaises: bool)

  function FaultOf(world: World, file: File): Option<Fault> {
    if file in world.faults then Some(world.faults[file]) else None
  }

  /** The upload of `key` returns. */
  predicate Arrives(world: World, key: Key) {
    key in world.uploads && key !in world.raisingUploads
  }

  /** The upload of `key` returns and leaves an object with this digest and size, and the bucket says so. */
  predicate Delivers(world: World, key: Key, sha: string, bytes: nat) {
    Arrives(world, key) && key !in world.raisingHeads && world.uploads[key] == RemoteObject(Some(sha), bytes)
  }

  /**
   * The round of the loop for `key` goes through: it is delivered and, if it is the daily one, its marker
   * published.
   */
  predicate RoundWorks(world: World, key: Key, sha: string, bytes: nat) {
    Delivers(world, key, sha, bytes) && (key.Daily? ==> FaultOf(world, MarkerFile(Day(key.stamp))).None?)
  }

  predicate RoundsWork(world: World, plan: Plan, n: nat)
    requires n <= |plan.keys|
  {
    forall i :: 0 <= i < n ==> RoundWorks(world, plan.keys[i], plan.sha, plan.bytes)
  }

  /** Making the snapshot raises. */
  predicate SnapshotFails(world: World) {
    world.raisesIn.Some? && world.raisesIn.value != Upload && world.raisesIn.value != Receipt
  }

  /** An event of run `pid` that is not its death; uploads leave, and writes tear, what the world says. */
  predicate OwnEvent(e: Event, pid: nat, world: World) {
    && !e.Drift? && !e.Die? && e.pid == pid
    && (e.Put? || e.Store? ==> e.stored in world.uploads.Values)
    && (e.Fail? && e.torn ==> TornWrite in world.faults.Values)
  }

  predicate Own(events: seq<Event>, pid: nat, world: World) {
    forall i :: 0 <= i < |events| ==> OwnEvent(events[i], pid, world)
  }

  lemma NothingOwn(pid: nat, world: World)
    ensures Own([], pid, world)
  {
  }

  /**
   * In the first `n` rounds the loop sends the keys in order, up to the first that fails, and touches no other
   * object.
   */
  ghost predicate Sent(before: Objects, after: Objects, world: World, plan: Plan, n: nat) {
    && (forall key :: key !in plan.keys ==> SameAt(before, after, key))
    && (forall i :: 0 <= i < |plan.keys| ==>
          var key := plan.keys[i];
          if i < n && RoundsWork(world, plan, i) && key in world.uploads
          then key in after && after[key] == world.uploads[key]
          else SameAt(before, after, key))
  }

  /** One more round. */
  lemma SentNext(start: Objects, before: Objects, after: Objects,
                 world: World, plan: Plan, n: nat)
    requires n < |plan.keys| && RoundsWork(world, plan, n) && Sent(start, before, world, plan, n)
    requires forall i, j :: 0 <= i < j < |plan.keys| ==> plan.keys[i] != plan.keys[j]
    requires
      var key := plan.keys[n];
      after == if key in world.uploads then before[key := world.uploads[key]] else before
    ensures Sent(start, after, world, plan, n + 1)
    ensures !RoundWorks(world, plan.keys[n], plan.sha, plan.bytes) ==> Sent(start, after, world, plan, |plan.keys|)
  {
    hide RoundWorks;
  }

  lemma NothingSent(remote: Objects, world: World, plan: Plan)
    ensures Sent(remote, remote, world, plan, 0)
  {
  }

  datatype Outcome = Completed | Failed(phase: Phase)

  lemma AfterSnoc(h: Host, events: seq<Event>, e: Event)
    ensures After(h, events + [e]) == Step(After(h, events), e)
  {
    hide Step;
    assert (events + [e])[..|events|] == events;
  }

  /** The history of the run goes on with one event. */
  lemma Extend(h: Host, events: seq<Event>, e: Event, now: Host, pid: nat, world: World) returns (longer: seq<Event>)
    requires Step(After(h, events), e) == now
    requires Own(events, pid, world) && OwnEvent(e, pid, world)
    ensures longer == events + [e] && After(h, longer) == now && Own(longer, pid, world)
  {
    hide Step, OwnEvent;
    AfterSnoc(h, events, e);
    longer := events + [e];
  }

  /** Files after a value was written beside its target and renamed over it, or as far as that got. */
  function Published(files: Files, target: File, value: Content, fault: Option<Fault>): (after: Files)
    ensures fault.None? ==> target in after && after[target] == value
    ensures fault.Some? ==> SameFile(files, after, target)
    ensures forall file :: file != target && file != Pending(target) ==>
      (file in after <==> file in files) && (file in files ==> after[file] == files[file])
  {
    NotItsOwnPending(target);
    match fault
    case None => files[Pending(target) := value][target := value] - {Pending(target)}
    case Some(NotWritten) => files
    case Some(TornWrite) => files[Pending(target) := Torn]
    case Some(NotRenamed) => files[Pending(target) := value]
  }

  predicate SameFile(before: Files, after: Files, file: File) {
    (file in after <==> file in before) && (file in before ==> after[file] == before[file])
  }

  lemma NotItsOwnPending(file: File)
    ensures file != Pending(file)
  {
    if file.Pending? {
      NotItsOwnPending(file.target);
    }
  }

  /** The host with run `pid` at a point, among runs that are not under way. */
  function Mid(files: Files, remote: Objects, others: map<nat, Run>, pid: nat, stamp: nat,
               point: Point): Host
  {
    Host(files, remote, if Locked(point) then Some(pid) else None, others[pid := Run(stamp, point)])
  }

  lemma MidMoves(files: Files, remote: Objects, others: map<nat, Run>, pid: nat, stamp: nat,
                 point: Point, next: Point)
    requires Locked(point) && !next.Waiting?
    ensures Move(Mid(files, remote, others, pid, stamp, point), pid, next)
         == Mid(files, remote, others, pid, stamp, next)
  {
    assert others[pid := Run(stamp, point)][pid := Run(stamp, next)] == others[pid := Run(stamp, next)];
  }

  lemma PrepareStep(files: Files, remote: Objects, others: map<nat, Run>, pid: nat, stamp: nat,
                    phase: Phase)
    requires phase == Lock || phase == Capture || phase == Verify || phase == Archive
    ensures Step(Mid(files, remote, others, pid, stamp, Preparing(phase)), Prepare(pid))
         == Mid(files, remote, others, pid, stamp, Preparing(AfterPhase(phase)))
  {
    MidMoves(files, remote, others, pid, stamp, Preparing(phase), Preparing(AfterPhase(phase)));
  }

  lemma PlanStep(files: Files, remote: Objects, others: map<nat, Run>, pid: nat, stamp: nat,
                 plan: Plan)
    requires plan.keys == Keys(files, stamp)
    ensures Step(Mid(files, remote, others, pid, stamp, Preparing(Encrypt)), PlanKeys(pid, plan.sha, plan.bytes))
         == Mid(files, remote, others, pid, stamp, Uploading(plan, 0))
  {
    MidMoves(files, remote, others, pid, stamp, Preparing(Encrypt), Uploading(plan, 0));
  }

  lemma PutStep(files: Files, remote: Objects, others: map<nat, Run>, pid: nat, stamp: nat,
                plan: Plan, next: nat, stored: RemoteObject)
    requires next < |plan.keys|
    ensures Step(Mid(files, remote, others, pid, stamp, Uploading(plan, next)), Put(pid, stored))
         == Mid(files, remote[plan.keys[next] := stored], others, pid, stamp, Checking(plan, next))
  {
    MidMoves(files, remote, others, pid, stamp, Uploading(plan, next), Checking(plan, next));
  }

  lemma StoreStep(files: Files, remote: Objects, others: map<nat, Run>, pid: nat, stamp: nat, plan: Plan, next: nat,
                  stored: RemoteObject)
    requires next < |plan.keys|
    ensures Step(Mid(files, remote, others, pid, stamp, Uploading(plan, next)), Store(pid, stored))
         == Mid(files, remote[plan.keys[next] := stored], others, pid, stamp, Uploading(plan, next))
  {
  }

  lemma HeadStep(files: Files, remote: Objects, others: map<nat, Run>, pid: nat, stamp: nat,
                 plan: Plan, next: nat)
    requires next < |plan.keys|
    ensures Step(Mid(files, remote, others, pid, stamp, Checking(plan, next)), Head(pid))
         == Mid(files, remote, others, pid, stamp,
                if !ReceiptMatches(remote, plan.keys[next], plan.sha, plan.bytes) then FailureWriting(Receipt)
                else if plan.keys[next].Daily? then MarkerWriting(plan, next)
                else Advance(plan, next))
  {
    var h := Mid(files, remote, others, pid, stamp, Checking(plan, next));
    MidMoves(files, remote, others, pid, stamp, Checking(plan, next), AfterHead(h, plan, next));
  }

  /** Where an exception leaves a run: on the way to publish the failure, or, failing at that, gone. */
  function AfterFault(point: Point): Point {
    if IsFailing(point) then Exited else FailureWriting(PhaseAt(point))
  }

  lemma FailStep(files: Files, remote: Objects, others: map<nat, Run>, pid: nat, stamp: nat, point: Point, torn: bool)
    requires Locked(point) && (torn ==> IsWriting(point))
    ensures Step(Mid(files, remote, others, pid, stamp, point), Fail(pid, torn))
         == Mid(Tear(files, Run(stamp, point), torn), remote, others, pid, stamp, AfterFault(point))
  {
    hide Target, Value;
    MidMoves(files, remote, others, pid, stamp, point, AfterFault(point));
  }

  lemma WriteStep(files: Files, remote: Objects, others: map<nat, Run>, pid: nat, stamp: nat,
                  point: Point)
    requires IsWriting(point)
    ensures
      var run := Run(stamp, point);
      Step(Mid(files, remote, others, pid, stamp, point), Write(pid))
      == Mid(files[Pending(Target(run)) := Value(run)], remote, others, pid, stamp, AfterWrite(point))
  {
    hide Target, Value;
    MidMoves(files, remote, others, pid, stamp, point, AfterWrite(point));
  }

  lemma RenameStep(files: Files, remote: Objects, others: map<nat, Run>, pid: nat, stamp: nat,
                   point: Point)
    requires IsRenaming(point) && Pending(Target(Run(stamp, point))) in files
    ensures
      var target := Target(Run(stamp, point));
      Step(Mid(files, remote, others, pid, stamp, point), Rename(pid))
      == Mid(files[target := files[Pending(target)]] - {Pending(target)}, remote, others, pid, stamp,
             AfterRename(point))
  {
    hide Target, Value;
    MidMoves(files, remote, others, pid, stamp, point, AfterRename(point));
  }

  /** The history goes on with a publication: a write and a rename, or as far as that gets and an exception. */
  lemma Publish(h: Host, events: seq<Event>, files: Files, remote: Objects, others: map<nat, Run>, pid: nat,
                stamp: nat, point: Point, world: World)
    returns (longer: seq<Event>)
    requires After(h, events) == Mid(files, remote, others, pid, stamp, point)
    requires IsWriting(point) && Own(events, pid, world)
    ensures Own(longer, pid, world)
    ensures
      var run := Run(stamp, point);
      var fault := FaultOf(world, Target(run));
      After(h, longer)
      == Mid(Published(files, Target(run), Value(run), fault), remote, others, pid, stamp,
             if fault.None? then AfterRename(AfterWrite(point)) else AfterFault(point))
  {
    hide Mid, Step, Value, After, Own;
    var run := Run(stamp, point);
    var target, next := Target(run), AfterWrite(point);
    var fault := FaultOf(world, target);
    longer := events;
    if fault == Some(NotWritten) || fault == Some(TornWrite) {
      var torn := fault == Some(TornWrite);
      assert torn ==> world.faults[target] in world.faults.Values;
      FailStep(files, remote, others, pid, stamp, point, torn);
      longer := Extend(h, longer, Fail(pid, torn), Step(After(h, longer), Fail(pid, torn)), pid, world);
    } else {
      var written := files[Pending(target) := Value(run)];
      WriteStep(files, remote, others, pid, stamp, point);
      longer := Extend(h, longer, Write(pid), Mid(written, remote, others, pid, stamp, next), pid, world);
      assert Target(Run(stamp, next)) == target;
      if fault == Some(NotRenamed) {
        FailStep(written, remote, others, pid, stamp, next, false);
        longer := Extend(h, longer, Fail(pid, false), Step(After(h, longer), Fail(pid, false)), pid, world);
        assert AfterFault(next) == AfterFault(point);
      } else {
        RenameStep(written, remote, others, pid, stamp, next);
        longer := Extend(h, longer, Rename(pid), Step(After(h, longer), Rename(pid)), pid, world);
      }
    }
  }

  lemma NothingChanged(files: Files, stamp: nat, plan: Plan)
    ensures MarkersGrow(files, files, stamp, plan)
    ensures SameFile(files, files, StatusFile) && SameFile(files, files, FailureFile)
  {
  }

  /** What a round of the loop leaves in the files, going through or not. */
  lemma RoundLeaves(start: Files, before: Files, after: Files, world: World, stamp: nat, plan: Plan, next: nat)
    requires plan.keys == Keys(start, stamp) && next < |plan.keys|
    requires MarkersGrow(start, before, stamp, plan)
    requires SameStatus(start, before) && SameFile(start, before, FailureFile)
    requires MarkerFile(Day(stamp)) in before <==> |plan.keys| == 1
    requires
      var key, file := plan.keys[next], MarkerFile(Day(stamp));
      after == if Delivers(world, key, plan.sha, plan.bytes) && key.Daily?
               then Published(before, file, Marker(key, plan.sha, plan.bytes), FaultOf(world, file))
               else before
    ensures MarkersGrow(start, after, stamp, plan)
    ensures SameStatus(start, after) && SameFile(start, after, FailureFile)
    ensures RoundWorks(world, plan.keys[next], plan.sha, plan.bytes) ==>
      (MarkerFile(Day(stamp)) in after <==> next == 1 || |plan.keys| == 1)
  {
    hide Published, Delivers;
  }

  class Backup {
    var files: Files
    var remote: Objects
    const hash: Sha256

    constructor (files: Files, remote: Objects, hash: Sha256)
      ensures this.files == files && this.remote == remote && this.hash == hash
    {
      this.files, this.remote, this.hash := files, remote, hash;
    }

    /** The host as this run finds it in the middle of its work. */
    function Now(others: map<nat, Run>, pid: nat, stamp: nat, point: Point): Host
      reads this
    {
      Mid(files, remote, others, pid, stamp, point)
    }

    /** Write beside the target, then rename over it; `fault` says where that raises. */
    method PublishStatus(target: File, value: Content, fault: Option<Fault>) returns (ok: bool)
      modifies this`files
      ensures files == Published(old(files), target, value, fault)
      ensures ok <==> fault.None?
    {
      if fault == Some(NotWritten) {
        return false;
      }
      if fault == Some(TornWrite) {
        files := files[Pending(target) := Torn];
        return false;
      }
      files := files[Pending(target) := value];
      if fault == Some(NotRenamed) {
        return false;
      }
      files := files[target := files[Pending(target)]] - {Pending(target)};
      return true;
    }

    /**
     * One round of the upload loop.  `failed` is the phase in which an exception left it; `longer` goes on
     * from `events` as a history of the run machine.
     */
    method UploadRound(ghost start: Host, ghost events: seq<Event>, ghost others: map<nat, Run>, ghost pid: nat,
                       stamp: nat, plan: Plan, next: nat, world: World)
      returns (failed: Option<Phase>, ghost longer: seq<Event>)
      requires next < |plan.keys| && (plan.keys[next].Daily? ==> plan.keys[next].stamp == stamp)
      requires After(start, events) == Now(others, pid, stamp, Uploading(plan, next))
      requires Own(events, pid, world)
      modifies this
      ensures After(start, longer)
           == Now(others, pid, stamp, if failed.None? then Advance(plan, next) else FailureWriting(failed.value))
      ensures Own(longer, pid, world)
      ensures remote == if plan.keys[next] in world.uploads
                        then old(remote)[plan.keys[next] := world.uploads[plan.keys[next]]] else old(remote)
      ensures files == if Delivers(world, plan.keys[next], plan.sha, plan.bytes) && plan.keys[next].Daily?
                       then var file := MarkerFile(Day(stamp));
                            Published(old(files), file, Marker(plan.keys[next], plan.sha, plan.bytes),
                                      FaultOf(world, file))
                       else old(files)
      ensures failed.None? <==> RoundWorks(world, plan.keys[next], plan.sha, plan.bytes)
      ensures failed.Some? ==> failed.value == if Arrives(world, plan.keys[next]) then Receipt else Upload
    {
      hide Own, Step, After, Published, Mid, Keys, Advance, FaultOf;
      var key := plan.keys[next];
      longer := events;
      if key !in world.uploads || key in world.raisingUploads {
        if key in world.uploads {
          StoreStep(files, remote, others, pid, stamp, plan, next, world.uploads[key]);
          remote := remote[key := world.uploads[key]];
          ghost var stored := Now(others, pid, stamp, Uploading(plan, next));
          longer := Extend(start, longer, Store(pid, world.uploads[key]), stored, pid, world);
        }
        longer := Raise(start, longer, others, pid, stamp, Uploading(plan, next), world);
        return Some(Upload), longer;
      }
      PutStep(files, remote, others, pid, stamp, plan, next, world.uploads[key]);
      remote := remote[key := world.uploads[key]];
      ghost var checking := Now(others, pid, stamp, Checking(plan, next));
      longer := Extend(start, longer, Put(pid, world.uploads[key]), checking, pid, world);
      if key in world.raisingHeads {
        longer := Raise(start, longer, others, pid, stamp, Checking(plan, next), world);
        return Some(Receipt), longer;
      }
      HeadStep(files, remote, others, pid, stamp, plan, next);
      if !ReceiptMatches(remote, key, plan.sha, plan.bytes) {
        longer := Extend(start, longer, Head(pid), Now(others, pid, stamp, FailureWriting(Receipt)), pid, world);
        return Some(Receipt), longer;
      }
      if key == Daily(stamp) {
        longer := Extend(start, longer, Head(pid), Now(others, pid, stamp, MarkerWriting(plan, next)), pid, world);
        longer := Publish(start, longer, files, remote, others, pid, stamp, MarkerWriting(plan, next), world);
        var file := MarkerFile(Day(stamp));
        var ok := PublishStatus(file, Marker(key, plan.sha, plan.bytes), FaultOf(world, file));
        return if ok then None else Some(Receipt), longer;
      }
      longer := Extend(start, longer, Head(pid), Now(others, pid, stamp, Advance(plan, next)), pid, world);
      return None, longer;
    }

    /** The history goes on with an exception. */
    lemma Raise(start: Host, events: seq<Event>, others: map<nat, Run>, pid: nat, stamp: nat, point: Point,
                world: World)
      returns (longer: seq<Event>)
      requires After(start, events) == Now(others, pid, stamp, point)
      requires Locked(point) && !IsFailing(point) && Own(events, pid, world)
      ensures After(start, longer) == Now(others, pid, stamp, FailureWriting(PhaseAt(point)))
      ensures Own(longer, pid, world)
    {
      hide Step, After, Mid, Own;
      FailStep(files, remote, others, pid, stamp, point, false);
      longer := Extend(start, events, Fail(pid, false), Now(others, pid, stamp, AfterFault(point)), pid, world);
    }

    /** The upload loop. */
    method UploadKeys(ghost start: Host, ghost events: seq<Event>, ghost others: map<nat, Run>, ghost pid: nat,
                      stamp: nat, plan: Plan, world: World)
      returns (failed: Option<Phase>, ghost longer: seq<Event>)
      requires plan.keys == Keys(files, stamp)
      requires After(start, events) == Now(others, pid, stamp, Uploading(plan, 0))
      requires Own(events, pid, world)
      modifies this
      ensures After(start, longer)
           == Now(others, pid, stamp, if failed.None? then StatusWriting(plan) else FailureWriting(failed.value))
      ensures Own(longer, pid, world)
      ensures SameStatus(old(files), files) && SameFile(old(files), files, FailureFile)
      ensures failed.None? ==> MarkerFile(Day(stamp)) in files
      ensures failed.None? ==> AllReceived(remote, plan, |plan.keys|)
      ensures failed.None? <==> RoundsWork(world, plan, |plan.keys|)
      ensures MarkersGrow(old(files), files, stamp, plan)
      ensures failed.Some? ==> failed.value == Upload || failed.value == Receipt
      ensures Sent(old(remote), remote, world, plan, |plan.keys|)
    {
      hide Step, After, Mid, Published, Locked, Own, Sent, FaultOf, MarkersGrow, SameFile;
      assert MarkersGrow(files, files, stamp, plan) && SameFile(files, files, StatusFile)
          && SameFile(files, files, FailureFile) by { NothingChanged(files, stamp, plan); }
      assert Sent(remote, remote, world, plan, 0) by { NothingSent(remote, world, plan); }
      longer := events;
      var next := 0;
      while next < |plan.keys|
        invariant 0 <= next <= |plan.keys|
        invariant After(start, longer)
               == Now(others, pid, stamp, if next < |plan.keys| then Uploading(plan, next) else StatusWriting(plan))
        invariant Own(longer, pid, world) && Sent(old(remote), remote, world, plan, next)
        invariant AllReceived(remote, plan, next) && RoundsWork(world, plan, next)
        invariant MarkersGrow(old(files), files, stamp, plan)
        invariant SameStatus(old(files), files) && SameFile(old(files), files, FailureFile)
        invariant MarkerFile(Day(stamp)) in files <==> next == 2 || |plan.keys| == 1
      {
        ghost var before, filesBefore := remote, files;
        failed, longer := UploadRound(start, longer, others, pid, stamp, plan, next, world);
        SentNext(old(remote), before, remote, world, plan, next);
        RoundLeaves(old(files), filesBefore, files, world, stamp, plan, next);
        if failed.Some? {
          return;
        }
        next := next + 1;
      }
      failed := None;
    }

    /** From the encrypted snapshot to the success status. */
    method UploadAll(ghost start: Host, ghost events: seq<Event>, ghost others: map<nat, Run>, ghost pid: nat,
                     stamp: nat, world: World)
      returns (failed: Option<Phase>, plan: Plan, ghost longer: seq<Event>)
      requires After(start, events) == Now(others, pid, stamp, Preparing(Encrypt))
      requires Own(events, pid, world)
      modifies this
      ensures plan == Plan(SHA256Hex(hash, world.snapshot), |world.snapshot|, Keys(old(files), stamp))
      ensures After(start, longer)
           == Now(others, pid, stamp, if failed.None? then Reporting(plan) else FailureWriting(failed.value))
      ensures Own(longer, pid, world)
      ensures failed.None? ==> Complete(files, remote, stamp, plan)
      ensures failed.Some? ==> SameStatus(old(files), files) && (failed.value == Upload || failed.value == Receipt)
      ensures failed.None? <==> RoundsWork(world, plan, |plan.keys|) && FaultOf(world, StatusFile).None?
      ensures SameFile(old(files), files, FailureFile)
      ensures MarkersGrow(old(files), files, stamp, plan)
      ensures Sent(old(remote), remote, world, plan, |plan.keys|)
    {
      hide Own, Step, After, EncodeToString, Mid, Published, Sent, RoundsWork, AllReceived, FaultOf, Locked,
           MarkersGrow;
      var checksum := DigestFile(hash, world.snapshot);
      var keys := [Hourly(stamp)];
      if MarkerFile(Day(stamp)) !in files {
        keys := keys + [Daily(stamp)];
      }
      plan := Plan(checksum, |world.snapshot|, keys);
      PlanStep(files, remote, others, pid, stamp, plan);
      ghost var uploading := Now(others, pid, stamp, Uploading(plan, 0));
      longer := Extend(start, events, PlanKeys(pid, plan.sha, plan.bytes), uploading, pid, world);
      failed, longer := UploadKeys(start, longer, others, pid, stamp, plan, world);
      if failed.Some? {
        return;
      }
      ghost var filesBefore := files;
      longer := Publish(start, longer, files, remote, others, pid, stamp, StatusWriting(plan), world);
      var ok := PublishStatus(StatusFile, Success(keys, plan.sha, plan.bytes), FaultOf(world, StatusFile));
      failed := if ok then None else Some(Receipt);
      OnlyStatusChanged(old(files), filesBefore, files, stamp, plan);
    }

    /** The commands that make the encrypted snapshot, one phase after the other. */
    method MakeSnapshot(ghost start: Host, ghost events: seq<Event>, ghost others: map<nat, Run>, ghost pid: nat,
                        stamp: nat, world: World)
      returns (failed: Option<Phase>, ghost longer: seq<Event>)
      requires After(start, events) == Now(others, pid, stamp, Preparing(Lock))
      requires Own(events, pid, world)
      ensures After(start, longer)
           == Now(others, pid, stamp, if failed.None? then Preparing(Encrypt) else FailureWriting(failed.value))
      ensures Own(longer, pid, world)
      ensures failed == if SnapshotFails(world) then world.raisesIn else None
    {
      hide Own, Step, After, Mid;
      longer := events;
      var phase := Lock;
      failed, longer := Attempt(start, longer, others, pid, stamp, world, phase);
      if failed.Some? { return; }
      PrepareStep(files, remote, others, pid, stamp, phase);
      phase := Capture;
      longer := Extend(start, longer, Prepare(pid), Now(others, pid, stamp, Preparing(phase)), pid, world);
      failed, longer := Attempt(start, longer, others, pid, stamp, world, phase);
      if failed.Some? { return; }
      PrepareStep(files, remote, others, pid, stamp, phase);
      phase := Verify;
      longer := Extend(start, longer, Prepare(pid), Now(others, pid, stamp, Preparing(phase)), pid, world);
      failed, longer := Attempt(start, longer, others, pid, stamp, world, phase);
      if failed.Some? { return; }
      PrepareStep(files, remote, others, pid, stamp, phase);
      phase := Archive;
      longer := Extend(start, longer, Prepare(pid), Now(others, pid, stamp, Preparing(phase)), pid, world);
      failed, longer := Attempt(start, longer, others, pid, stamp, world, phase);
      if failed.Some? { return; }
      PrepareStep(files, remote, others, pid, stamp, phase);
      phase := Encrypt;
      longer := Extend(start, longer, Prepare(pid), Now(others, pid, stamp, Preparing(phase)), pid, world);
      failed, longer := Attempt(start, longer, others, pid, stamp, world, phase);
    }

    /** Runs the command of a phase, which raises if the world says so. */
    method Attempt(ghost start: Host, ghost events: seq<Event>, ghost others: map<nat, Run>, ghost pid: nat,
                   stamp: nat, world: World, phase: Phase)
      returns (failed: Option<Phase>, ghost longer: seq<Event>)
      requires After(start, events) == Now(others, pid, stamp, Preparing(phase))
      requires Own(events, pid, world)
      ensures failed == if world.raisesIn == Some(phase) then Some(phase) else None
      ensures After(start, longer)
           == Now(others, pid, stamp, if failed.None? then Preparing(phase) else FailureWriting(phase))
      ensures Own(longer, pid, world)
    {
      hide Own, Step, After, Mid;
      longer := events;
      failed := None;
      if world.raisesIn == Some(phase) {
        longer := Raise(start, longer, others, pid, stamp, Preparing(phase), world);
        failed := Some(phase);
      }
    }

    /**
     * One whole run on a host where no other run is under way.  A run that publishes its status has everything it
     * reports; any other leaves the previous status.  A failed run publishes its phase.  Either way what it did is
     * a history of the run machine that ends with the run gone and the lock free.
     */
    method RunOnce(ghost others: map<nat, Run>, ghost pid: nat, stamp: nat, world: World)
      returns (outcome: Outcome, ghost plan: Plan, ghost events: seq<Event>)
      requires pid !in others
      modifies this
      ensures After(Host(old(files), old(remote), None, others), events)
           == Host(files, remote, None, others[pid := Run(stamp, Exited)])
      ensures Own(events, pid, world)
      ensures Sent(old(remote), remote, world, plan, if SnapshotFails(world) then 0 else |plan.keys|)
      ensures plan == Plan(SHA256Hex(hash, world.snapshot), |world.snapshot|, Keys(old(files), stamp))
      ensures
        var sends := !SnapshotFails(world) && RoundsWork(world, plan, |plan.keys|);
        var reports := sends && FaultOf(world, StatusFile).None?;
        && (outcome.Completed? <==> reports && !world.reportRaises)
        && (if reports then Complete(files, remote, stamp, plan) else SameStatus(old(files), files))
      ensures MarkersGrow(old(files), files, stamp, plan)
      ensures
        if outcome.Failed? && FaultOf(world, FailureFile).None?
        then FailureFile in files && files[FailureFile] == Failure(outcome.phase)
        else SameFile(old(files), files, FailureFile)
      ensures SnapshotFails(world) ==> outcome == Failed(world.raisesIn.value)
    {
      hide Own, After, Published, Step, Mid, SHA256Hex, Complete, Keys, Value, Target, Sent, RoundsWork;
      ghost var start := Host(files, remote, None, others);
      assert Own([], pid, world) by { NothingOwn(pid, world); }
      StartStep(start, pid, stamp);
      events := Extend(start, [], Launch(pid, stamp), Step(start, Launch(pid, stamp)), pid, world);
      events := Extend(start, events, TakeLock(pid), Now(others, pid, stamp, Preparing(Lock)), pid, world);
      plan := Plan(SHA256Hex(hash, world.snapshot), |world.snapshot|, Keys(files, stamp));
      NothingSent(remote, world, plan);
      var failed;
      failed, events := MakeSnapshot(start, events, others, pid, stamp, world);
      if failed.None? {
        var made;
        failed, made, events := UploadAll(start, events, others, pid, stamp, world);
        if failed.None? {
          if !world.reportRaises {
            LeaveStep(files, remote, others, pid, stamp, plan);
            ExitedHost(files, remote, others, pid, stamp);
            events := Extend(start, events, Report(pid), Now(others, pid, stamp, Exited), pid, world);
            return Completed, plan, events;
          }
          events := Raise(start, events, others, pid, stamp, Reporting(plan), world);
          failed := Some(Receipt);
        }
      }
      ghost var filesBefore := files;
      events := HandleException(start, events, others, pid, stamp, world, failed.value);
      ExitedHost(files, remote, others, pid, stamp);
      OnlyFailureChanged(old(files), filesBefore, files, remote, stamp, plan);
      return Failed(failed.value), plan, events;
    }

    /**
     * Two runs, one after the other.  If the first goes through and the second is on the same UTC day, the
     * second makes the hourly copy only; if it is on a day without a marker, it makes the daily copy as well.
     */
    method RunTwice(ghost others: map<nat, Run>, ghost pids: (nat, nat), stamps: (nat, nat), worlds: (World, World))
      returns (first: Outcome, second: Outcome, ghost plan: Plan)
      requires pids.0 != pids.1 && pids.0 !in others && pids.1 !in others
      modifies this
      ensures first.Completed? && stamps.0 / 86400 == stamps.1 / 86400 ==> plan.keys == [Hourly(stamps.1)]
      ensures stamps.0 / 86400 != stamps.1 / 86400 && MarkerFile(stamps.1 / 86400) !in old(files) ==>
        plan.keys == [Hourly(stamps.1), Daily(stamps.1)]
      ensures second.Completed? ==> Complete(files, remote, stamps.1, plan)
    {
      hide Keys, After, SHA256Hex, Sent, Own;
      ghost var before, events;
      first, before, events := RunOnce(others, pids.0, stamps.0, worlds.0);
      KeysExactly(files, stamps.1);
      second, plan, events := RunOnce(others[pids.0 := Run(stamps.0, Exited)], pids.1, stamps.1, worlds.1);
    }

    /** The exception handler publishes the phase, beside the status and not over it. */
    method HandleException(ghost start: Host, ghost events: seq<Event>, ghost others: map<nat, Run>, ghost pid: nat,
                           stamp: nat, world: World, phase: Phase)
      returns (ghost longer: seq<Event>)
      requires After(start, events) == Now(others, pid, stamp, FailureWriting(phase))
      requires Own(events, pid, world)
      modifies this
      ensures remote == old(remote) && After(start, longer) == Now(others, pid, stamp, Exited)
      ensures Own(longer, pid, world)
      ensures files == Published(old(files), FailureFile, Failure(phase), FaultOf(world, FailureFile))
    {
      hide Own, After, Published, Step, Mid;
      longer := Publish(start, events, files, remote, others, pid, stamp, FailureWriting(phase), world);
      var ok := PublishStatus(FailureFile, Failure(phase), FaultOf(world, FailureFile));
    }
  }

  lemma StartStep(start: Host, pid: nat, stamp: nat)
    requires pid !in start.runs && start.lock.None?
    ensures After(start, []) == start
    ensures Step(Step(start, Launch(pid, stamp)), TakeLock(pid))
         == Mid(start.files, start.remote, start.runs, pid, stamp, Preparing(Lock))
  {
    assert start.runs[pid := Run(stamp, Waiting)][pid := Run(stamp, Preparing(Lock))]
        == start.runs[pid := Run(stamp, Preparing(Lock))];
  }

  lemma LeaveStep(files: Files, remote: Objects, others: map<nat, Run>, pid: nat, stamp: nat,
                  plan: Plan)
    ensures Step(Mid(files, remote, others, pid, stamp, Reporting(plan)), Report(pid))
         == Mid(files, remote, others, pid, stamp, Exited)
  {
    MidMoves(files, remote, others, pid, stamp, Reporting(plan), Exited);
  }

  lemma ExitedHost(files: Files, remote: Objects, others: map<nat, Run>, pid: nat, stamp: nat)
    ensures Mid(files, remote, others, pid, stamp, Exited)
         == Host(files, remote, None, others[pid := Run(stamp, Exited)])
  {
  }

  lemma OnlyStatusChanged(start: Files, before: Files, after: Files, stamp: nat, plan: Plan)
    requires forall file :: file != StatusFile && file != Pending(StatusFile) ==>
      (file in after <==> file in before) && (file in before ==> after[file] == before[file])
    ensures MarkersGrow(start, before, stamp, plan) ==> MarkersGrow(start, after, stamp, plan)
  {
  }

  lemma OnlyFailureChanged(start: Files, before: Files, after: Files, remote: Objects, stamp: nat, plan: Plan)
    requires forall file :: file != FailureFile && file != Pending(FailureFile) ==>
      (file in after <==> file in before) && (file in before ==> after[file] == before[file])
    ensures SameStatus(start, before) ==> SameStatus(start, after)
    ensures MarkersGrow(start, before, stamp, plan) ==> MarkersGrow(start, after, stamp, plan)
    ensures Complete(before, remote, stamp, plan) ==> Complete(after, remote, stamp, plan)
  {
  }

  /** Markers are only added, and only today's, for the daily key of this run. */
  ghost predicate MarkersGrow(before: Files, after: Files, stamp: nat, plan: Plan) {
    forall day ::
      if MarkerFile(day) in before then MarkerFile(day) in after && after[MarkerFile(day)] == before[MarkerFile(day)]
      else MarkerFile(day) in after ==>
             day == Day(stamp) && after[MarkerFile(day)] == Marker(Daily(stamp), plan.sha, plan.bytes)
  }

  predicate AllReceived(remote: Objects, plan: Plan, n: nat)
    requires n <= |plan.keys|
  {
    forall i :: 0 <= i < n ==> ReceiptMatches(remote, plan.keys[i], plan.sha, plan.bytes)
  }

  predicate SameStatus(before: Files, after: Files) { SameFile(before, after, StatusFile) }

  /**
   * What a run that reports success has achieved: its status, today's marker, and every key in the bucket as
   * recorded.
   */
  predicate Complete(files: Files, remote: Objects, stamp: nat, plan: Plan) {
    && StatusFile in files && files[StatusFile] == Success(plan.keys, plan.sha, plan.bytes)
    && MarkerFile(Day(stamp)) in files
    && AllReceived(remote, plan, |plan.keys|)
  }
}
