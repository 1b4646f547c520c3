/**
 * The update-notice store as the extension's worker runs it: methods over `chrome.storage.local`
 * (apps/extension/shared/update-status.ts).
 */
module StatusWorker {
  import opened Js
  import opened Versions
  import opened StatusStore
  import Runs = StatusRuns

  const STORAGE_KEY := "sploot:update-status"

  /** `chrome.storage.local`, which may reject reads and lose writes. */
  class LocalStorage {
    var items: map<string, JsValue>
    var readable: bool
    var writable: bool
    const hasRemove: bool

    constructor (items: map<string, JsValue>, hasRemove: bool)
      ensures this.items == items && this.hasRemove == hasRemove && readable && writable
    {
      this.items := items;
      this.hasRemove := hasRemove;
      readable, writable := true, true;
    }

    function Item(key: string): JsValue
      reads this
    {
      if key in items then items[key] else Undefined
    }

    /** `None` when the returned promise rejects. */
    method Get(key: string) returns (item: Option<JsValue>)
      ensures item == if readable then Some(Item(key)) else None
    {
      item := if readable then Some(Item(key)) else None;
    }

    method Set(key: string, value: JsValue)
      modifies this`items
      ensures items == if writable then old(items)[key := value] else old(items)
    {
      if writable {
        items := items[key := value];
      }
    }

    method Remove(key: string)
      modifies this`items
      ensures items == if writable then old(items) - {key} else old(items)
    {
      if writable {
        items := items - {key};
      }
    }
  }

  class UpdateStatus {
    const storage: LocalStorage
    const manifest: JsValue
    var startupCheckStarted: bool
    var statusGeneration: nat

    constructor (storage: LocalStorage, manifest: JsValue)
      ensures this.storage == storage && this.manifest == manifest
      ensures !startupCheckStarted && statusGeneration == 0
    {
      this.storage := storage;
      this.manifest := manifest;
      startupCheckStarted, statusGeneration := false, 0;
    }

    function WorkerLife(): Life {
      Life(manifest, storage.hasRemove)
    }

    function State(): Core
      reads this, storage
    {
      Core(storage.Item(STORAGE_KEY), statusGeneration)
    }

    function Luck(): Fate
      reads storage
    {
      Fate(storage.readable, storage.writable)
    }

    /** Everything in storage except the update status. */
    function Others(): map<string, JsValue>
      reads storage
    {
      storage.items - {STORAGE_KEY}
    }

    /** The outer `None` is a rejected read, the inner one a missing or unusable item. */
    method ReadStoredStatus() returns (status: Option<Option<Status>>)
      ensures status == if storage.readable then Some(ReadStatus(State().cell)) else None
      ensures State().cell == storage.Item("sploot:update-status")
    {
      var stored := storage.Get(STORAGE_KEY);
      if stored.None? {
        return None;
      }
      var available := NormalizeVersion(Field(stored.value, "availableVersion"));
      var dismissed := NormalizeVersion(Field(stored.value, "dismissedVersion"));
      if available.None? {
        return Some(None);
      }
      return Some(Some(Status(available.value, dismissed)));
    }

    method WriteStoredStatus(status: Option<Status>)
      modifies storage`items
      ensures Others() == old(Others())
      ensures State().cell ==
        Put(old(State().cell), if status.Some? then StoredForm(status.value) else Removed(WorkerLife()), Luck())
    {
      if status.Some? {
        storage.Set(STORAGE_KEY, StoredForm(status.value));
      } else if storage.hasRemove {
        storage.Remove(STORAGE_KEY);
      } else {
        storage.Set(STORAGE_KEY, Null);
      }
    }

    method ApplyAvailableVersion(version: JsValue) returns (reply: Reply)
      modifies this`statusGeneration, storage`items
      ensures (State(), reply) == PerformApply(WorkerLife(), old(State()), version, Luck())
      ensures Others() == old(Others())
    {
      hide Components, ReadStatus, StoredForm;
      var normalized := NormalizeVersion(version);
      var current := NormalizeVersion(manifest);
      if normalized.None? || current.None? {
        return Refused;
      }
      var newer := IsNewerVersion(normalized.value, current.value);
      if !newer {
        return Refused;
      }
      var existing := ReadStoredStatus();
      if existing.None? {
        return Rejected;
      }
      if existing.value.Some? {
        var outranked := IsNewerVersion(existing.value.value.available, normalized.value);
        if outranked {
          return Refused;
        }
      }
      var keep := existing.value.Some? && existing.value.value.dismissed == normalized;
      WriteStoredStatus(Some(Status(normalized.value, if keep then normalized else None)));
      statusGeneration := statusGeneration + 1;
      return Accepted;
    }

    method ClearIfNoUpdate(expectedGeneration: nat)
      modifies storage`items
      ensures State() == PerformClear(WorkerLife(), old(State()), expectedGeneration, Luck()).0
      ensures Others() == old(Others())
    {
      hide Components, ReadStatus;
      if statusGeneration != expectedGeneration {
        return;
      }
      var existing := ReadStoredStatus();
      if existing.None? {
        return;
      }
      if existing.value.Some? {
        WriteStoredStatus(None);
      }
    }

    method GetUpdateNotice() returns (notice: Option<Notice>)
      modifies storage`items
      ensures (State(), notice) == PerformNotice(WorkerLife(), old(State()), Luck())
      ensures Others() == old(Others())
    {
      hide Components, ReadStatus;
      var existing := ReadStoredStatus();
      if existing.None? {
        return None;
      }
      var current := NormalizeVersion(manifest);
      var newer := false;
      if existing.value.Some? && current.Some? {
        newer := IsNewerVersion(existing.value.value.available, current.value);
      }
      if !newer {
        if existing.value.Some? {
          WriteStoredStatus(None);
        }
        return None;
      }
      var status := existing.value.value;
      return Some(Notice(status.available, status.dismissed == Some(status.available)));
    }

    method DismissUpdate(shown: string)
      modifies storage`items
      ensures (State(), Done) == PerformDismiss(WorkerLife(), old(State()), shown, Luck())
      ensures Others() == old(Others())
    {
      hide Components, ReadStatus, StoredForm;
      var normalized := NormalizeVersion(Str(shown));
      if normalized.None? {
        return;
      }
      var current := GetUpdateNotice();
      if current.None? || current.value.version != normalized.value {
        return;
      }
      WriteStoredStatus(Some(Status(normalized.value, normalized)));
    }

    /** Asks the browser once in a worker's life; the answer comes to `OnCheckAnswered` with the captured generation. */
    method CheckForUpdates() returns (captured: Option<nat>)
      modifies this`startupCheckStarted
      ensures startupCheckStarted
      ensures captured == if old(startupCheckStarted) then None else Some(statusGeneration)
    {
      if startupCheckStarted {
        return None;
      }
      startupCheckStarted := true;
      return Some(statusGeneration);
    }

    method OnCheckAnswered(answer: Runs.Answer, captured: nat)
      modifies this`statusGeneration, storage`items
      ensures Others() == old(Others())
      ensures State() ==
        match answer
        case UpdateAvailable(version) => PerformApply(WorkerLife(), old(State()), version, Luck()).0
        case NoUpdate => PerformClear(WorkerLife(), old(State()), captured, Luck()).0
        case Silent => old(State())
      ensures
        var asked := Runs.FollowUp(answer, captured);
        && |asked| <= 1
        && State() == if asked == [] then old(State()) else Perform(WorkerLife(), old(State()), asked[0], Luck()).0
    {
      hide PerformApply, PerformClear;
      match answer
      case UpdateAvailable(version) => var _ := ApplyAvailableVersion(version);
      case NoUpdate => ClearIfNoUpdate(captured);
      case Silent =>
    }
  }
}
