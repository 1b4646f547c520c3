/**
 * What each operation of the update-notice store does when it runs on its own
 * (apps/extension/shared/update-status.ts): one read that may throw, at most one write that may be
 * lost, and one reply.
 */
module StatusStore {
  import opened Js
  import opened Versions

  datatype Status = Status(available: string, dismissed: Option<string>)

  datatype Notice = Notice(version: string, dismissed: bool)

  /** What stays the same while one worker lives: its manifest and whether `storage.local.remove` exists. */
  datatype Life = Life(manifest: JsValue, hasRemove: bool)

  /** The stored item and the generation counter. */
  datatype Core = Core(cell: JsValue, generation: nat)

  datatype Request =
    | Apply(version: JsValue)
    | Clear(expected: nat)
    | GetNotice
    | Dismiss(shown: string)

  datatype Reply =
    | Accepted   // apply returned true
    | Refused    // apply returned false
    | Rejected   // the returned promise was rejected
    | NoticeIs(notice: Option<Notice>)
    | Done

  /** Whether the storage read succeeds and whether the storage write lands. */
  datatype Fate = Fate(readOk: bool, writeOk: bool)

  function Installed(life: Life): Option<string> {
    NormalizeVersion(life.manifest)
  }

  /** `readStoredStatus` on the item that was read. */
  function ReadStatus(cell: JsValue): Option<Status> {
    match NormalizeVersion(Field(cell, "availableVersion"))
    case None => None
    case Some(available) => Some(Status(available, NormalizeVersion(Field(cell, "dismissedVersion"))))
  }

  /** The item that `writeStoredStatus` stores. */
  function StoredForm(status: Status): JsValue {
    Obj(map["availableVersion" := Str(status.available),
            "dismissedVersion" := if status.dismissed.Some? then Str(status.dismissed.value) else Null])
  }

  /** The item after `writeStoredStatus(null)`: absent, or null where `remove` is missing. */
  function Removed(life: Life): JsValue {
    if life.hasRemove then Undefined else Null
  }

  function Put(cell: JsValue, value: JsValue, fate: Fate): JsValue {
    if fate.writeOk then value else cell
  }

  /** An offered version is considered at all only if it is newer than the installed one. */
  predicate Eligible(life: Life, version: JsValue) {
    && NormalizeVersion(version).Some?
    && Installed(life).Some?
    && NewerThan(NormalizeVersion(version).value, Installed(life).value)
  }

  /** The record that an accepted apply writes over `existing`. */
  function Merged(existing: Option<Status>, version: string): Status {
    Status(version,
           if existing.Some? && existing.value.dismissed == Some(version) then Some(version) else None)
  }

  /** A stored version that is newer still makes apply return false. */
  predicate Outranked(existing: Option<Status>, version: string) {
    existing.Some? && NewerThan(existing.value.available, version)
  }

  function PerformApply(life: Life, core: Core, version: JsValue, fate: Fate): (Core, Reply) {
    if !Eligible(life, version) then (core, Refused)
    else if !fate.readOk then (core, Rejected)
    else
      var normalized := NormalizeVersion(version).value;
      var existing := ReadStatus(core.cell);
      if Outranked(existing, normalized) then (core, Refused)
      else
        (Core(Put(core.cell, StoredForm(Merged(existing, normalized)), fate), core.generation + 1), Accepted)
  }

  function PerformClear(life: Life, core: Core, expected: nat, fate: Fate): (Core, Reply) {
    if core.generation != expected || !fate.readOk || ReadStatus(core.cell).None? then (core, Done)
    else (core.(cell := Put(core.cell, Removed(life), fate)), Done)
  }

  /** The stored record is announced only while it is newer than the installed version. */
  predicate Current(life: Life, existing: Option<Status>) {
    && existing.Some?
    && Installed(life).Some?
    && NewerThan(existing.value.available, Installed(life).value)
  }

  function NoticeOf(status: Status): Notice {
    Notice(status.available, status.dismissed == Some(status.available))
  }

  function PerformNotice(life: Life, core: Core, fate: Fate): (Core, Option<Notice>) {
    if !fate.readOk then (core, None)
    else
      var existing := ReadStatus(core.cell);
      if Current(life, existing) then (core, Some(NoticeOf(existing.value)))
      else if existing.Some? then (core.(cell := Put(core.cell, Removed(life), fate)), None)
      else (core, None)
  }

  function PerformDismiss(life: Life, core: Core, version: string, fate: Fate): (Core, Reply) {
    match NormalizeVersion(Str(version))
    case None => (core, Done)
    case Some(normalized) =>
      var (after, notice) := PerformNotice(life, core, fate);
      if notice.None? || notice.value.version != normalized then (after, Done)
      else
        (after.(cell := Put(after.cell, StoredForm(Status(normalized, Some(normalized))), fate)), Done)
  }

  function Perform(life: Life, core: Core, request: Request, fate: Fate): (Core, Reply) {
    match request
    case Apply(version) => PerformApply(life, core, version, fate)
    case Clear(expected) => PerformClear(life, core, expected, fate)
    case GetNotice => var (after, notice) := PerformNotice(life, core, fate); (after, NoticeIs(notice))
    case Dismiss(version) => PerformDismiss(life, core, version, fate)
  }

  /* ---------- Records ---------- */

  predicate CanonicalStatus(status: Status) {
    Canonical(status.available) && (status.dismissed.Some? ==> Canonical(status.dismissed.value))
  }

  /** Whatever is stored, what is read from it is in canonical spelling. */
  lemma ReadIsCanonical(cell: JsValue)
    ensures ReadStatus(cell).Some? ==> CanonicalStatus(ReadStatus(cell).value)
  {
    var available, dismissed := Field(cell, "availableVersion"), Field(cell, "dismissedVersion");
    if NormalizeVersion(available).Some? {
      NormalizeIsCanonical(available);
      if NormalizeVersion(dismissed).Some? {
        NormalizeIsCanonical(dismissed);
      }
    }
  }

  /** Writing a canonical record and reading it back is the identity; reading a removed item finds nothing. */
  lemma ReadBack(status: Status)
    requires CanonicalStatus(status)
    ensures ReadStatus(StoredForm(status)) == Some(status)
  {
    var cell := StoredForm(status);
    assert Field(cell, "availableVersion") == Str(status.available);
    assert status.dismissed.None? ==> NormalizeVersion(Field(cell, "dismissedVersion")) == None;
  }

  /** The record that an accepted apply writes reads back unchanged. */
  lemma MergedReadsBack(life: Life, cell: JsValue, version: JsValue)
    requires Eligible(life, version)
    ensures
      var merged := Merged(ReadStatus(cell), NormalizeVersion(version).value);
      ReadStatus(StoredForm(merged)) == Some(merged)
  {
    NormalizeIsCanonical(version);
    ReadBack(Merged(ReadStatus(cell), NormalizeVersion(version).value));
  }

  /** What an apply can do to the record it finds. */
  lemma ApplyEffect(life: Life, core: Core, version: JsValue, fate: Fate)
    ensures
      var (after, reply) := PerformApply(life, core, version, fate);
      var before, now := ReadStatus(core.cell), ReadStatus(after.cell);
      || after.cell == core.cell
      || (reply == Accepted && Eligible(life, version)
          && now == Some(Merged(before, NormalizeVersion(version).value))
          && !Outranked(before, NormalizeVersion(version).value))
  {
    hide Components;
    if Eligible(life, version) {
      MergedReadsBack(life, core.cell, version);
    }
  }

  lemma RemovedReadsNothing(life: Life)
    ensures ReadStatus(Removed(life)).None?
  {
  }

  /** What a dismissal can do: remove a record that is not current, or mark a current one that it names. */
  lemma DismissEffect(life: Life, core: Core, shown: string, fate: Fate)
    ensures
      var (after, _) := PerformDismiss(life, core, shown, fate);
      var before, now := ReadStatus(core.cell), ReadStatus(after.cell);
      || after.cell == core.cell
      || (before.Some? && !Current(life, before) && now.None?)
      || (Current(life, before)
          && Some(before.value.available) == NormalizeVersion(Str(shown))
          && now == Some(Status(before.value.available, Some(before.value.available))))
  {
    hide Components;
    RemovedReadsNothing(life);
    if ReadStatus(core.cell).Some? {
      ReadIsCanonical(core.cell);
      var available := ReadStatus(core.cell).value.available;
      ReadBack(Status(available, Some(available)));
    }
  }

  /* ---------- The operations, said through numbers and fields ---------- */

  /** An offered version counts exactly if it and the installed one are versions and it ranks higher. */
  lemma EligibleExactly(life: Life, version: JsValue)
    ensures Eligible(life, version) <==>
      && NormalizeVersion(version).Some? && NormalizeVersion(life.manifest).Some?
      && RankOf(version) > RankOf(life.manifest)
  {
    hide Components, RankOf;
    if NormalizeVersion(version).Some? && NormalizeVersion(life.manifest).Some? {
      SpellingKeepsRank(version);
      SpellingKeepsRank(life.manifest);
    }
  }

  lemma SpellingKeepsRank(version: JsValue)
    requires NormalizeVersion(version).Some?
    ensures IsVersion(NormalizeVersion(version).value)
    ensures Rank(NormalizeVersion(version).value) == RankOf(version)
  {
    NormalizeIsCanonical(version);
  }

  /** A stored record is announced exactly if the installed version is one and ranks lower. */
  lemma CurrentExactly(life: Life, cell: JsValue)
    ensures Current(life, ReadStatus(cell)) <==>
      && ReadStatus(cell).Some? && NormalizeVersion(life.manifest).Some?
      && Rank(ReadStatus(cell).value.available) > RankOf(life.manifest)
  {
    hide Components, RankOf;
    ReadIsCanonical(cell);
    if ReadStatus(cell).Some? && NormalizeVersion(life.manifest).Some? {
      SpellingKeepsRank(life.manifest);
      CanonicalIsVersion(ReadStatus(cell).value.available);
    }
  }

  lemma CanonicalIsVersion(s: string)
    ensures Canonical(s) ==> IsVersion(s)
  {
  }

  /** The stored item: an object with these two fields, whatever else it holds; null stands for no dismissal. */
  lemma ReadsExactly(cell: JsValue)
    ensures ReadStatus(cell).Some? <==>
      && cell.Obj? && "availableVersion" in cell.fields
      && NormalizeVersion(cell.fields["availableVersion"]).Some?
    ensures ReadStatus(cell).Some? ==>
      && Some(ReadStatus(cell).value.available) == NormalizeVersion(cell.fields["availableVersion"])
      && ReadStatus(cell).value.dismissed ==
         (if "dismissedVersion" in cell.fields then NormalizeVersion(cell.fields["dismissedVersion"]) else None)
  {
    assert Components(Undefined).None?;
    hide Components;
  }

  /**
   * Apply: refused unless the version ranks above the installed one; rejected if the read fails; refused if the
   * record found ranks above it; otherwise accepted, which counts up the generation and, if the write lands,
   * stores the version, dismissed only if the record found was dismissed at that spelling.
   */
  lemma ApplyExactly(life: Life, core: Core, version: JsValue, fate: Fate)
    ensures
      var (after, reply) := PerformApply(life, core, version, fate);
      var before, spelling := ReadStatus(core.cell), NormalizeVersion(version);
      var newer := spelling.Some? && NormalizeVersion(life.manifest).Some? && RankOf(version) > RankOf(life.manifest);
      && reply == (if !newer then Refused else if !fate.readOk then Rejected
                   else if before.Some? && Rank(before.value.available) > RankOf(version) then Refused
                   else Accepted)
      && after.generation == core.generation + (if reply == Accepted then 1 else 0)
      && (if reply == Accepted && fate.writeOk
          then ReadStatus(after.cell) ==
               Some(Status(spelling.value,
                           if before.Some? && before.value.dismissed == spelling then spelling else None))
          else after.cell == core.cell)
  {
    hide Components, RankOf;
    EligibleExactly(life, version);
    ReadIsCanonical(core.cell);
    if Eligible(life, version) {
      SpellingKeepsRank(version);
      MergedReadsBack(life, core.cell, version);
      if ReadStatus(core.cell).Some? {
        CanonicalIsVersion(ReadStatus(core.cell).value.available);
      }
    }
  }

  /** Clear: with the expected generation, a record that is read is removed if the write lands; nothing else changes. */
  lemma ClearExactly(life: Life, core: Core, expected: nat, fate: Fate)
    ensures
      PerformClear(life, core, expected, fate) ==
      (Core(if core.generation == expected && ReadStatus(core.cell).Some? && fate.readOk && fate.writeOk
            then (if life.hasRemove then Undefined else Null) else core.cell, core.generation), Done)
    ensures ReadStatus(Undefined).None? && ReadStatus(Null).None?
  {
    RemovedReadsNothing(life);
    RemovedReadsNothing(Life(life.manifest, !life.hasRemove));
  }

  /**
   * Notice: given exactly for a record that was read and ranks above the installed version; it says that version
   * and whether it is the dismissed one.  A record that was read and does not is removed if the write lands.
   */
  lemma NoticeExactly(life: Life, core: Core, fate: Fate)
    ensures
      var (after, notice) := PerformNotice(life, core, fate);
      var before := ReadStatus(core.cell);
      var newer := before.Some? && NormalizeVersion(life.manifest).Some?
                   && Rank(before.value.available) > RankOf(life.manifest);
      && notice == (if fate.readOk && newer
                    then Some(Notice(before.value.available, before.value.dismissed == Some(before.value.available)))
                    else None)
      && after == Core(if fate.readOk && fate.writeOk && before.Some? && !newer
                       then (if life.hasRemove then Undefined else Null) else core.cell, core.generation)
  {
    hide Components, RankOf, ReadStatus;
    CurrentExactly(life, core.cell);
  }

  /**
   * Dismiss: does nothing unless it names a version; like a notice it removes a record that does not rank above
   * the installed version; a record at the very version it names it marks as dismissed, if the write lands.
   */
  lemma DismissExactly(life: Life, core: Core, shown: string, fate: Fate)
    ensures
      var (after, reply) := PerformDismiss(life, core, shown, fate);
      var before, named := ReadStatus(core.cell), NormalizeVersion(Str(shown));
      var newer := before.Some? && NormalizeVersion(life.manifest).Some?
                   && Rank(before.value.available) > RankOf(life.manifest);
      && reply == Done && after.generation == core.generation
      && (if named.None? || before.None? || !fate.readOk || !fate.writeOk then after.cell == core.cell
          else if !newer then after.cell == (if life.hasRemove then Undefined else Null)
          else if Some(before.value.available) == named then ReadStatus(after.cell) == Some(Status(named.value, named))
          else after.cell == core.cell)
  {
    hide Components, RankOf;
    CurrentExactly(life, core.cell);
    if ReadStatus(core.cell).Some? {
      ReadIsCanonical(core.cell);
      var available := ReadStatus(core.cell).value.available;
      ReadBack(Status(available, Some(available)));
    }
  }
}
