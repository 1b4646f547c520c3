# Sploot: update notices, remote backups and shared codecs

A Dafny 4.11 model of three parts of Sploot and proofs about them. `dafny verify dfyconfig.toml` checks everything.

**Update notices** (`apps/extension/shared/update-status.ts`). The extension's background worker keeps one
stored record: the newest version on offer and the version the user dismissed. Four operations (apply, clear,
notice, dismiss) run as chains of awaits behind one promise queue, over storage whose reads can throw and whose
writes can be lost, in a worker that can die at any await. The model has

- `Js`, `Versions`: the JavaScript values and strings involved, the version parser and printer, and the
  comparison loop, proved against the base-65536 number of a version;
- `StatusStore`: each operation as one whole step (`Perform`) with a fate: does the read succeed, does the write land;
- `StatusWorker`: the operations as methods of a class over a storage object;
- `StatusRuns`: the machine that performs whole operations one at a time, and what each of them does and keeps;
- `StatusQueue`: the machine at the grain of single awaits. A job runs as the handler of `then` on the queue promise
  before it, whichever way that settled; its own queue promise settles after it. That this makes operations exclude
  each other and that a rejection stops nobody is proved, not assumed. Checks start, answers and messages arrive,
  reads and writes are served and workers die between any two steps. Every sequence of events is a run, because an
  event that is not possible changes nothing;
- `StatusRefinement`: every run of the second machine is a run of the first. The refinement is a function of the
  run: `Reached` says how many operations are over, which item they left and what storage has answered the next one,
  and `Wholes` names the whole operations that the run amounts to;
- `StatusSafety`, `StatusStored`, `StatusCheck`: the fence, deaths and progress; the stored record and the replies at
  every moment; what the answer of the update check comes to.

An operation counts as done at its end. For an apply that is the increment of the generation, because the update
check reads the counter outside the queue.

**Remote backups** (`apps/server/scripts/backup-remote.py`). `BackupRuns` is a machine of any number of runs, each
of which can fail or be killed at every point, over the host's files, one lock and a bucket that may store something
else than was sent, change objects and expire them. An upload can raise or be killed after its object arrived.
`BackupSafety` proves what every history keeps, `BackupObjects` what markers and statuses say about the bucket later
on. `BackupMain` is the script's `main` as a method over the files and the bucket, with every command, upload, receipt,
publication and the report able to raise; its contract says what a completed and a failed run leave, and that what it
did is a history of the machine.

**Codecs that two places share.** `Mime` (the TypeScript and the emitted Go MIME normalizer and validator),
`Checksum` (printing and validating SHA-256 digests), `UploadName` (the name under which the extension uploads) and
`UploadReceipt` (when an upload is reported as saved).

## What is proved, in short

The members named `...Exactly` say what each operation does in the end in plain terms: digits, numbers up to 65535,
fields of the stored object, days of 86400 seconds, characters. The results below rest on the operations they describe;
the two lemmas `WorldIsFree` say what the machines leave open.

- At every moment of every interleaving, the operations that are over have run whole, one at a time in queue order:
  same replies, generation, queue, and, whenever no operation is under way, same stored item (`RunRefines`). Each
  settles with what it does to the item and generation at its beginning (`OperationsAreAtomic`), and each change of
  the item is the whole effect of one operation on the item just before (`LandingIsEffect`). While storage works
  and the worker lives, interleaving changes neither replies nor items (`WorkingRunIsInOrder`).
- A "no update" answer never removes the record once an apply was accepted after the check was asked, even if the
  apply was half done at that moment (`FenceHolds`, `LateAnswerHarmless`).
- And it does its work: once everything has settled, an answer "no update" has left no record exactly if no apply was
  accepted since the check was asked (`NoUpdateDecides`), and an offer of something newer has left it or something of
  higher rank (`UpdateIsStored`).
- Death at any await leaves the item that the completed operations left, without or with the whole effect of the one
  that was interrupted (`DeathIsAtomic`).
- No job can block the ones behind it, rejected or not (`RejectionIsAbsorbed`, `NeverStuck`, `QueueDrains`,
  `InternalRunsEnd`).
- The rank of a record never drops while there is one (`RankOnlyGrows`), a notice is exact at the moment it is given
  (`NoticesAreExact`), and once there is no record every notice is null until something newer lands
  (`QuietUntilNewer`).
- A daily backup marker means an upload and a matching receipt, is never overwritten, and means that the object is
  still there unless the bucket itself changed or expired that object (`MarkedObjectIsHeld`); the success status means
  the same for each of its keys (`SuccessMeansReceipts`, `ReportedObjectIsHeld`); every published file is whole at
  every moment.

Three things that the code might be taken to promise do not hold as such, and the exact condition is proved instead:

- an apply that returns true need not have stored its record, since a lost write is silent: `AcceptedButLost` and
  `AcceptedIsStoredExactly`;
- the order of applies does not change the rank they end with, but it can change the spelling ("1.2" or "1.2.0"):
  `LastSpellingWins`; every order ends with the same record exactly when the highest eligible versions are spelled
  alike: `SpellingDependsOnTies`;
- a dismissal always replies `ok`, whether or not it had an effect: `DismissedNothing` and `DismissTakesExactly`.

## Model

| member | source | states |
|---|---|---|
| Versions.MatchesIsSplit | apps/extension/shared/update-status.ts:25-26 | The version pattern accepts exactly the strings whose dot-separated pieces are one to four runs of digits, which is what the split on the next line relies on. |
| Versions.NormalizeExactly | apps/extension/shared/update-status.ts:22-29 | Accepted is exactly a string that, trimmed and cut at its dots, has one to four non-empty runs of digits, each reading as at most 65535; the result is those numbers printed and joined by dots. |
| Versions.DigitsAreDecimal | apps/extension/shared/update-status.ts:25-26 | Exactly "0" to "9" are digits, and appending a digit to a run multiplies its number by ten and adds the digit. |
| Versions.PrintIsShortest | apps/extension/shared/update-status.ts:28 | A number is printed as the one digit string without a leading zero that reads as it. |
| Versions.PrintedExactly | apps/extension/shared/update-status.ts:26-28 | Of one to four numbers exactly those all up to 65535 make a version, and it normalizes to their print; "1.10.0" is one. |
| Versions.RenderParses | apps/extension/shared/update-status.ts:26-28 | Printing one to four numbers in 0..65535 and parsing the text gives the numbers back. |
| Versions.NormalizeIsCanonical | apps/extension/shared/update-status.ts:22-29 | Normalizing is idempotent and keeps the numbers. |
| Versions.CanonicalIsUniquePrint | apps/extension/shared/update-status.ts:22-29 | The fixed points of normalizing are exactly the prints of valid number lists, and different lists have different prints. |
| Versions.SameSpellingSameNumbers | apps/extension/shared/update-status.ts:22-29 | Two accepted inputs normalize to the same string exactly when their number lists are equal. |
| Versions.PaddingIgnored | apps/extension/shared/update-status.ts:24 | White space around a version never changes the result, whether it is accepted or not. |
| Versions.LeadingZero | apps/extension/shared/update-status.ts:22-29 | A leading zero in any component never changes what normalizing returns, whether the version is accepted or not. |
| Versions.IsNewerVersion | apps/extension/shared/update-status.ts:31-42 | The component loop decides whether both are versions and the candidate has the greater base-65536 number. |
| Versions.RankExactly | apps/extension/shared/update-status.ts:36-41 | One version ranks above another exactly when, at the first place where they differ, with zeros for missing components, its component is the greater. |
| Versions.NewerExactly | apps/extension/shared/update-status.ts:31-42 | A candidate is newer exactly when both are versions and it ranks above the installed one. |
| Versions.NumberBound | apps/extension/shared/update-status.ts:27 | The base-65536 number of a version fits in 64 bits. |
| Versions.TiesAreEqualTuples | apps/extension/shared/update-status.ts:37-41 | Two versions tie exactly when their four zero-padded components are equal. |
| Versions.Trichotomy | apps/extension/shared/update-status.ts:31-42 | Of two versions never both are newer, and neither is exactly when the padded components are equal. |
| StatusStore.ReadIsCanonical | apps/extension/shared/update-status.ts:61-71 | Whatever is stored, what is read from it is in canonical spelling. |
| StatusStore.ReadBack | apps/extension/shared/update-status.ts:61-85 | A canonical record that is written reads back as itself. |
| StatusStore.ApplyEffect | apps/extension/shared/update-status.ts:107-119 | An apply leaves the item alone, or it is accepted, its version is newer than the installed one, the record it found was not newer, and the record is now that version with a dismissal kept only for the same spelling. |
| StatusStore.DismissEffect | apps/extension/shared/update-status.ts:152-158 | A dismissal leaves the item alone, removes a record that is not newer than the installed version, or marks as dismissed the current record that it names. |
| StatusStore.ReadsExactly | apps/extension/shared/update-status.ts:61-71 | A record is read exactly from an object whose availableVersion is a version; its dismissed version is the dismissedVersion field if that is a version. |
| StatusStore.ApplyExactly | apps/extension/shared/update-status.ts:107-119 | An apply is refused unless the version ranks above the installed one, rejected if the read fails, refused if the record found ranks above it, and otherwise accepted; then the generation goes up by one and, if the write lands, that version is stored, dismissed only if the record found was dismissed at that spelling. |
| StatusStore.ClearExactly | apps/extension/shared/update-status.ts:121-132 | A clear changes nothing but to remove a record that it read with the expected generation, by remove or, where that is missing, by null. |
| StatusStore.NoticeExactly | apps/extension/shared/update-status.ts:134-150 | A notice is given exactly for a record that was read and ranks above the installed version, with its version and whether that is the dismissed one; a record that was read and does not is removed if the write lands. |
| StatusStore.DismissExactly | apps/extension/shared/update-status.ts:152-158 | A dismissal that names a version marks the record at exactly that version as dismissed, removes one that does not rank above the installed version, and does nothing else. |
| StatusWorker.UpdateStatus.ReadStoredStatus | apps/extension/shared/update-status.ts:61-71 | Reading the item under the key sploot:update-status gives the parsed record, nothing for an unusable item, or a rejection when storage rejects. |
| StatusWorker.UpdateStatus.WriteStoredStatus | apps/extension/shared/update-status.ts:73-85 | Writing stores the record, or removes the item, or leaves null where remove is missing; a failing write changes nothing; other keys are untouched. |
| StatusWorker.UpdateStatus.ApplyAvailableVersion | apps/extension/shared/update-status.ts:103-119 | The method's new item, generation and reply are those of the whole apply step; other keys are untouched. |
| StatusWorker.UpdateStatus.ClearIfNoUpdate | apps/extension/shared/update-status.ts:121-132 | The method's new state is that of the whole clear step. |
| StatusWorker.UpdateStatus.GetUpdateNotice | apps/extension/shared/update-status.ts:134-150 | The method's new state and notice are those of the whole notice step. |
| StatusWorker.UpdateStatus.DismissUpdate | apps/extension/shared/update-status.ts:152-158 | The method's new state is that of the whole dismiss step, which goes through a notice. |
| StatusWorker.UpdateStatus.CheckForUpdates | apps/extension/shared/update-status.ts:206-209 | The first call in a worker's life captures the current generation; later calls do nothing. |
| StatusWorker.UpdateStatus.OnCheckAnswered | apps/extension/shared/update-status.ts:213-222 | The answer leads to an apply of the offered version, to a clear with the captured generation, or to nothing, and to the very operation that the machines put into the queue for it. |
| StatusRuns.RankNeverDrops | apps/extension/shared/update-status.ts:107-119 | An operation replaces a record only by one of at least the same rank, or removes it. |
| StatusRuns.GenerationCountsAccepted | apps/extension/shared/update-status.ts:117 | In every run of whole operations the generation is the number of applies accepted in this life. |
| StatusRuns.AcceptedIsStoredExactly | apps/extension/shared/update-status.ts:73-85 | After an apply that returned true, its record is stored exactly when the write landed or the same record was there before. |
| StatusRuns.DismissalKeptExactly | apps/extension/shared/update-status.ts:107-158 | A dismissed version stays dismissed through an operation exactly unless it is a landed apply of a different spelling that is not older, or a landed removal by a matching clear or by a notice or dismissal that finds it not newer than installed. |
| StatusRuns.DismissTakesExactly | apps/extension/shared/update-status.ts:152-158 | After a dismissal a version is dismissed exactly when it was and is not removed, or it is the current record, it was named, and read and write worked. |
| StatusRuns.DismissAndApplyCommute | apps/extension/shared/update-status.ts:107-158 | Dismissing and applying a newer version commute: both orders end with the newer version stored and not dismissed, whatever the dismissal's own fate. |
| StatusRuns.AppliesEndRight | apps/extension/shared/update-status.ts:103-119 | Whatever is stored, any sequence of applies with working storage leaves it if every version newer than the installed one ranks below it, and otherwise ends with the last of the highest-ranked of these; it never makes a dismissal. |
| StatusRuns.FinalRankIsMaximum | apps/extension/shared/update-status.ts:103-119 | The final rank is the maximum of the stored rank and of the ranks of the versions newer than the installed one; there is no record exactly if there was none and nothing newer was offered. |
| StatusRuns.OrderIndependent | apps/extension/shared/update-status.ts:103-119 | Whatever is stored, any two orders of the same applies end with the same rank, or both with no record. |
| StatusRuns.SpellingDependsOnTies | apps/extension/shared/update-status.ts:103-119 | From no record, every order of the same applies, however many, ends with the same record exactly when the eligible versions of the highest rank all normalize to one spelling. |
| StatusRuns.AcceptedButLost | apps/extension/shared/update-status.ts:113-118 | With "1" installed, applying "2" returns true although the write is lost and nothing is stored. |
| StatusRuns.LastSpellingWins | apps/extension/shared/update-status.ts:112-116 | With "1" installed, applying "2" and "2.0" ends with whichever came last. |
| StatusRuns.DismissedNothing | apps/extension/shared/update-status.ts:233-236 | Dismissing "2" with nothing stored replies and dismisses nothing. |
| StatusQueue.RunIsChained | apps/extension/shared/update-status.ts:97-101 | In every run each job is chained on the queue promise of the one before it, has moved only if that one is fulfilled, and no queue promise is ever rejected or settles before its job has. |
| StatusQueue.MutualExclusion | apps/extension/shared/update-status.ts:97-101 | In every state of every run at most one operation is under way and those behind it have not started. |
| StatusQueue.RejectionIsAbsorbed | apps/extension/shared/update-status.ts:97-101 | In every run, the queue promise of a job whose own promise was rejected can settle, is then fulfilled, and lets the next job start on its own operation. |
| StatusQueue.WorldIsFree | apps/extension/shared/update-status.ts:61-85 | Any message can arrive, any answer can come while the check is asked, any read can fail, any write can land or be lost, and the worker can die at any moment with or without a write in flight landing. |
| StatusRefinement.ResumeExplained | apps/extension/shared/update-status.ts:107-158 | After each stretch of code between awaits an operation has changed nothing yet, or has made its one write, or has done exactly what the whole operation does with the answers that storage gave it. |
| StatusRefinement.RunRefines | apps/extension/shared/update-status.ts:97-158 | At every moment of every run, with checks, messages, lost writes and deaths, the whole-operation machine driven by the operations that are over, each with the answers that storage gave it, has the same replies, generation, queue and check, and the same item whenever no operation is under way; an operation under way is explained by the item it started from. |
| StatusSafety.FenceHolds | apps/extension/shared/update-status.ts:107-132 | If an apply is accepted after the check was asked, then at every later moment of that life no removal from that check is under way and any that begins ends at once. |
| StatusSafety.LateAnswerHarmless | apps/extension/shared/update-status.ts:206-222 | After such an apply, whatever changes the stored item, even at the worker's death, is not a removal from that check. |
| StatusSafety.DeathIsAtomic | apps/extension/shared/update-status.ts:17-20 | At a death at any await, with an in-flight write landing or not, the operations that were over have run whole, the next life starts from the item they left, without or with the whole effect of the one under way, and counter, queue and flags are reset. |
| StatusSafety.NeverStuck | apps/extension/shared/update-status.ts:97-101 | Unless every operation has settled, some step of the queue is possible, whatever the operations replied. |
| StatusSafety.QueueDrains | apps/extension/shared/update-status.ts:97-101 | From every such state some run of queue steps, no longer than the work left, settles every operation. |
| StatusSafety.InternalRunsEnd | apps/extension/shared/update-status.ts:97-101 | No run of queue steps, however chosen, is longer than the work left. |
| StatusSafety.GenerationAlwaysCounts | apps/extension/shared/update-status.ts:117 | At every moment of every interleaving the generation is the number of applies accepted in this life. |
| StatusStored.LandingIsEffect | apps/extension/shared/update-status.ts:107-158 | At every moment of every interleaving an event leaves the item alone or is a landing write, and then the new item is the whole effect of that operation on the item as it was just before. |
| StatusStored.OperationsAreAtomic | apps/extension/shared/update-status.ts:107-158 | When an operation settles, the item, the generation and the reply are what the whole operation makes of the item and generation at its beginning with the answers that storage gave, whatever happened between its awaits. |
| StatusStored.StoredIsAlwaysTidy | apps/extension/shared/update-status.ts:61-85 | From a tidy store, every state of every interleaving holds nothing or a canonical record whose dismissed version is null or the available one. |
| StatusStored.RankNeverDrops | apps/extension/shared/update-status.ts:103-119 | No event of any interleaving, deaths included, replaces a record by one of lower rank. |
| StatusStored.RankOnlyGrows | apps/extension/shared/update-status.ts:103-119 | From any moment on, as long as a record is present, its rank does not go down, through restarts and in the middle of operations. |
| StatusStored.RecordGoesExactly | apps/extension/shared/update-status.ts:121-150 | A record goes exactly at the landing removal of a clear of the current generation, or of a notice or valid dismissal that finds it not newer than installed. |
| StatusStored.RecordComesExactly | apps/extension/shared/update-status.ts:107-119 | Where there is no record, one comes exactly at the landing write of an apply of a version newer than the installed one. |
| StatusStored.DismissalEndsExactly | apps/extension/shared/update-status.ts:107-158 | A dismissal ends exactly at the landing write of an apply of a different spelling that is not older, or the landing removal of a matching clear or of a read that finds it not newer than installed. |
| StatusStored.DismissalSurvives | apps/extension/shared/update-status.ts:107-158 | From any moment on a dismissed version stays dismissed, restarts included, until such a write lands. |
| StatusStored.DismissalSticks | apps/extension/shared/update-status.ts:111-158 | A dismissed version stays dismissed in every state of every interleaving of notices, dismissals, lost writes, restarts, and applies of that version or of older ones, while the installed version is older. |
| StatusStored.NoticesAreExact | apps/extension/shared/update-status.ts:134-150 | At the moment a notice is given it is null exactly when its read failed or found no record newer than installed; otherwise that record is still stored, the notice names its version, and calls it dismissed exactly when it is. |
| StatusStored.NoticesAlwaysTrue | apps/extension/shared/update-status.ts:134-150 | Every notice given in any interleaving, from any stored content, names a version newer than the installed one. |
| StatusStored.QuietUntilNewer | apps/extension/shared/update-status.ts:134-150 | Once there is no record every notice that is given is null, even one begun before, until an apply of a version newer than the installed one gets its write to the store. |
| StatusStored.WorkingRunIsInOrder | apps/extension/shared/update-status.ts:97-158 | While storage works and the worker lives, at every moment of every interleaving the operations that are over have left and replied exactly what they do one after the other in queue order. |
| StatusStored.AppliesSettleRight | apps/extension/shared/update-status.ts:97-119 | Applies that settle with storage working, however interleaved, leave the stored record if every version newer than the installed one ranks below it, and otherwise the last of the highest-ranked of these, undismissed where there was no record. |
| StatusStored.ArrivalOrderIndependent | apps/extension/shared/update-status.ts:97-119 | Two such runs with the same applies, in whatever order they arrived, end with the same rank or both with no record, and, where there was no record, with the same one if the highest are spelled alike. |
| StatusStored.ArrivalsCommute | apps/extension/shared/update-status.ts:97-158 | A dismissal and an apply of a newer version that settle with storage working, in either order of arrival and however interleaved, leave the same item: the newer version, not dismissed. |
| StatusCheck.NoUpdateDecides | apps/extension/shared/update-status.ts:206-222 | While storage works and once everything has settled, whatever else arrived and however it interleaved, an answer "no update" has left no record exactly if no apply was accepted after the check was asked; otherwise there is a record newer than the installed version. |
| StatusCheck.UpdateIsStored | apps/extension/shared/update-status.ts:213-216 | Likewise an answer that offers a version ranking above the installed one has left a record of at least that rank, and, if nothing else was asked, that version unless the record before ranked above it. |
| StatusCheck.ClearsComeFromNoUpdate | apps/extension/shared/update-status.ts:213-218 | Exactly a possible answer "no update" puts the first removal of a life into the queue; no other event does. |
| StatusCheck.AnsweredOnce | apps/extension/shared/update-status.ts:206-222 | After an answer no other answer is possible in that life. |
| StatusCheck.SettledRunExists | apps/extension/shared/update-status.ts:97-101 | For any requests in any order there is a run with working storage in which they are queued, each once and in that order, and all settle. |
| StatusCheck.CheckedRunExists | apps/extension/shared/update-status.ts:206-222 | For any answer to the check there is a run in which exactly the operation it asks for is queued and settles; with "no update" it ends without a record, with silence it leaves the item. |
| BackupRuns.HistoryIsSound | apps/server/scripts/backup-remote.py:91-132 | In every history at most one run is between taking the lock and leaving, pending files hold what their run is about to publish, and the day's marker is absent exactly while a planned daily copy is unfinished. |
| BackupRuns.KeysExactly | apps/server/scripts/backup-remote.py:110-116 | A run plans the hourly key and, exactly when there is no marker for the UTC day of its stamp, the daily one. |
| BackupRuns.WorldIsFree | apps/server/scripts/backup-remote.py:91-142 | A run can start at any time, fail or be killed at every point under the lock, tearing the value it is writing or not; the bucket can hold anything after an upload that returns or not, and change at any time. |
| BackupSafety.MarkerMeansReceipt | apps/server/scripts/backup-remote.py:117-132 | A marker for a day names a daily key of that day that one run uploaded and then saw the bucket confirm with the digest and size it records. |
| BackupSafety.MarkerIsNeverOverwritten | apps/server/scripts/backup-remote.py:118-132 | Once a marker exists, no continuation of the history changes it. |
| BackupObjects.MarkedDayIsNotUploadedAgain | apps/server/scripts/backup-remote.py:112-132 | Once a day has its marker, no event of any run changes a daily object of that day in the bucket. |
| BackupSafety.DailyCopyIsMadeOnce | apps/server/scripts/backup-remote.py:110-116 | In every history a run that plans its keys after the marker of its UTC day was published makes no daily copy, and one that plans them while there is none does. |
| BackupSafety.NothingUnprepared | apps/server/scripts/backup-remote.py:95-112 | In every history a run has gone through capture, verification, archive and encryption, in this order, before it plans or uploads a key or publishes a marker or a status. |
| BackupObjects.MarkedObjectIsHeld | apps/server/scripts/backup-remote.py:112-132 | At every moment the bucket holds the object that a marker names, with the recorded digest and size, unless the bucket itself changed or expired that object after it was confirmed; other objects may come, go and expire, and uploads may raise or die after arriving. |
| BackupObjects.ReportedObjectIsHeld | apps/server/scripts/backup-remote.py:110-136 | At every moment the bucket holds each object that the success status names, with the recorded digest and size, if no second run took the same time stamp and unless the bucket itself changed or expired that object after it was confirmed. |
| BackupSafety.SuccessMeansReceipts | apps/server/scripts/backup-remote.py:120-136 | Whenever the status file exists it is a success whose every key was uploaded and confirmed with the recorded digest and size, and the marker of that run's day exists. |
| BackupSafety.StatusIntactUntilPublished | apps/server/scripts/backup-remote.py:133-141 | Until some run reaches the rename of its status, the previous status, or its absence, is intact. |
| BackupSafety.PublishedWhole | apps/server/scripts/backup-remote.py:37-41 | Each event replaces a published file by the whole value its run publishes, or leaves it as it was. |
| BackupSafety.PublishedNeverTorn | apps/server/scripts/backup-remote.py:37-41 | In every history no published file is ever torn, although pending ones may be. |
| BackupSafety.LockExcludes | apps/server/scripts/backup-remote.py:91-95 | No two runs hold the lock; a waiting run gets a free lock and leaves at once, changing nothing else, if it is taken; a run's death frees the lock it held. |
| BackupMain.DigestFile | apps/server/scripts/backup-remote.py:29-34 | Feeding a file in chunks of 1 MiB gives the digest of the whole file. |
| BackupMain.Backup.PublishStatus | apps/server/scripts/backup-remote.py:37-41 | Publishing puts the value at the target and leaves no pending file; wherever it raises, the target is untouched. |
| BackupMain.Backup.UploadRound | apps/server/scripts/backup-remote.py:117-132 | One round of the loop succeeds exactly when the upload returns, the bucket answers, the object has the digest and size, and, for the daily key, the marker is published; it changes no other object, even if the upload raises after arriving, and reports the phase in which it failed. |
| BackupMain.Backup.RunOnce | apps/server/scripts/backup-remote.py:90-142 | A run completes exactly when making the snapshot, every round, publishing the status and reporting work; once the status is published, status, marker and bucket agree, and otherwise the previous status stays; a failed run publishes its phase unless that raises too; only today's marker can appear; in the bucket exactly the keys that were sent, in order up to the first failure, change; all of it is a history of the run machine made of this run's own events. |
| BackupMain.Backup.RunTwice | apps/server/scripts/backup-remote.py:110-136 | Of two runs one after the other, the second makes the hourly copy only if the first completed on the same UTC day, and the daily one as well if it is on a later or earlier day without a marker. |
| Mime.NormalizeMIME | apps/server/scripts/generate-contract.ts:39-46 | The emitted Go normalizer computes cut, trim, lower-case and alias, and on ASCII agrees with the TypeScript one. |
| Mime.NormalizersAgree | packages/common/src/constants.ts:73-77 | On every ASCII string both normalizers give the same result. |
| Mime.NormalizeIdempotent | packages/common/src/constants.ts:73-77 | Both normalizers, the TypeScript one and the emitted one, are idempotent on every string. |
| Mime.NoCapitals | packages/common/src/constants.ts:73-77 | Neither normalizer leaves an ASCII capital. |
| Mime.CaseIgnored | packages/common/src/constants.ts:73-77 | Strings that differ only in the case of ASCII letters normalize alike. |
| Mime.WhiteSpaceExactly | apps/server/scripts/generate-contract.ts:41 | Both languages trim the same characters except U+0085, which only Go trims, and U+FEFF, which only TypeScript trims; in ASCII they are the same six. |
| Mime.ValidExactly | packages/common/src/constants.ts:53-58 | Accepted are exactly the strings that spell one of the seven types in any case, with white space around and parameters after a semicolon. |
| Mime.DeduplicatedIsSet | apps/server/scripts/generate-contract.ts:50 | The emitted case list has no duplicates and loses nothing. |
| Mime.SwitchAgreesExactly | apps/server/scripts/generate-contract.ts:48-55 | For any list of types, validator and emitted switch accept the same ASCII strings exactly when the list contains the normal form of each member. |
| Mime.SharedContract | packages/common/src/constants.ts:26-34 | For the list in use they accept the same strings, and the switch has the six cases of the generated file. |
| Checksum.ValidExactlyPrinted | apps/server/internal/contract/checksum.go:20-26 | The validator accepts exactly the strings that the printer makes of 32 bytes. |
| Checksum.ValidExactly | apps/server/internal/contract/checksum.go:20-26 | A stored digest is exactly 64 characters out of 0-9 and a-f. |
| Checksum.PrintsExactly | apps/server/internal/contract/checksum.go:12-15 | Each byte is printed as its two base-16 digits, the high one first. |
| Checksum.PrintedIsValid | apps/server/internal/contract/checksum.go:12-15 | Every printed digest is valid and reads back as the digest. |
| Checksum.ValidIsInjective | apps/server/internal/contract/checksum.go:17-26 | Two valid digests mean the same bytes exactly when they are the same string. |
| UploadName.NameEndsRight | apps/extension/shared/api-client.ts:152-158 | For every name and blob the upload name ends, in any case, in the extension of the normalized type of the blob, JPEG where it has none, or in .jpeg for JPEG; a given name that does so already is kept, and a missing one counts as "media". |
| UploadName.ExtensionExactly | apps/extension/shared/api-client.ts:153 | The extension is what stands between the first and the second slash of the type, but jpg for jpeg, and "undefined" where there is no slash. |
| UploadName.NameIsStable | apps/extension/shared/api-client.ts:154-158 | Deriving the name again changes nothing. |
| UploadName.DirectoryIsKept | apps/extension/shared/api-client.ts:158 | Everything up to any slash or backslash of the given name is kept as a prefix. |
| UploadName.OnlyExtensionChanges | apps/extension/shared/api-client.ts:155-158 | The upload name is the given one, or the given one with its extension replaced, or added where it has none. |
| UploadName.AllowedExtensions | packages/common/src/constants.ts:26-34 | The extension of each type that can be uploaded. |
| UploadReceipt.ReceiptExactly | apps/extension/shared/upload-response.ts:10-28 | The receipt check accepts exactly the bodies with success true, an asset with non-empty id and blobUrl, and a duplicate flag that is boolean or absent. |
| UploadReceipt.SavedExactly | apps/extension/shared/api-client.ts:201-242 | An upload is reported as saved exactly for a receipt with status 2xx, or 409 with the duplicate flag true; the report names the receipt's asset; any other status outside 2xx is an HTTP error unless the body read was aborted. |
| UploadReceipt.NotSavedExactly | apps/extension/shared/api-client.ts:201-242 | Each other outcome, exactly: interrupted for an aborted read; no receipt for a 2xx without a usable body; unconfirmed for a 2xx without success or asset; incomplete for a 2xx, or a 409 claiming a saved duplicate, with success and an asset that is still no receipt. |

## Left out

- StatusWorker.UpdateStatus.ApplyAvailableVersion: the class runs one operation at a time; interleaving is the subject of `StatusQueue`, where operations are values and stages.
- StatusSafety.QueueDrains: assumes that storage answers every call in the end; a call that never settles would hold the queue, in the code as well.
- StatusSafety.DeathIsAtomic: a write in flight lands at the moment of death or never, not during the next life.
- Floating-point numbers: components are unbounded integers; a digit string beyond the safe integers is rejected either way because it exceeds 65535.
- Mime.NormalizeIdempotent: lower-casing is ASCII only, so for other letters it says nothing about the languages' own case mappings.
- Mime.NormalizersAgree: stated for ASCII, because the two languages' white space and case mappings differ beyond it.
- Byte strings: the digest validator reads sequences of characters; a character outside ASCII is rejected either way.
- UploadName.UploadFilename: lower-casing is ASCII only; no character outside ASCII lower-cases to a string ending in one of the extensions in use.
- UploadReceipt.Receive: an error keeps only its status, not the message, code, link and retry advice of `parseErrorResponse`; the request, its timeout and token handling are not modelled.
- BackupMain.Backup.RunOnce: a kill is an event of `BackupRuns` only, because a killed method leaves no state to speak of; a run that finds the lock taken leaves at once there, too.
- SHA-256 itself is any function to 32 bytes; boto3, tar, age, flock and the credential checks are not modelled.
- The development-only version seam (`TEST_INSTALLED_VERSION_KEY`, `setInstalledVersionForTesting`) and the test resets, which write outside the queue.
- Chrome messaging, tabs and change listeners, URL handling, the MCP client, health checks, the generator's other constants and vendored files.
- Strings cannot hold unpaired surrogates; such text is no version and no listed MIME type.
