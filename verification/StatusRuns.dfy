/**
 * The update-notice store as a machine that performs one whole operation at a time, and what all of
 * its runs keep (apps/extension/shared/update-status.ts).
 */
module StatusRuns {
  import opened Js
  import opened Versions
  import opened StatusStore

  /** The one update check of a worker's life, with the generation it captured when it was asked. */
  datatype Check = NotStarted | Asking(captured: nat) | Answered(captured: nat)

  /** How the browser answers the check; `Silent` covers throttling, errors and the timeout. */
  datatype Answer = UpdateAvailable(version: JsValue) | NoUpdate | Silent

  datatype Machine = Machine(life: Life, core: Core, pending: seq<Request>, replies: seq<Reply>, check: Check)

  datatype Event =
    | Stutter
    | Arrive(request: Request)              // a message or a native update event
    | StartCheck
    | Settle(answer: Answer)
    | Next(fate: Fate)                      // the first pending operation runs
    | Die(cut: Option<Fate>, life: Life)    // the worker dies, before or after the effect of the running operation

  function Started(check: Check, generation: nat): Check {
    if check.NotStarted? then Asking(generation) else check
  }

  /** The operations that an answer puts into the queue. */
  function FollowUp(answer: Answer, captured: nat): seq<Request> {
    match answer
    case UpdateAvailable(version) => [Apply(version)]
    case NoUpdate => [Clear(captured)]
    case Silent => []
  }

  /** The events that can happen; any other event leaves the machine as it is. */
  predicate Enabled(m: Machine, e: Event) {
    match e
    case Stutter => true
    case Arrive(request) => !request.Clear?
    case StartCheck => true
    case Settle(_) => m.check.Asking?
    case Next(_) => m.pending != []
    case Die(cut, _) => cut.Some? ==> m.pending != []
  }

  function Step(m: Machine, e: Event): Machine {
    if !Enabled(m, e) then m
    else
      match e
      case Stutter => m
      case Arrive(request) => m.(pending := m.pending + [request])
      case StartCheck => m.(check := Started(m.check, m.core.generation))
      case Settle(answer) =>
        m.(pending := m.pending + FollowUp(answer, m.check.captured), check := Answered(m.check.captured))
      case Next(fate) =>
        var (core, reply) := Perform(m.life, m.core, m.pending[0], fate);
        m.(core := core, pending := m.pending[1..], replies := m.replies + [reply])
      case Die(cut, life) =>
        var cell := if cut.None? then m.core.cell else Perform(m.life, m.core, m.pending[0], cut.value).0.cell;
        Machine(life, Core(cell, 0), [], [], NotStarted)
  }

  function After(m: Machine, events: seq<Event>): Machine {
    if events == [] then m else Step(After(m, events[..|events| - 1]), events[|events| - 1])
  }

  /** The operation and fate through which an event reaches the stored item, if it does. */
  function Effect(m: Machine, e: Event): Option<(Request, Fate)> {
    if m.pending == [] then None
    else if e.Next? then Some((m.pending[0], e.fate))
    else if e.Die? && e.cut.Some? then Some((m.pending[0], e.cut.value))
    else None
  }

  lemma StepCell(m: Machine, e: Event)
    ensures Step(m, e).core.cell ==
      match Effect(m, e)
      case None => m.core.cell
      case Some(effect) => Perform(m.life, m.core, effect.0, effect.1).0.cell
  {
  }

  /* ---------- What is stored ---------- */

  /** Nothing, or a canonical record whose dismissed version is null or the available version itself. */
  ghost predicate Tidy(cell: JsValue) {
    || cell.Undefined?
    || cell.Null?
    || exists status: Status :: cell == StoredForm(status) && TidyStatus(status)
  }

  predicate TidyStatus(status: Status) {
    Canonical(status.available) && (status.dismissed.Some? ==> status.dismissed.value == status.available)
  }

  lemma TidyReads(cell: JsValue)
    requires Tidy(cell)
    ensures ReadStatus(cell).Some? ==> TidyStatus(ReadStatus(cell).value) && cell == StoredForm(ReadStatus(cell).value)
  {
    if status: Status :| cell == StoredForm(status) && TidyStatus(status) {
      ReadBack(status);
    }
  }

  lemma ApplyKeepsTidy(life: Life, core: Core, version: JsValue, fate: Fate)
    requires Tidy(core.cell)
    ensures Tidy(PerformApply(life, core, version, fate).0.cell)
  {
    hide Components;
    TidyReads(core.cell);
    if Eligible(life, version) {
      NormalizeIsCanonical(version);
      assert TidyStatus(Merged(ReadStatus(core.cell), NormalizeVersion(version).value));
    }
  }

  lemma DismissKeepsTidy(life: Life, core: Core, shown: string, fate: Fate)
    requires Tidy(core.cell)
    ensures Tidy(PerformDismiss(life, core, shown, fate).0.cell)
  {
    hide Components;
    if NormalizeVersion(Str(shown)).Some? {
      var version := NormalizeVersion(Str(shown)).value;
      NormalizeIsCanonical(Str(shown));
      assert TidyStatus(Status(version, Some(version)));
    }
  }

  lemma PerformKeepsTidy(life: Life, core: Core, request: Request, fate: Fate)
    requires Tidy(core.cell)
    ensures Tidy(Perform(life, core, request, fate).0.cell)
  {
    hide Components, PerformApply, PerformDismiss;
    match request
    case Apply(version) => ApplyKeepsTidy(life, core, version, fate);
    case Clear(_) =>
    case GetNotice =>
    case Dismiss(shown) => DismissKeepsTidy(life, core, shown, fate);
  }

  /** An operation replaces a record only by one of the same or a higher rank, or removes it. */
  lemma RankNeverDrops(life: Life, core: Core, request: Request, fate: Fate)
    ensures
      var before, now := ReadStatus(core.cell), ReadStatus(Perform(life, core, request, fate).0.cell);
      before.Some? && now.Some? ==> Rank(before.value.available) <= Rank(now.value.available)
  {
    hide Components;
    ReadIsCanonical(core.cell);
    RemovedReadsNothing(life);
    match request
    case Apply(version) =>
      ApplyEffect(life, core, version, fate);
      if NormalizeVersion(version).Some? {
        NormalizeIsCanonical(version);
      }
    case Clear(_) =>
    case GetNotice =>
    case Dismiss(shown) => DismissEffect(life, core, shown, fate);
  }

  function CountAccepted(replies: seq<Reply>): nat {
    if replies == [] then 0
    else CountAccepted(replies[..|replies| - 1]) + (if replies[|replies| - 1] == Accepted then 1 else 0)
  }

  /** Exactly the accepted applies move the generation, each by one. */
  lemma PerformGeneration(life: Life, core: Core, request: Request, fate: Fate)
    ensures
      var (after, reply) := Perform(life, core, request, fate);
      after.generation == core.generation + if reply == Accepted then 1 else 0
  {
    hide Components;
  }

  lemma CountSnoc(replies: seq<Reply>, reply: Reply)
    ensures CountAccepted(replies + [reply]) == CountAccepted(replies) + if reply == Accepted then 1 else 0
  {
    assert (replies + [reply])[..|replies|] == replies;
  }

  lemma StepCountsAccepted(m: Machine, e: Event)
    requires m.core.generation == CountAccepted(m.replies)
    ensures Step(m, e).core.generation == CountAccepted(Step(m, e).replies)
  {
    hide Perform, CountAccepted;
    if e.Die? {
      NothingCounted();
    } else if Enabled(m, e) && e.Next? {
      PerformGeneration(m.life, m.core, m.pending[0], e.fate);
      CountSnoc(m.replies, Perform(m.life, m.core, m.pending[0], e.fate).1);
    }
  }

  lemma NothingCounted()
    ensures CountAccepted([]) == 0
  {
  }

  /** The generation counts exactly the applies accepted in this worker's life. */
  lemma {:induction false} GenerationCountsAccepted(m: Machine, events: seq<Event>)
    requires m.core.generation == CountAccepted(m.replies)
    ensures After(m, events).core.generation == CountAccepted(After(m, events).replies)
  {
    hide Step, CountAccepted;
    if events != [] {
      GenerationCountsAccepted(m, events[..|events| - 1]);
      StepCountsAccepted(After(m, events[..|events| - 1]), events[|events| - 1]);
    }
  }

  /** The operations that remove the record they find: a clear of this generation, or a read that finds it stale. */
  predicate Removes(life: Life, core: Core, request: Request) {
    match request
    case Apply(_) => false
    case Clear(expected) => expected == core.generation
    case GetNotice => !Current(life, ReadStatus(core.cell))
    case Dismiss(shown) => IsVersion(shown) && !Current(life, ReadStatus(core.cell))
  }

  /** A record goes exactly through such an operation whose read and whose removal work. */
  lemma RecordGoesExactly(life: Life, core: Core, request: Request, fate: Fate)
    requires ReadStatus(core.cell).Some?
    ensures ReadStatus(Perform(life, core, request, fate).0.cell).None?
        <==> fate == Fate(true, true) && Removes(life, core, request)
  {
    hide Components;
    RemovedReadsNothing(life);
    match request
    case Apply(version) => ApplyEffect(life, core, version, fate);
    case Clear(_) =>
    case GetNotice =>
    case Dismiss(shown) => DismissEffect(life, core, shown, fate);
  }

  /** Where there is no record, exactly a working apply of a version newer than the installed one makes one appear. */
  lemma RecordComesExactly(life: Life, core: Core, request: Request, fate: Fate)
    requires ReadStatus(core.cell).None?
    ensures ReadStatus(Perform(life, core, request, fate).0.cell).Some?
        <==> fate == Fate(true, true) && request.Apply? && Eligible(life, request.version)
  {
    hide Components;
    RemovedReadsNothing(life);
    if request.Apply? && Eligible(life, request.version) {
      MergedReadsBack(life, core.cell, request.version);
    }
  }

  /**
   * An apply that replies true need not have stored anything, because a lost write is silent: the record is
   * there afterwards exactly when the write landed or the same record was there before.
   */
  lemma AcceptedIsStoredExactly(life: Life, core: Core, version: JsValue, fate: Fate)
    requires PerformApply(life, core, version, fate).1 == Accepted
    ensures
      var merged := Merged(ReadStatus(core.cell), NormalizeVersion(version).value);
      ReadStatus(PerformApply(life, core, version, fate).0.cell) == Some(merged)
      <==> fate.writeOk || ReadStatus(core.cell) == Some(merged)
  {
    hide Components;
    MergedReadsBack(life, core.cell, version);
  }

  /* ---------- Dismissal ---------- */

  predicate DismissedAt(cell: JsValue, version: string) {
    ReadStatus(cell) == Some(Status(version, Some(version)))
  }

  /**
   * The operations that end a dismissal of `version`: a landed apply of another spelling that is not older, or
   * a landed removal.
   */
  predicate EndsDismissal(life: Life, core: Core, request: Request, fate: Fate, version: string) {
    && fate.readOk
    && fate.writeOk
    && match request
       case Apply(offered) =>
         Eligible(life, offered) && NormalizeVersion(offered) != Some(version)
         && !NewerThan(version, NormalizeVersion(offered).value)
       case Clear(expected) => expected == core.generation
       case GetNotice => Installed(life).None? || !NewerThan(version, Installed(life).value)
       case Dismiss(shown) =>
         IsVersion(shown) && (Installed(life).None? || !NewerThan(version, Installed(life).value))
  }

  /** A dismissed version stays dismissed through an operation exactly when the operation is not one of those. */
  lemma DismissalKeptExactly(life: Life, core: Core, request: Request, fate: Fate, version: string)
    requires DismissedAt(core.cell, version)
    ensures DismissedAt(Perform(life, core, request, fate).0.cell, version)
        <==> !EndsDismissal(life, core, request, fate, version)
  {
    hide Components;
    ReadIsCanonical(core.cell);
    RemovedReadsNothing(life);
    match request
    case Apply(offered) =>
      if Eligible(life, offered) {
        MergedReadsBack(life, core.cell, offered);
      }
    case Clear(_) =>
    case GetNotice =>
    case Dismiss(shown) =>
      ReadBack(Status(version, Some(version)));
  }

  /** A dismissal always replies; it leaves `version` dismissed exactly in these cases. */
  lemma DismissTakesExactly(life: Life, core: Core, shown: string, fate: Fate, version: string)
    ensures DismissedAt(PerformDismiss(life, core, shown, fate).0.cell, version) <==>
      if DismissedAt(core.cell, version) then
        !EndsDismissal(life, core, Dismiss(shown), fate, version)
      else
        && Current(life, ReadStatus(core.cell)) && ReadStatus(core.cell).value.available == version
        && NormalizeVersion(Str(shown)) == Some(version)
        && fate.readOk && fate.writeOk
  {
    hide Components;
    RemovedReadsNothing(life);
    ReadIsCanonical(core.cell);
    if DismissedAt(core.cell, version) {
      DismissalKeptExactly(life, core, Dismiss(shown), fate, version);
    } else if ReadStatus(core.cell).Some? {
      var available := ReadStatus(core.cell).value.available;
      ReadBack(Status(available, Some(available)));
    }
  }

  /** Any notice or dismissal, and an apply of `version` itself, of something older, or of no version at all. */
  predicate Harmless(version: string, request: Request) {
    match request
    case Apply(offered) =>
      NormalizeVersion(offered).Some? ==>
        NormalizeVersion(offered).value == version || NewerThan(version, NormalizeVersion(offered).value)
    case Clear(_) => false
    case GetNotice => true
    case Dismiss(_) => true
  }

  /** The installed version is older. */
  predicate Behind(version: string, life: Life) {
    Installed(life).Some? && NewerThan(version, Installed(life).value)
  }

  predicate HarmlessAnswer(version: string, answer: Answer) {
    match answer
    case UpdateAvailable(offered) => Harmless(version, Apply(offered))
    case NoUpdate => false
    case Silent => true
  }

  predicate HarmlessEvent(version: string, e: Event) {
    match e
    case Arrive(request) => Harmless(version, request)
    case Settle(answer) => HarmlessAnswer(version, answer)
    case Die(_, life) => Behind(version, life)
    case _ => true
  }

  predicate Safe(m: Machine, version: string) {
    && DismissedAt(m.core.cell, version)
    && Behind(version, m.life)
    && forall i :: 0 <= i < |m.pending| ==> Harmless(version, m.pending[i])
  }

  lemma HarmlessKeeps(life: Life, core: Core, request: Request, fate: Fate, version: string)
    requires DismissedAt(core.cell, version) && Behind(version, life) && Harmless(version, request)
    ensures DismissedAt(Perform(life, core, request, fate).0.cell, version)
  {
    hide Components, Perform;
    DismissalKeptExactly(life, core, request, fate, version);
  }

  lemma HarmlessStep(m: Machine, e: Event, version: string)
    requires Safe(m, version) && HarmlessEvent(version, e)
    ensures Safe(Step(m, e), version)
  {
    hide Components, Perform, Harmless, Behind, DismissedAt, NormalizeVersion;
    StepCell(m, e);
    if Effect(m, e).Some? {
      HarmlessKeeps(m.life, m.core, Effect(m, e).value.0, Effect(m, e).value.1, version);
    }
  }

  /** A dismissal survives every run in which only harmless operations arrive and the installed version stays behind. */
  lemma {:induction false} HarmlessRun(m: Machine, events: seq<Event>, version: string)
    requires Safe(m, version) && forall i :: 0 <= i < |events| ==> HarmlessEvent(version, events[i])
    ensures Safe(After(m, events), version)
  {
    hide Step, Safe, HarmlessEvent;
    if events != [] {
      HarmlessRun(m, events[..|events| - 1], version);
      HarmlessStep(After(m, events[..|events| - 1]), events[|events| - 1], version);
    }
  }

  /**
   * A dismissal and an apply of something newer commute: both orders end with the newer version stored
   * and not dismissed, whether or not the dismissal's own write lands and even if it finds a stale record.
   */
  lemma DismissAndApplyCommute(life: Life, core: Core, shown: string, offered: JsValue, fate: Fate)
    requires ReadStatus(core.cell).Some? && Eligible(life, offered)
    requires NewerThan(NormalizeVersion(offered).value, ReadStatus(core.cell).value.available)
    requires ReadStatus(core.cell).value.dismissed != NormalizeVersion(offered)
    requires NormalizeVersion(Str(shown)) != NormalizeVersion(offered)
    ensures
      var good := Fate(true, true);
      var dismissedFirst := PerformApply(life, PerformDismiss(life, core, shown, fate).0, offered, good).0;
      var appliedFirst := PerformDismiss(life, PerformApply(life, core, offered, good).0, shown, fate).0;
      && dismissedFirst == appliedFirst
      && ReadStatus(dismissedFirst.cell) == Some(Status(NormalizeVersion(offered).value, None))
  {
    hide Components;
    var newer := NormalizeVersion(offered).value;
    NewerWins(life, core, offered);
    DismissEffect(life, core, shown, fate);
    NewerWins(life, PerformDismiss(life, core, shown, fate).0, offered);
    DismissGeneration(life, core, shown, fate);
  }

  /**
   * Over a record that is older and not dismissed at the offered version, or over none, the apply lands
   * undismissed.
   */
  lemma NewerWins(life: Life, core: Core, offered: JsValue)
    requires Eligible(life, offered)
    requires
      var before := ReadStatus(core.cell);
      before.Some? ==> NewerThan(NormalizeVersion(offered).value, before.value.available)
                       && before.value.dismissed != NormalizeVersion(offered)
    ensures
      var newest := Status(NormalizeVersion(offered).value, None);
      && PerformApply(life, core, offered, Fate(true, true))
         == (Core(StoredForm(newest), core.generation + 1), Accepted)
      && ReadStatus(StoredForm(newest)) == Some(newest)
  {
    hide Components;
    NormalizeIsCanonical(offered);
    ReadBack(Status(NormalizeVersion(offered).value, None));
  }

  lemma DismissGeneration(life: Life, core: Core, shown: string, fate: Fate)
    ensures PerformDismiss(life, core, shown, fate).0.generation == core.generation
  {
    hide Components;
  }

  /* ---------- Notices ---------- */

  predicate TrueNotices(life: Life, replies: seq<Reply>) {
    forall i :: 0 <= i < |replies| && replies[i].NoticeIs? && replies[i].notice.Some? ==>
      Installed(life).Some? && NewerThan(replies[i].notice.value.version, Installed(life).value)
  }

  /** Whatever was stored at first, every notice ever given in a run names a version newer than the installed one. */
  lemma {:induction false} NoticesAreNewer(m: Machine, events: seq<Event>)
    requires TrueNotices(m.life, m.replies)
    ensures TrueNotices(After(m, events).life, After(m, events).replies)
  {
    hide Components;
    if events != [] {
      NoticesAreNewer(m, events[..|events| - 1]);
    }
  }

  /**
   * A notice is given exactly for a stored version newer than the installed one, and says truly whether that is
   * dismissed.
   */
  lemma NoticeIsTrue(life: Life, core: Core, fate: Fate)
    ensures
      var notice := PerformNotice(life, core, fate).1;
      && (notice.Some? <==> fate.readOk && Current(life, ReadStatus(core.cell)))
      && (notice.Some? ==> notice.value.version == ReadStatus(core.cell).value.available)
      && (notice.Some? ==> (notice.value.dismissed <==> DismissedAt(core.cell, notice.value.version)))
  {
    hide Components;
    if ReadStatus(core.cell).Some? {
      var status := ReadStatus(core.cell).value;
      assert status == Status(status.available, status.dismissed);
    }
  }

  /* ---------- Order of applies ---------- */

  /** The first `n` operations, one after the other, with storage working. */
  function PerformFirst(life: Life, core: Core, requests: seq<Request>, n: nat): Core
    requires n <= |requests|
  {
    if n == 0 then core
    else Perform(life, PerformFirst(life, core, requests, n - 1), requests[n - 1], Fate(true, true)).0
  }

  lemma {:induction false} PerformFirstPrefix(life: Life, core: Core, requests: seq<Request>, longer: seq<Request>,
                                              n: nat)
    requires n <= |requests| && requests <= longer
    ensures PerformFirst(life, core, requests, n) == PerformFirst(life, core, longer, n)
  {
    hide Perform;
    if n > 0 {
      PerformFirstPrefix(life, core, requests, longer, n - 1);
    }
  }

  lemma {:induction false} GenerationGrows(life: Life, core: Core, requests: seq<Request>, n: nat, m: nat)
    requires n <= m <= |requests|
    ensures PerformFirst(life, core, requests, n).generation <= PerformFirst(life, core, requests, m).generation
  {
    hide Perform;
    if n < m {
      GenerationGrows(life, core, requests, n, m - 1);
      PerformGeneration(life, PerformFirst(life, core, requests, m - 1), requests[m - 1], Fate(true, true));
    }
  }

  /** Without a record and without an accepted apply there is none after the next operation. */
  lemma StaysClear(life: Life, core: Core, request: Request)
    requires ReadStatus(core.cell).None?
    requires Perform(life, core, request, Fate(true, true)).0.generation == core.generation
    ensures ReadStatus(Perform(life, core, request, Fate(true, true)).0.cell).None?
  {
    hide Components, ReadStatus, RankOf;
    RecordComesExactly(life, core, request, Fate(true, true));
    if request.Apply? {
      EligibleExactly(life, request.version);
      ApplyExactly(life, core, request.version, Fate(true, true));
    }
  }

  /** A clear that finds the generation it expects leaves no record, and there is none until an apply is accepted. */
  lemma {:induction false} ClearedStaysClear(life: Life, core: Core, requests: seq<Request>, c: nat, n: nat)
    requires c < n <= |requests|
    requires requests[c] == Clear(PerformFirst(life, core, requests, c).generation)
    requires PerformFirst(life, core, requests, n).generation == PerformFirst(life, core, requests, c).generation
    ensures ReadStatus(PerformFirst(life, core, requests, n).cell).None?
  {
    hide Components, ReadStatus, Perform;
    var before := PerformFirst(life, core, requests, n - 1);
    GenerationGrows(life, core, requests, c, n - 1);
    GenerationGrows(life, core, requests, n - 1, n);
    if n == c + 1 {
      ClearLeavesNone(life, before, requests[c]);
    } else {
      ClearedStaysClear(life, core, requests, c, n - 1);
      StaysClear(life, before, requests[n - 1]);
    }
  }

  lemma ClearLeavesNone(life: Life, core: Core, request: Request)
    requires request == Clear(core.generation)
    ensures ReadStatus(Perform(life, core, request, Fate(true, true)).0.cell).None?
  {
    hide Components, ReadStatus;
    ClearExactly(life, core, core.generation, Fate(true, true));
  }

  /** A record above the installed version stays, at no lower rank, through all but a clear of this generation. */
  lemma CurrentStays(life: Life, core: Core, request: Request)
    requires Current(life, ReadStatus(core.cell)) && request != Clear(core.generation)
    ensures
      var after := Perform(life, core, request, Fate(true, true)).0;
      && Current(life, ReadStatus(after.cell))
      && Rank(ReadStatus(core.cell).value.available) <= Rank(ReadStatus(after.cell).value.available)
  {
    hide Components, ReadStatus, Perform, Rank, RankOf, NewerThan;
    RecordGoesExactly(life, core, request, Fate(true, true));
    RankNeverDrops(life, core, request, Fate(true, true));
    CurrentExactly(life, core.cell);
    CurrentExactly(life, Perform(life, core, request, Fate(true, true)).0.cell);
  }

  /** After an apply of something newer than the installed version a record of at least that rank is there. */
  lemma OfferIsCurrent(life: Life, core: Core, version: JsValue)
    requires Eligible(life, version)
    ensures
      var after := PerformApply(life, core, version, Fate(true, true)).0;
      && Current(life, ReadStatus(after.cell))
      && RankOf(version) <= Rank(ReadStatus(after.cell).value.available)
  {
    hide Components, ReadStatus, PerformApply, Rank, RankOf, NewerThan;
    ApplyExactly(life, core, version, Fate(true, true));
    EligibleExactly(life, version);
    SpellingKeepsRank(version);
    CurrentExactly(life, core.cell);
    CurrentExactly(life, PerformApply(life, core, version, Fate(true, true)).0.cell);
  }

  /** Once the generation has passed what every clear expects, a record above the installed version is there. */
  lemma {:induction false} AcceptedStays(life: Life, core: Core, requests: seq<Request>, g: nat, n: nat)
    requires n <= |requests| && core.generation <= g
    requires forall i :: 0 <= i < n && requests[i].Clear? ==> requests[i].expected == g
    requires PerformFirst(life, core, requests, n).generation > g
    ensures Current(life, ReadStatus(PerformFirst(life, core, requests, n).cell))
  {
    hide Components, ReadStatus, Perform, Current, Eligible;
    var before, request := PerformFirst(life, core, requests, n - 1), requests[n - 1];
    if before.generation > g {
      AcceptedStays(life, core, requests, g, n - 1);
      CurrentStays(life, before, request);
    } else {
      MovesByApply(life, before, request);
      OfferIsCurrent(life, before, request.version);
    }
  }

  lemma MovesByApply(life: Life, core: Core, request: Request)
    requires Perform(life, core, request, Fate(true, true)).0.generation != core.generation
    ensures request.Apply? && Eligible(life, request.version)
    ensures Perform(life, core, request, Fate(true, true))
         == PerformApply(life, core, request.version, Fate(true, true))
  {
    hide Components, ReadStatus;
  }

  /** Without a clear behind it, what an apply offers, or something of higher rank, is there to the end. */
  lemma {:induction false} OfferStays(life: Life, core: Core, requests: seq<Request>, c: nat, n: nat)
    requires c < n <= |requests| && requests[c].Apply? && Eligible(life, requests[c].version)
    requires forall i :: c < i < n ==> !requests[i].Clear?
    ensures
      var record := ReadStatus(PerformFirst(life, core, requests, n).cell);
      Current(life, record) && RankOf(requests[c].version) <= Rank(record.value.available)
  {
    hide Components, ReadStatus, PerformApply, Eligible, Rank, RankOf, NewerThan;
    if n == c + 1 {
      OfferIsCurrent(life, PerformFirst(life, core, requests, c), requests[c].version);
    } else {
      OfferStays(life, core, requests, c, n - 1);
      CurrentStays(life, PerformFirst(life, core, requests, n - 1), requests[n - 1]);
    }
  }

  lemma {:induction false} PerformApplies(life: Life, core: Core, requests: seq<Request>, versions: seq<JsValue>,
                                          n: nat)
    requires n <= |requests| == |versions|
    requires forall i :: 0 <= i < |requests| ==> requests[i] == Apply(versions[i])
    ensures PerformFirst(life, core, requests, n) == ApplyFirst(life, core, versions, n)
  {
    hide PerformApply;
    if n > 0 {
      PerformApplies(life, core, requests, versions, n - 1);
    }
  }

  /** The first `n` applies, one after the other, with storage working. */
  function ApplyFirst(life: Life, core: Core, versions: seq<JsValue>, n: nat): Core
    requires n <= |versions|
  {
    if n == 0 then core
    else PerformApply(life, ApplyFirst(life, core, versions, n - 1), versions[n - 1], Fate(true, true)).0
  }

  /** Among the first `n`, position `k` holds the last of the highest-ranked versions newer than the installed one. */
  predicate LastHighest(life: Life, versions: seq<JsValue>, n: nat, k: nat)
    requires n <= |versions|
  {
    && k < n
    && Eligible(life, versions[k])
    && (forall j :: 0 <= j < k && Eligible(life, versions[j]) ==> RankOf(versions[j]) <= RankOf(versions[k]))
    && (forall j :: k < j < n && Eligible(life, versions[j]) ==> RankOf(versions[j]) < RankOf(versions[k]))
  }

  /** The right record after the first `n` applies: none if none was eligible, else the last highest, undismissed. */
  predicate RightRecord(life: Life, versions: seq<JsValue>, n: nat, record: Option<Status>)
    requires n <= |versions|
  {
    match record
    case None => forall j :: 0 <= j < n ==> !Eligible(life, versions[j])
    case Some(status) =>
      && status.dismissed.None?
      && exists k :: 0 <= k < n && LastHighest(life, versions, n, k)
                     && NormalizeVersion(versions[k]) == Some(status.available)
  }

  predicate Replaces(life: Life, before: Option<Status>, version: JsValue) {
    Eligible(life, version) && (before.Some? ==> Rank(before.value.available) <= RankOf(version))
  }

  /** What one working apply does to the record it finds. */
  lemma ApplyOne(life: Life, core: Core, version: JsValue)
    ensures
      var before := ReadStatus(core.cell);
      ReadStatus(PerformApply(life, core, version, Fate(true, true)).0.cell) ==
      if Replaces(life, before, version) then Some(Merged(before, NormalizeVersion(version).value)) else before
  {
    hide Components;
    ReadIsCanonical(core.cell);
    if Eligible(life, version) {
      SpellingKeepsRank(version);
      MergedReadsBack(life, core.cell, version);
    }
  }

  /**
   * The right outcome of the first `n` applies over a record `before`, or over none: the record stays if every
   * eligible version ranks below it, else the last highest eligible version is there.  An apply never makes a
   * dismissal, it can only keep the one it found.
   */
  predicate RightOutcome(life: Life, before: Option<Status>, versions: seq<JsValue>, n: nat, after: Option<Status>)
    requires n <= |versions|
  {
    || (after == before && AllBelow(life, before, versions, n))
    || (after.Some?
        && (after.value.dismissed.Some? ==> before.Some? && before.value.dismissed == after.value.dismissed)
        && exists k :: 0 <= k < n && LastHighest(life, versions, n, k)
                       && NormalizeVersion(versions[k]) == Some(after.value.available)
                       && (before.Some? ==> Rank(before.value.available) <= RankOf(versions[k])))
  }

  predicate AllBelow(life: Life, before: Option<Status>, versions: seq<JsValue>, n: nat)
    requires n <= |versions|
  {
    forall j :: 0 <= j < n && Eligible(life, versions[j]) ==>
      before.Some? && RankOf(versions[j]) < Rank(before.value.available)
  }

  lemma RightOutcomeGrows(life: Life, before: Option<Status>, versions: seq<JsValue>, n: nat, after: Option<Status>)
    requires n < |versions| && RightOutcome(life, before, versions, n, after)
    ensures RightOutcome(life, before, versions, n + 1,
              if Replaces(life, after, versions[n]) then Some(Merged(after, NormalizeVersion(versions[n]).value))
              else after)
  {
    hide Components, NormalizeVersion, RankOf, Rank, Installed;
    if Replaces(life, after, versions[n]) {
      if !(after == before && AllBelow(life, before, versions, n)) {
        var k := TopOf(life, before, versions, n, after);
      }
      assert LastHighest(life, versions, n + 1, n);
    } else if !(after == before && AllBelow(life, before, versions, n)) {
      var k := TopOf(life, before, versions, n, after);
      assert LastHighest(life, versions, n + 1, k);
    }
  }

  lemma TopOf(life: Life, before: Option<Status>, versions: seq<JsValue>, n: nat, after: Option<Status>)
    returns (k: nat)
    requires n <= |versions| && RightOutcome(life, before, versions, n, after)
    requires !(after == before && AllBelow(life, before, versions, n))
    ensures after.Some? && k < n && LastHighest(life, versions, n, k)
    ensures NormalizeVersion(versions[k]) == Some(after.value.available)
    ensures Rank(after.value.available) == RankOf(versions[k])
    ensures before.Some? ==> Rank(before.value.available) <= RankOf(versions[k])
  {
    hide Components, RankOf, Rank;
    k :| 0 <= k < n && LastHighest(life, versions, n, k)
      && NormalizeVersion(versions[k]) == Some(after.value.available)
      && (before.Some? ==> Rank(before.value.available) <= RankOf(versions[k]));
    SpellingKeepsRank(versions[k]);
  }

  lemma NothingApplied(life: Life, before: Option<Status>, versions: seq<JsValue>)
    ensures RightOutcome(life, before, versions, 0, before)
  {
  }

  /** Whatever is stored at first, working applies end with the right outcome. */
  lemma {:induction false} AppliesEndRight(life: Life, core: Core, versions: seq<JsValue>, n: nat)
    requires n <= |versions|
    ensures RightOutcome(life, ReadStatus(core.cell), versions, n, ReadStatus(ApplyFirst(life, core, versions, n).cell))
  {
    hide Components, PerformApply, ReadStatus, NormalizeVersion, RightOutcome, Replaces;
    if n == 0 {
      NothingApplied(life, ReadStatus(core.cell), versions);
    } else {
      AppliesEndRight(life, core, versions, n - 1);
      var now := ApplyFirst(life, core, versions, n - 1);
      ApplyOne(life, now, versions[n - 1]);
      RightOutcomeGrows(life, ReadStatus(core.cell), versions, n - 1, ReadStatus(now.cell));
    }
  }

  /** In particular, where there was no record, it is the right one. */
  lemma AppliesFillRight(life: Life, core: Core, versions: seq<JsValue>, n: nat)
    requires n <= |versions| && ReadStatus(core.cell).None?
    ensures RightRecord(life, versions, n, ReadStatus(ApplyFirst(life, core, versions, n).cell))
  {
    hide Components, ReadStatus, NormalizeVersion, RankOf, ApplyFirst;
    AppliesEndRight(life, core, versions, n);
  }

  /** No eligible version and no former record ranks above the record, and one of them is it. */
  predicate Highest(life: Life, before: Option<Status>, versions: seq<JsValue>, after: Option<Status>) {
    match after
    case None => before.None? && forall j :: 0 <= j < |versions| ==> !Eligible(life, versions[j])
    case Some(status) =>
      && (before.Some? ==> Rank(before.value.available) <= Rank(status.available))
      && (forall j :: 0 <= j < |versions| && Eligible(life, versions[j]) ==>
            RankOf(versions[j]) <= Rank(status.available))
      && (after == before
          || exists j :: 0 <= j < |versions| && Eligible(life, versions[j])
                         && NormalizeVersion(versions[j]) == Some(status.available)
                         && RankOf(versions[j]) == Rank(status.available))
  }

  /** Whatever is stored at first, the final rank is the maximum of the stored one and of those on offer. */
  lemma FinalRankIsMaximum(life: Life, core: Core, versions: seq<JsValue>)
    ensures Highest(life, ReadStatus(core.cell), versions, Final(life, core, versions))
  {
    hide Components, ReadStatus, NormalizeVersion, RankOf, Rank, ApplyFirst, Eligible;
    AppliesEndRight(life, core, versions, |versions|);
    var before, after := ReadStatus(core.cell), Final(life, core, versions);
    if !(after == before && AllBelow(life, before, versions, |versions|)) {
      var k := TopOf(life, before, versions, |versions|, after);
    }
  }

  /** Whatever is stored at first, any two orders of the same applies end with the same rank, or both with no record. */
  lemma OrderIndependent(life: Life, core: Core, versions: seq<JsValue>, shuffled: seq<JsValue>)
    requires multiset(versions) == multiset(shuffled)
    ensures
      var a, b := Final(life, core, versions), Final(life, core, shuffled);
      && (a.Some? <==> b.Some?)
      && (a.Some? ==> Rank(a.value.available) == Rank(b.value.available))
  {
    hide Components, ReadStatus, Rank, Final, Highest;
    FinalRankIsMaximum(life, core, versions);
    FinalRankIsMaximum(life, core, shuffled);
    var a, b := Final(life, core, versions), Final(life, core, shuffled);
    HighestAgree(life, ReadStatus(core.cell), versions, shuffled, a, b);
    HighestAgree(life, ReadStatus(core.cell), shuffled, versions, b, a);
  }

  lemma HighestAgree(life: Life, before: Option<Status>, versions: seq<JsValue>, shuffled: seq<JsValue>,
                     a: Option<Status>, b: Option<Status>)
    requires multiset(versions) == multiset(shuffled)
    requires Highest(life, before, versions, a) && Highest(life, before, shuffled, b)
    ensures a.Some? ==> b.Some? && Rank(a.value.available) <= Rank(b.value.available)
  {
    hide Components, NormalizeVersion, Eligible, RankOf, Rank;
    if a.Some? && a != before {
      var j :| 0 <= j < |versions| && Eligible(life, versions[j])
        && NormalizeVersion(versions[j]) == Some(a.value.available) && RankOf(versions[j]) == Rank(a.value.available);
      assert versions[j] in multiset(shuffled);
      var i :| 0 <= i < |shuffled| && shuffled[i] == versions[j];
    }
  }

  /** The record that the applies end with, storage working. */
  function Final(life: Life, core: Core, versions: seq<JsValue>): Option<Status> {
    ReadStatus(ApplyFirst(life, core, versions, |versions|).cell)
  }

  /** Position `i` holds an eligible version of the highest rank. */
  predicate Top(life: Life, versions: seq<JsValue>, i: nat)
    requires i < |versions|
  {
    && Eligible(life, versions[i])
    && forall j :: 0 <= j < |versions| && Eligible(life, versions[j]) ==> RankOf(versions[j]) <= RankOf(versions[i])
  }

  /** All eligible versions of the highest rank are spelled alike once normalized. */
  predicate OneTopSpelling(life: Life, versions: seq<JsValue>) {
    forall i, j :: 0 <= i < |versions| && 0 <= j < |versions| && Top(life, versions, i) && Top(life, versions, j) ==>
      NormalizeVersion(versions[i]) == NormalizeVersion(versions[j])
  }

  /** The same versions with the one at `i` moved to the end. */
  function MovedLast(versions: seq<JsValue>, i: nat): (moved: seq<JsValue>)
    requires i < |versions|
    ensures multiset(moved) == multiset(versions) && |moved| == |versions|
  {
    assert versions == versions[..i] + [versions[i]] + versions[i + 1..];
    versions[..i] + versions[i + 1..] + [versions[i]]
  }

  /** A version of the highest rank that comes last wins. */
  lemma LastTopWins(life: Life, core: Core, versions: seq<JsValue>, i: nat)
    requires ReadStatus(core.cell).None? && i < |versions| && Top(life, versions, i)
    ensures Final(life, core, MovedLast(versions, i)) == Some(Status(NormalizeVersion(versions[i]).value, None))
  {
    hide Components, NormalizeVersion, RankOf, ApplyFirst;
    var moved, last := MovedLast(versions, i), |versions| - 1;
    AppliesFillRight(life, core, moved, |moved|);
    assert moved[last] == versions[i];
    var k :| 0 <= k < |moved| && LastHighest(life, moved, |moved|, k)
      && NormalizeVersion(moved[k]) == Some(Final(life, core, moved).value.available);
    assert moved[k] in multiset(versions);
    var j :| 0 <= j < |versions| && versions[j] == moved[k];
    assert RankOf(versions[j]) <= RankOf(versions[i]);
    assert k == last;
  }

  /** No record if nothing was eligible, else that of some version of the highest rank, undismissed. */
  predicate TopRecord(life: Life, versions: seq<JsValue>, record: Option<Status>) {
    match record
    case None => forall j :: 0 <= j < |versions| ==> !Eligible(life, versions[j])
    case Some(status) =>
      && status.dismissed.None?
      && exists i :: 0 <= i < |versions| && Top(life, versions, i)
                     && NormalizeVersion(versions[i]) == Some(status.available)
  }

  /** In whatever order the applies come, they end with such a record. */
  lemma FinalIsTop(life: Life, core: Core, versions: seq<JsValue>, shuffled: seq<JsValue>)
    requires ReadStatus(core.cell).None? && multiset(shuffled) == multiset(versions)
    ensures TopRecord(life, versions, Final(life, core, shuffled))
  {
    hide Components, NormalizeVersion, RankOf, ApplyFirst, Eligible;
    AppliesFillRight(life, core, shuffled, |shuffled|);
    var record := Final(life, core, shuffled);
    forall j | 0 <= j < |versions| ensures exists m :: 0 <= m < |shuffled| && shuffled[m] == versions[j] {
      assert versions[j] in multiset(shuffled);
    }
    if record.Some? {
      var k :| 0 <= k < |shuffled| && LastHighest(life, shuffled, |shuffled|, k)
        && NormalizeVersion(shuffled[k]) == Some(record.value.available);
      assert shuffled[k] in multiset(versions);
      var i :| 0 <= i < |versions| && versions[i] == shuffled[k];
      assert Top(life, versions, i);
    }
  }

  /**
   * The spelling can depend on the order of the applies.  From no record, every order of the same applies ends
   * with the same record exactly when those of the highest rank, among the eligible ones, are spelled alike.
   */
  lemma SpellingDependsOnTies(life: Life, core: Core, versions: seq<JsValue>)
    requires ReadStatus(core.cell).None?
    ensures (forall shuffled :: multiset(shuffled) == multiset(versions) ==>
               Final(life, core, shuffled) == Final(life, core, versions))
       <==> OneTopSpelling(life, versions)
  {
    hide Components, NormalizeVersion, RankOf, Final, Top, Eligible, MovedLast;
    if forall shuffled :: multiset(shuffled) == multiset(versions) ==>
         Final(life, core, shuffled) == Final(life, core, versions) {
      forall i, j | 0 <= i < |versions| && 0 <= j < |versions| && Top(life, versions, i) && Top(life, versions, j)
        ensures NormalizeVersion(versions[i]) == NormalizeVersion(versions[j])
      {
        TopIsVersion(life, versions, i);
        TopIsVersion(life, versions, j);
        LastTopWins(life, core, versions, i);
        LastTopWins(life, core, versions, j);
        assert Final(life, core, MovedLast(versions, i)) == Final(life, core, MovedLast(versions, j));
      }
    }
    if OneTopSpelling(life, versions) {
      forall shuffled | multiset(shuffled) == multiset(versions)
        ensures Final(life, core, shuffled) == Final(life, core, versions)
      {
        TopSpellingWins(life, core, versions, shuffled);
      }
    }
  }

  lemma TopIsVersion(life: Life, versions: seq<JsValue>, i: nat)
    requires i < |versions| && Top(life, versions, i)
    ensures NormalizeVersion(versions[i]).Some?
  {
  }

  lemma TopSpellingWins(life: Life, core: Core, versions: seq<JsValue>, shuffled: seq<JsValue>)
    requires ReadStatus(core.cell).None? && multiset(shuffled) == multiset(versions) && OneTopSpelling(life, versions)
    ensures Final(life, core, shuffled) == Final(life, core, versions)
  {
    hide Components, NormalizeVersion, RankOf, Final;
    FinalIsTop(life, core, versions, versions);
    FinalIsTop(life, core, versions, shuffled);
  }

  lemma ApplyTwo(life: Life, core: Core, v: JsValue, w: JsValue)
    requires ReadStatus(core.cell).None? && Eligible(life, v) && Eligible(life, w)
    ensures ReadStatus(ApplyFirst(life, core, [v, w], 2).cell)
         == Some(Status(NormalizeVersion(if RankOf(v) <= RankOf(w) then w else v).value, None))
  {
    hide Components;
    var versions := [v, w];
    var first := ApplyFirst(life, core, versions, 1);
    assert ApplyFirst(life, core, versions, 0) == core;
    assert first == PerformApply(life, core, v, Fate(true, true)).0;
    ApplyOne(life, core, v);
    ApplyOne(life, first, w);
    SpellingKeepsRank(v);
  }

  /* ---------- Inputs that show what the store does not promise ---------- */

  lemma SpellingsOfTwo()
    ensures Components(Str("1")) == Some([1]) && NormalizeVersion(Str("1")) == Some("1")
    ensures Components(Str("2")) == Some([2]) && NormalizeVersion(Str("2")) == Some("2")
    ensures Components(Str("2.0")) == Some([2, 0]) && NormalizeVersion(Str("2.0")) == Some("2.0")
    ensures Rank("1") < Rank("2") == RankOf(Str("2")) == RankOf(Str("2.0"))
  {
    hide Components, Render, NormalizeVersion, Rank, RankOf;
    SmallRenders();
    Spelled([1], "1");
    Spelled([2], "2");
    Spelled([2, 0], "2.0");
  }

  lemma Spelled(numbers: seq<nat>, s: string)
    requires ValidComponents(numbers) && Render(numbers) == s
    ensures Components(Str(s)) == Some(numbers) && NormalizeVersion(Str(s)) == Some(s)
    ensures Rank(s) == Number(numbers) == RankOf(Str(s))
  {
    hide Components, Render;
    RenderParses(numbers);
  }

  lemma SmallRenders()
    ensures Render([1]) == "1" && Render([2]) == "2" && Render([2, 0]) == "2.0"
  {
    assert PrintNat(0) == "0" && PrintNat(1) == "1" && PrintNat(2) == "2";
    hide PrintNat;
    assert PrintAll([1]) == ["1"] && PrintAll([2]) == ["2"] && PrintAll([2, 0]) == ["2", "0"];
    assert PrintAll([2, 0])[1..] == ["0"];
  }

  /**
   * With "1" installed and nothing stored, applying "2" replies true although its write is lost and nothing is
   * stored.
   */
  lemma AcceptedButLost()
    ensures PerformApply(Life(Str("1"), true), Core(Undefined, 0), Str("2"), Fate(true, false))
         == (Core(Undefined, 1), Accepted)
    ensures ReadStatus(Undefined).None?
  {
    SpellingsOfTwo();
    hide Components;
    RemovedReadsNothing(Life(Str("1"), true));
  }

  /** With "1" installed, applying "2" and "2.0" ends with whichever came last. */
  lemma LastSpellingWins()
    ensures
      var life, core := Life(Str("1"), true), Core(Undefined, 0);
      && ReadStatus(ApplyFirst(life, core, [Str("2"), Str("2.0")], 2).cell) == Some(Status("2.0", None))
      && ReadStatus(ApplyFirst(life, core, [Str("2.0"), Str("2")], 2).cell) == Some(Status("2", None))
  {
    SpellingsOfTwo();
    hide Components;
    var life, core := Life(Str("1"), true), Core(Undefined, 0);
    RemovedReadsNothing(life);
    ApplyTwo(life, core, Str("2"), Str("2.0"));
    ApplyTwo(life, core, Str("2.0"), Str("2"));
  }

  /** Dismissing "2" with nothing stored replies, and dismisses nothing. */
  lemma DismissedNothing()
    ensures PerformDismiss(Life(Str("1"), true), Core(Undefined, 0), "2", Fate(true, true))
         == (Core(Undefined, 0), Done)
    ensures !DismissedAt(Undefined, "2")
  {
    SpellingsOfTwo();
    hide Components;
    RemovedReadsNothing(Life(Str("1"), true));
  }
}
