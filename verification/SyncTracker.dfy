/**
 The one-time full sync (apps/daemon/wa/sync.go): stages, progress, a quiet-period timer that
 chunks restart and a hard deadline. finish() releases the mutex to reconcile chats and to
 store the completion flag, and Reset() clears that flag after releasing it, so they are three
 and two steps here. Times are milliseconds.
 */
module SyncTracker {
  import opened Wrappers

  const SYNC_SETTLE_DELAY: nat := 12_000
  const SYNC_HARD_DEADLINE: nat := 180_000
  const EXPECTED_CHUNKS: nat := 8

  datatype Stage = Idle | Connecting | Contacts | History | Finalizing | Done

  /** What clients are told. The detail text is derived from the same fields and left out. */
  datatype SyncState = SyncState(stage: Stage, progress: real, indeterminate: bool, chats: int, messages: int,
      contacts: int)

  /** The tracker's fields; an armed timer is the time it is due. */
  datatype Tracker = Tracker(
    active: bool,
    stage: Stage,
    chunks: nat,
    chats: int,
    messages: int,
    contacts: int,
    settle: Option<nat>,
    deadline: Option<nat>,
    completed: bool)

  predicate InProgress(stage: Stage) {
    stage.Connecting? || stage.Contacts? || stage.History? || stage.Finalizing?
  }

  function ProgressOf(stage: Stage, chunks: nat): (r: real) {
    match stage
    case Contacts => 0.10
    case History =>
      var ratio := chunks as real / EXPECTED_CHUNKS as real;
      0.10 + 0.75 * (if ratio > 1.0 then 1.0 else ratio)
    case Finalizing => 0.95
    case Done => 1.0
    case _ => 0.0
  }

  function StateOf(t: Tracker): (r: SyncState) {
    SyncState(t.stage, ProgressOf(t.stage, t.chunks), t.stage.Connecting?, t.chats, t.messages, t.contacts)
  }

  /** A new tracker; Load restores whether an earlier run completed the sync. */
  function Loaded(flag: bool): (r: Tracker) {
    Tracker(false, if flag then Done else Idle, 0, 0, 0, 0, None, None, flag)
  }

  // ---------------------------------------------------------------- steps

  /** Each step gives the new fields and what it publishes while it holds the mutex. */
  datatype Reaction = Reaction(t: Tracker, published: seq<SyncState>)

  function Announce(t: Tracker): (r: Reaction) {
    Reaction(t, [StateOf(t)])
  }

  /** Publishes, then restarts the quiet period, which the published state does not show. */
  function Arm(t: Tracker, now: nat): (r: Reaction) {
    Reaction(t.(settle := Some(now + SYNC_SETTLE_DELAY)), [StateOf(t)])
  }

  function Begin(t: Tracker, now: nat): (r: Reaction) {
    if t.completed || t.active then Reaction(t, [])
    else Announce(t.(active := true, stage := Connecting, deadline := Some(now + SYNC_HARD_DEADLINE)))
  }

  function Connected(t: Tracker, now: nat): (r: Reaction) {
    if !t.active || t.stage != Connecting then Reaction(t, [])
    else Arm(t.(stage := Contacts), now)
  }

  function ContactsSynced(t: Tracker, n: int, now: nat): (r: Reaction) {
    if !t.active then Reaction(t, [])
    else if t.stage == Connecting || t.stage == Contacts then Arm(t.(contacts := n, stage := Contacts), now)
    else Reaction(t.(contacts := n, settle := Some(now + SYNC_SETTLE_DELAY)), [])
  }

  function Chunk(t: Tracker, chats: nat, messages: nat, now: nat): (r: Reaction) {
    if !t.active then Reaction(t, [])
    else
      var counted := t.(chunks := t.chunks + 1, chats := t.chats + chats, messages := t.messages + messages);
      Arm(counted.(stage := History), now)
  }

  /** finish(), up to where it releases the mutex; it goes on only if the sync was active. */
  function FinishStarts(t: Tracker): (r: Reaction) {
    if !t.active then Reaction(t, [])
    else Announce(t.(active := false, stage := Finalizing, settle := None, deadline := None))
  }

  /** finish(), from where it takes the mutex again. */
  function FinishEnds(t: Tracker): (r: Reaction) {
    Announce(t.(completed := true, stage := Done))
  }

  function Reset(t: Tracker): (r: Reaction) {
    Announce(Tracker(false, Idle, 0, 0, 0, 0, None, None, false))
  }

  // ---------------------------------------------------------------- runs

  datatype Step =
    | DoBegin
    | DoConnected
    | DoContacts(n: int)
    | DoChunk(chats: nat, messages: nat)
    | SettleFires
    | DeadlineFires
    | DoPersist
    | DoFinishEnds
    | DoReset
    | DoClear
    | Tick(ms: nat)

  /**
   A run: the tracker, the clock, the calls under way, the stored flag, and a record of what
   happened since the last Begin or Reset that took effect. Of the calls, `reconciling` counts
   those of finish() that have not stored the flag yet, `storing` those that have and must
   still take the mutex again, and `clearing` those of Reset() that have not cleared it yet.
   */
  datatype Run = Run(
    t: Tracker,
    now: nat,
    reconciling: nat,
    storing: nat,
    clearing: nat,
    stored: bool,
    began: nat,
    lastActivity: nat,
    accepted: seq<(int, int)>,
    published: seq<SyncState>)

  function Start(flag: bool): (r: Run) {
    Run(Loaded(flag), 0, 0, 0, 0, flag, 0, 0, [], [])
  }

  /** The calls of finish() between its two halves. */
  function InFlight(r: Run): (result: nat) {
    r.reconciling + r.storing
  }

  predicate NotPast(due: Option<nat>, time: nat) {
    due.None? || time <= due.value
  }

  /** Timers fire when they are due and time does not run past one; calls go on once they began. */
  predicate Enabled(r: Run, step: Step) {
    match step
    case SettleFires => r.t.settle == Some(r.now)
    case DeadlineFires => r.t.deadline == Some(r.now)
    case DoPersist => r.reconciling > 0
    case DoFinishEnds => r.storing > 0
    case DoClear => r.clearing > 0
    case Tick(ms) => NotPast(r.t.settle, r.now + ms) && NotPast(r.t.deadline, r.now + ms)
    case _ => true
  }

  /** Begin or Reset while a finish() or Reset() is still under way. */
  predicate InWindow(r: Run, step: Step) {
    (step.DoBegin? || step.DoReset?) && InFlight(r) + r.clearing > 0
  }

  function React(r: Run, step: Step): (result: Reaction) {
    match step
    case DoBegin => Begin(r.t, r.now)
    case DoConnected => Connected(r.t, r.now)
    case DoContacts(n) => ContactsSynced(r.t, n, r.now)
    case DoChunk(chats, messages) => Chunk(r.t, chats, messages, r.now)
    case SettleFires => FinishStarts(r.t)
    case DeadlineFires => FinishStarts(r.t)
    case DoFinishEnds => FinishEnds(r.t)
    case DoReset => Reset(r.t)
    case _ => Reaction(r.t, [])
  }

  /** Does the step count as activity of a running sync? */
  predicate IsActivity(r: Run, step: Step) {
    r.t.active && (step.DoChunk? || step.DoContacts? || (step.DoConnected? && r.t.stage == Connecting))
  }

  /** Does the step start a new record: a Reset, or a Begin that takes effect? */
  predicate Restarts(r: Run, step: Step) {
    step.DoReset? || (step.DoBegin? && !r.t.completed && !r.t.active)
  }

  /** Does the step send a finish() on its way? */
  predicate Finishes(r: Run, step: Step) {
    (step.SettleFires? || step.DeadlineFires?) && r.t.active
  }

  /** A call joins those counted by n, or leaves them. */
  function Moved(n: nat, joins: bool, leaves: bool): (r: nat) {
    if joins then n + 1 else if leaves && n > 0 then n - 1 else n
  }

  function Next(r: Run, step: Step): (result: Run) {
    var reaction := React(r, step);
    var restarts := Restarts(r, step);
    Run(
      reaction.t,
      if step.Tick? then r.now + step.ms else r.now,
      Moved(r.reconciling, Finishes(r, step), step.DoPersist?),
      Moved(r.storing, step.DoPersist?, step.DoFinishEnds?),
      Moved(r.clearing, step.DoReset?, step.DoClear?),
      if step.DoPersist? then true else if step.DoClear? then false else r.stored,
      if restarts then r.now else r.began,
      if IsActivity(r, step) then r.now else r.lastActivity,
      if step.DoReset? then []
      else if step.DoChunk? && r.t.active then r.accepted + [(step.chats, step.messages)]
      else r.accepted,
      (if restarts then [] else r.published) + reaction.published)
  }

  function After(r: Run, steps: seq<Step>): (result: Run) {
    if steps == [] then r else Next(After(r, steps[..|steps| - 1]), steps[|steps| - 1])
  }

  /** Every step can happen where it does. */
  predicate Allowed(r: Run, steps: seq<Step>) {
    steps != [] ==>
      var before, last := steps[..|steps| - 1], steps[|steps| - 1];
      Allowed(r, before) && Enabled(After(r, before), last)
  }

  /** Moreover no Begin or Reset lands inside a finish() or Reset(). */
  predicate Clean(r: Run, steps: seq<Step>) {
    steps != [] ==>
      var before, last := steps[..|steps| - 1], steps[|steps| - 1];
      Clean(r, before) && Enabled(After(r, before), last) && !InWindow(After(r, before), last)
  }

  /** The states a tracker reaches in a clean run. */
  predicate Reaches(flag: bool, steps: seq<Step>, r: Run) {
    Clean(Start(flag), steps) && r == After(Start(flag), steps)
  }

  // ---------------------------------------------------------------- invariants

  function SumChats(accepted: seq<(int, int)>): (r: int) {
    if accepted == [] then 0 else SumChats(accepted[..|accepted| - 1]) + accepted[|accepted| - 1].0
  }

  function SumMessages(accepted: seq<(int, int)>): (r: int) {
    if accepted == [] then 0 else SumMessages(accepted[..|accepted| - 1]) + accepted[|accepted| - 1].1
  }

  function StageRank(stage: Stage): (r: nat) {
    match stage
    case Idle => 0
    case Connecting => 1
    case Contacts => 2
    case History => 3
    case Finalizing => 4
    case Done => 5
  }

  /** Stages never go back; progress, within [0, 1], and the counts of chats and messages never fall. */
  ghost predicate Monotone(published: seq<SyncState>) {
    && (forall s :: s in published ==> 0.0 <= s.progress <= 1.0)
    && forall i, j :: 0 <= i < j < |published| ==>
         && StageRank(published[i].stage) <= StageRank(published[j].stage)
         && published[i].progress <= published[j].progress
         && published[i].chats <= published[j].chats && published[i].messages <= published[j].messages
  }

  ghost predicate StagesAgree(r: Run) {
    && (r.t.active <==> r.t.stage.Connecting? || r.t.stage.Contacts? || r.t.stage.History?)
    && (r.t.completed <==> r.t.stage.Done?)
    && InFlight(r) == (if r.t.stage.Finalizing? then 1 else 0)
    && r.clearing <= (if r.t.stage.Idle? then 1 else 0)
    && (r.clearing == 0 ==> r.stored == (r.t.completed || r.storing == 1))
  }

  ghost predicate TimersAgree(r: Run) {
    && (if r.t.active then r.t.deadline == Some(r.began + SYNC_HARD_DEADLINE) else r.t.deadline == None)
    && r.t.settle == (if r.t.active && !r.t.stage.Connecting? then Some(r.lastActivity + SYNC_SETTLE_DELAY) else None)
    && NotPast(r.t.settle, r.now) && NotPast(r.t.deadline, r.now)
    && r.began <= r.now && r.lastActivity <= r.now
  }

  ghost predicate TotalsAgree(r: Run) {
    && r.t.chunks == |r.accepted|
    && r.t.chats == SumChats(r.accepted)
    && r.t.messages == SumMessages(r.accepted)
  }

  /** The last thing published carries the current stage, progress and totals. */
  ghost predicate PublishedAgrees(r: Run) {
    && Monotone(r.published)
    && (r.published != [] ==>
          var last := r.published[|r.published| - 1];
          && last.stage == r.t.stage && last.progress == ProgressOf(r.t.stage, r.t.chunks)
          && last.chats == r.t.chats && last.messages == r.t.messages && last.indeterminate == r.t.stage.Connecting?)
    && (r.published == [] ==> !r.t.active && InFlight(r) == 0)
  }

  ghost predicate Inv(r: Run) {
    StagesAgree(r) && TimersAgree(r) && TotalsAgree(r) && PublishedAgrees(r)
  }

  lemma MonotoneAppend(published: seq<SyncState>, s: SyncState)
    requires Monotone(published) && 0.0 <= s.progress <= 1.0
    requires published != [] ==>
               var last := published[|published| - 1];
               && StageRank(last.stage) <= StageRank(s.stage) && last.progress <= s.progress
               && last.chats <= s.chats && last.messages <= s.messages
    ensures Monotone(published + [s])
  {
  }

  lemma ProgressBounded(stage: Stage, chunks: nat)
    ensures 0.0 <= ProgressOf(stage, chunks) <= 1.0
    ensures stage.History? ==> 0.10 <= ProgressOf(stage, chunks) <= ProgressOf(stage, chunks + 1) <= 0.85
  {
  }

  /** A step that publishes and is no restart moves the stage and the progress forward. */
  lemma StepAdvances(r: Run, step: Step)
    requires StagesAgree(r) && !InWindow(r, step) && !Restarts(r, step) && Enabled(r, step)
    ensures var t := React(r, step).t;
            && StageRank(r.t.stage) <= StageRank(t.stage)
            && ProgressOf(r.t.stage, r.t.chunks) <= ProgressOf(t.stage, t.chunks)
            && r.t.chats <= t.chats && r.t.messages <= t.messages
  {
    ProgressBounded(r.t.stage, r.t.chunks);
    ProgressBounded(History, r.t.chunks);
  }

  /** What clients are told of a tracker, field by field. */
  predicate Tells(s: SyncState, t: Tracker) {
    && s.stage == t.stage && s.progress == ProgressOf(t.stage, t.chunks)
    && (s.indeterminate <==> t.stage == Connecting)
    && s.chats == t.chats && s.messages == t.messages && s.contacts == t.contacts
  }

  /** A step says at most one thing, the state it leaves; saying nothing it moves no stage. */
  lemma ReactionAnnounces(r: Run, step: Step)
    ensures var reaction := React(r, step);
            if reaction.published == []
            then
              && reaction.t.stage == r.t.stage && reaction.t.chunks == r.t.chunks && !Restarts(r, step)
              && reaction.t.chats == r.t.chats && reaction.t.messages == r.t.messages
            else
              |reaction.published| == 1 && Tells(reaction.published[0], reaction.t)
  {
  }

  lemma StepKeepsPublished(r: Run, step: Step)
    requires StagesAgree(r) && PublishedAgrees(r) && Enabled(r, step) && !InWindow(r, step)
    ensures PublishedAgrees(Next(r, step))
  {
    var reaction := React(r, step);
    ReactionAnnounces(r, step);
    if reaction.published == [] {
      assert Next(r, step).published == r.published;
    } else {
      var base, said := if Restarts(r, step) then [] else r.published, reaction.published[0];
      if !Restarts(r, step) {
        StepAdvances(r, step);
      }
      ProgressBounded(reaction.t.stage, reaction.t.chunks);
      MonotoneAppend(base, said);
      assert Next(r, step).published == base + [said];
    }
  }

  lemma {:induction false} SumsAppend(accepted: seq<(int, int)>, c: (int, int))
    ensures SumChats(accepted + [c]) == SumChats(accepted) + c.0
    ensures SumMessages(accepted + [c]) == SumMessages(accepted) + c.1
  {
    assert (accepted + [c])[..|accepted|] == accepted;
  }

  lemma {:induction false} StepKeepsTotals(r: Run, step: Step)
    requires TotalsAgree(r)
    ensures TotalsAgree(Next(r, step))
  {
    if step.DoChunk? && r.t.active {
      SumsAppend(r.accepted, (step.chats, step.messages));
    }
  }

  lemma StepKeepsStages(r: Run, step: Step)
    requires StagesAgree(r) && Enabled(r, step) && !InWindow(r, step)
    ensures StagesAgree(Next(r, step))
  {
  }

  lemma StepKeepsTimers(r: Run, step: Step)
    requires StagesAgree(r) && TimersAgree(r) && Enabled(r, step) && !InWindow(r, step)
    ensures TimersAgree(Next(r, step))
  {
  }

  lemma StepKeepsInv(r: Run, step: Step)
    requires Inv(r) && Enabled(r, step) && !InWindow(r, step)
    ensures Inv(Next(r, step))
  {
    StepKeepsStages(r, step);
    StepKeepsTimers(r, step);
    StepKeepsTotals(r, step);
    StepKeepsPublished(r, step);
  }

  lemma StartKeepsInv(flag: bool)
    ensures Inv(Start(flag))
  {
  }

  /** For every run in which no Begin or Reset lands inside a finish() or Reset(). */
  lemma {:induction false} RunsKeepInv(flag: bool, steps: seq<Step>, r: Run)
    requires Reaches(flag, steps, r)
    ensures Inv(r)
  {
    if steps != [] {
      var before := After(Start(flag), steps[..|steps| - 1]);
      RunsKeepInv(flag, steps[..|steps| - 1], before);
      StepKeepsInv(before, steps[|steps| - 1]);
    }
  }

  /**
   What clients were last told in a clean run: the chats and messages of the accepted chunks, and
   that progress cannot be estimated exactly while connecting.
   */
  lemma ClientsKnowTheTotals(flag: bool, steps: seq<Step>, r: Run)
    requires Reaches(flag, steps, r) && r.published != []
    ensures var last := r.published[|r.published| - 1];
            && last.chats == SumChats(r.accepted) && last.messages == SumMessages(r.accepted)
            && last.stage == r.t.stage && (last.indeterminate <==> r.t.stage == Connecting)
  {
    RunsKeepInv(flag, steps, r);
  }

  /** The fractions: a tenth for the contacts, then eight chunks to reach the history ceiling. */
  lemma ProgressMeans(chunks: nat)
    ensures ProgressOf(Idle, chunks) == ProgressOf(Connecting, chunks) == 0.0
    ensures ProgressOf(Contacts, chunks) == 0.1 == ProgressOf(History, 0)
    ensures ProgressOf(History, chunks) == 0.85 <==> chunks >= 8
    ensures chunks < 8 ==> ProgressOf(History, chunks + 1) - ProgressOf(History, chunks) == 0.75 / 8.0
    ensures ProgressOf(Finalizing, chunks) == 0.95 && ProgressOf(Done, chunks) == 1.0
  {
  }

  /** However many chunks arrive, a sync is over three minutes after its Begin. */
  lemma DeadlineHolds(flag: bool, steps: seq<Step>, r: Run)
    requires Reaches(flag, steps, r) && r.t.active
    ensures r.began <= r.now <= r.began + SYNC_HARD_DEADLINE
    ensures r.now == r.began + SYNC_HARD_DEADLINE ==>
              Enabled(r, DeadlineFires) && !Next(r, DeadlineFires).t.active
              && forall ms: nat :: Enabled(r, Tick(ms)) ==> ms == 0
  {
    RunsKeepInv(flag, steps, r);
  }

  /** A sync ends by Reset, at its deadline, or after exactly twelve seconds without activity. */
  lemma EndsAfterQuiet(flag: bool, steps: seq<Step>, r: Run, step: Step)
    requires Reaches(flag, steps, r) && r.t.active && Enabled(r, step) && !Next(r, step).t.active
    ensures step.DoReset? || r.now == r.began + SYNC_HARD_DEADLINE || r.now == r.lastActivity + SYNC_SETTLE_DELAY
    ensures r.t.stage.Connecting? ==> step.DoReset? || r.now == r.began + SYNC_HARD_DEADLINE
  {
    RunsKeepInv(flag, steps, r);
  }

  /** Once completed, only Reset lets a sync begin again. */
  lemma CompletedUntilReset(flag: bool, steps: seq<Step>, r: Run, step: Step)
    requires Reaches(flag, steps, r) && r.t.completed && Enabled(r, step) && !step.DoReset?
    ensures Next(r, step).t == r.t && Next(r, step).published == r.published
    ensures Loaded(r.stored) == Loaded(true)
  {
    RunsKeepInv(flag, steps, r);
  }

  // ---------------------------------------------------------------- inside finish()

  /** active and stage tell the same story. */
  predicate Coherent(t: Tracker) {
    t.active <==> t.stage.Connecting? || t.stage.Contacts? || t.stage.History?
  }

  /** No Begin takes effect while a finish() is between its halves; a Reset may come at any time. */
  predicate Undisturbed(r: Run, steps: seq<Step>) {
    steps != [] ==>
      var before, last := steps[..|steps| - 1], steps[|steps| - 1];
      && Undisturbed(r, before) && Enabled(After(r, before), last)
      && (last.DoBegin? && Restarts(After(r, before), last) ==> InFlight(After(r, before)) == 0)
  }

  ghost predicate NoBegin(steps: seq<Step>) {
    forall s :: s in steps ==> !s.DoBegin?
  }

  predicate Sound(r: Run) {
    Coherent(r.t) && (r.t.active ==> InFlight(r) == 0)
  }

  lemma {:induction false} UndisturbedStaysCoherent(r: Run, steps: seq<Step>)
    requires Sound(r) && Undisturbed(r, steps)
    ensures Sound(After(r, steps))
  {
    if steps != [] {
      UndisturbedStaysCoherent(r, steps[..|steps| - 1]);
    }
  }

  lemma {:induction false} AllowedUndisturbed(r: Run, steps: seq<Step>)
    requires Allowed(r, steps) && NoBegin(steps)
    ensures Undisturbed(r, steps)
  {
    if steps != [] {
      assert steps[|steps| - 1] in steps;
      assert forall s :: s in steps[..|steps| - 1] ==> s in steps;
      AllowedUndisturbed(r, steps[..|steps| - 1]);
    }
  }

  /** What is left of the calls of finish() under way, run to their end. */
  function Finishing(r: Run): (result: seq<Step>) {
    if r.storing > 0 then [DoFinishEnds] else [DoPersist, DoFinishEnds]
  }

  lemma FinishingRuns(r: Run)
    requires InFlight(r) > 0
    ensures Allowed(r, Finishing(r)) && NoBegin(Finishing(r))
    ensures After(r, Finishing(r)).t == FinishEnds(r.t).t
  {
    assert [DoPersist][..0] == [] && [DoFinishEnds][..0] == [];
    assert [DoPersist, DoFinishEnds][..1] == [DoPersist];
  }

  /**
   A Begin that takes effect leaves a tracker whose flag and stage agree, whatever follows up
   to the next Begin, exactly when no finish() is between its halves. Resets may have landed
   anywhere before.
   */
  lemma BeginSafeIff(flag: bool, steps: seq<Step>)
    requires Undisturbed(Start(flag), steps) && Restarts(After(Start(flag), steps), DoBegin)
    ensures var r := After(Start(flag), steps);
            var begun := Next(r, DoBegin);
            (forall more :: Allowed(begun, more) && NoBegin(more) ==> Coherent(After(begun, more).t)) <==>
                InFlight(r) == 0
  {
    UndisturbedStaysCoherent(Start(flag), steps);
    var r := After(Start(flag), steps);
    var begun := Next(r, DoBegin);
    if InFlight(r) == 0 {
      forall more | Allowed(begun, more) && NoBegin(more) ensures Coherent(After(begun, more).t) {
        AllowedUndisturbed(begun, more);
        UndisturbedStaysCoherent(begun, more);
      }
    } else {
      FinishingRuns(begun);
    }
  }

  /**
   A Reset leaves the tracker reset until the next Begin, exactly when no finish() is between
   its halves.
   */
  lemma ResetSurvivesIff(r: Run)
    ensures var again := Next(r, DoReset);
            (forall more :: Allowed(again, more) && NoBegin(more) ==> After(again, more).t == again.t) <==>
                InFlight(r) == 0
  {
    var again := Next(r, DoReset);
    if InFlight(r) == 0 {
      forall more | Allowed(again, more) && NoBegin(more) ensures After(again, more).t == again.t {
        StaysReset(again, more);
      }
    } else {
      FinishingRuns(again);
      assert After(again, Finishing(again)).t.completed && !again.t.completed;
    }
  }

  lemma {:induction false} StaysReset(r: Run, more: seq<Step>)
    requires r.t == Loaded(false) && InFlight(r) == 0 && Allowed(r, more) && NoBegin(more)
    ensures After(r, more).t == r.t && InFlight(After(r, more)) == 0
  {
    if more != [] {
      assert more[|more| - 1] in more;
      assert forall s :: s in more[..|more| - 1] ==> s in more;
      StaysReset(r, more[..|more| - 1]);
    }
  }

  /** The calls under way go on; nothing else happens. */
  ghost predicate OnlyEnds(steps: seq<Step>) {
    forall s :: s in steps ==> s.DoPersist? || s.DoFinishEnds? || s.DoClear?
  }

  /**
   What a Reset inside a finish() comes to, in whatever order the two calls go on: once both
   have returned the sync counts as completed, so that Begin does nothing. If finish() had
   stored its flag before, the Reset has cleared it for good, and a restart would sync again.
   */
  lemma ResetInsideFinish(flag: bool, steps: seq<Step>, r: Run, more: seq<Step>)
    requires Reaches(flag, steps, r) && InFlight(r) > 0
    requires OnlyEnds(more) && Allowed(Next(r, DoReset), more)
    requires var end := After(Next(r, DoReset), more); InFlight(end) == 0 && end.clearing == 0
    ensures var end := After(Next(r, DoReset), more);
            && end.t.completed && end.t.stage == Done && Next(end, DoBegin).t == end.t
            && (r.storing > 0 ==> !end.stored)
  {
    RunsKeepInv(flag, steps, r);
    EndsComplete(Next(r, DoReset), more);
  }

  lemma {:induction false} EndsComplete(r: Run, more: seq<Step>)
    requires r.t == Loaded(false) && InFlight(r) == 1 && r.clearing == 1
    requires OnlyEnds(more) && Allowed(r, more)
    ensures var end := After(r, more);
            && !end.t.active && InFlight(end) <= 1 && end.clearing <= 1
            && (if InFlight(end) == 0 then end.t.completed && end.t.stage == Done else end.t == r.t)
            && (r.storing == 1 ==> end.reconciling == 0 && (end.clearing == 0 ==> !end.stored))
  {
    if more != [] {
      assert more[|more| - 1] in more;
      assert forall s :: s in more[..|more| - 1] ==> s in more;
      EndsComplete(r, more[..|more| - 1]);
    }
  }

  lemma AfterStep(r: Run, steps: seq<Step>, step: Step)
    ensures After(r, steps + [step]) == Next(After(r, steps), step)
    ensures Allowed(r, steps + [step]) <==> Allowed(r, steps) && Enabled(After(r, steps), step)
  {
    assert (steps + [step])[..|steps|] == steps;
  }

  lemma {:induction false} AfterConcat(r: Run, a: seq<Step>, b: seq<Step>)
    ensures After(r, a + b) == After(After(r, a), b)
    ensures Allowed(r, a + b) <==> Allowed(r, a) && Allowed(After(r, a), b)
  {
    if b == [] {
      assert a + b == a;
    } else {
      var most, last := b[..|b| - 1], b[|b| - 1];
      AfterConcat(r, a, most);
      AfterStep(r, a + most, last);
      assert a + b == (a + most) + [last];
    }
  }

  /** A run that leads from one state to another. */
  predicate Leads(r: Run, steps: seq<Step>, s: Run) {
    Allowed(r, steps) && After(r, steps) == s
  }

  lemma LeadsOn(r: Run, a: seq<Step>, s: Run, b: seq<Step>, u: Run)
    requires Leads(r, a, s) && Leads(s, b, u)
    ensures Leads(r, a + b, u)
  {
    AfterConcat(r, a, b);
  }

  lemma TwoSteps(r: Run, a: Step, b: Step)
    requires Enabled(r, a) && Enabled(Next(r, a), b)
    ensures Leads(r, [a, b], Next(Next(r, a), b))
  {
    AfterStep(r, [], a);
    AfterStep(r, [a], b);
    assert [] + [a] == [a] && [a] + [b] == [a, b];
  }

  lemma ThreeSteps(r: Run, a: Step, b: Step, c: Step)
    requires Enabled(r, a) && Enabled(Next(r, a), b) && Enabled(Next(Next(r, a), b), c)
    ensures Leads(r, [a, b, c], Next(Next(Next(r, a), b), c))
  {
    TwoSteps(r, a, b);
    AfterStep(r, [a, b], c);
    assert [a, b] + [c] == [a, b, c];
  }

  /** The deadline of a sync passes, and its finish() is under way. */
  lemma DeadlinePasses() returns (r: Run)
    ensures Leads(Start(false), [DoBegin, Tick(SYNC_HARD_DEADLINE), DeadlineFires], r)
    ensures Inv(r) && r.t == Loaded(false).(stage := Finalizing) && r.reconciling == 1 && r.storing == 0
  {
    ThreeSteps(Start(false), DoBegin, Tick(SYNC_HARD_DEADLINE), DeadlineFires);
    r := Start(false);
    StartKeepsInv(false);
    StepKeepsInv(r, DoBegin);
    r := Next(r, DoBegin);
    StepKeepsInv(r, Tick(SYNC_HARD_DEADLINE));
    r := Next(r, Tick(SYNC_HARD_DEADLINE));
    StepKeepsInv(r, DeadlineFires);
    r := Next(r, DeadlineFires);
  }

  /** It goes on to store its flag. */
  lemma FlagGetsStored() returns (steps: seq<Step>, r: Run)
    ensures Leads(Start(false), steps, r)
    ensures Inv(r) && r.t.stage == Finalizing && r.storing == 1
  {
    var passed := DeadlinePasses();
    steps := [DoBegin, Tick(SYNC_HARD_DEADLINE), DeadlineFires];
    StepKeepsInv(passed, DoPersist);
    AfterStep(Start(false), steps, DoPersist);
    steps, r := steps + [DoPersist], Next(passed, DoPersist);
  }

  /** The account is logged out and paired again meanwhile. */
  lemma PairedAgain(r0: Run) returns (r: Run)
    requires r0.t == Loaded(false).(stage := Finalizing) && r0.reconciling == 1 && r0.storing == 0
    ensures Leads(r0, [DoReset, DoClear, DoBegin], r)
    ensures r.t == Loaded(false).(active := true, stage := Connecting, deadline := Some(r.now + SYNC_HARD_DEADLINE))
    ensures r.reconciling == 1 && r.storing == 0
  {
    ThreeSteps(r0, DoReset, DoClear, DoBegin);
    r := Next(Next(Next(r0, DoReset), DoClear), DoBegin);
  }

  /** The first finish() ends inside the second sync. */
  lemma FinishCatchesUp(r0: Run) returns (r: Run)
    requires r0.t == Loaded(false).(active := true, stage := Connecting, deadline := Some(r0.now + SYNC_HARD_DEADLINE))
    requires r0.reconciling == 1 && r0.storing == 0
    ensures Leads(r0, [DoPersist, DoFinishEnds], r)
    ensures r.t == r0.t.(completed := true, stage := Done) && InFlight(r) == 0 && r.now == r0.now
  {
    TwoSteps(r0, DoPersist, DoFinishEnds);
    r := Next(Next(r0, DoPersist), DoFinishEnds);
  }

  lemma FinishInsideSecondSync() returns (steps: seq<Step>, r: Run)
    ensures Leads(Start(false), steps, r) && InFlight(r) == 0
    ensures r.t == Loaded(false).(active := true, completed := true, stage := Done,
            deadline := Some(r.now + SYNC_HARD_DEADLINE))
  {
    var passed := DeadlinePasses();
    var again := PairedAgain(passed);
    r := FinishCatchesUp(again);
    var a, b, c := [DoBegin, Tick(SYNC_HARD_DEADLINE), DeadlineFires], [DoReset, DoClear, DoBegin], [DoPersist,
        DoFinishEnds];
    LeadsOn(Start(false), a, passed, b, again);
    LeadsOn(Start(false), a + b, again, c, r);
    steps := a + b + c;
  }

  lemma SecondSyncEnds(s: Run) returns (end: Run)
    requires s.t.active && InFlight(s) == 0 && s.t.settle == Some(s.now + SYNC_SETTLE_DELAY)
    requires s.t.deadline == Some(s.now + SYNC_HARD_DEADLINE)
    ensures Leads(s, [Tick(SYNC_SETTLE_DELAY), SettleFires, DoPersist] + [DoFinishEnds], end)
    ensures !end.t.active && end.t.stage == Done
  {
    ThreeSteps(s, Tick(SYNC_SETTLE_DELAY), SettleFires, DoPersist);
    var r := Next(Next(Next(s, Tick(SYNC_SETTLE_DELAY)), SettleFires), DoPersist);
    AfterStep(s, [Tick(SYNC_SETTLE_DELAY), SettleFires, DoPersist], DoFinishEnds);
    end := Next(r, DoFinishEnds);
  }

  /**
   A run that does it: logging out and pairing again while the first sync's finish() is under
   way. The second sync runs in stage DONE with completed set. Its first chunk takes clients
   back from DONE to HISTORY, and its own end puts the tracker right again.
   */
  lemma RestartInsideFinish() returns (steps: seq<Step>, r: Run, s: Run, rest: seq<Step>, end: Run)
    ensures Leads(Start(false), steps, r) && r.t.active && r.t.stage == Done && r.t.completed && !Coherent(r.t)
    ensures Leads(r, [DoChunk(0, 0)], s)
    ensures s.published == r.published + [StateOf(s.t)] && s.t.stage == History && s.t.completed
    ensures Leads(s, rest, end) && Coherent(end.t)
  {
    steps, r := FinishInsideSecondSync();
    s := Next(r, DoChunk(0, 0));
    AfterStep(r, [], DoChunk(0, 0));
    assert [] + [DoChunk(0, 0)] == [DoChunk(0, 0)];
    end := SecondSyncEnds(s);
    rest := [Tick(SYNC_SETTLE_DELAY), SettleFires, DoPersist] + [DoFinishEnds];
  }

  // ---------------------------------------------------------------- nothing but Reset

  /** The sync is over and no call of it is under way. */
  predicate Quiet(r: Run) {
    r.t.completed && !r.t.active && r.t.stage == Done && r.t.settle == None && r.t.deadline == None && InFlight(r) == 0
  }

  /** From then on nothing is published until a Reset. */
  lemma QuietUntilReset(r: Run, step: Step)
    requires Quiet(r) && Enabled(r, step) && !step.DoReset?
    ensures Quiet(Next(r, step)) && React(r, step).published == []
  {
  }

  // ---------------------------------------------------------------- the object

  ghost predicate EndsWith(all: seq<SyncState>, tail: seq<SyncState>) {
    |tail| <= |all| && all[|all| - |tail|..] == tail
  }

  datatype Record = Record(loaded: bool, history: seq<Step>, run: Run, clean: bool)

  /** A run with the steps that led there, and whether it is clean. */
  type Trace = x: Record |
    && Leads(Start(x.loaded), x.history, x.run)
    && (x.clean <==> Clean(Start(x.loaded), x.history))
    ghost witness Record(false, [], Start(false), true)

  ghost function Extended(x: Trace, step: Step): (y: Trace)
    requires Enabled(x.run, step)
    ensures y.run == Next(x.run, step) && (y.clean <==> x.clean && !InWindow(x.run, step))
  {
    AfterStep(Start(x.loaded), x.history, step);
    assert (x.history + [step])[..|x.history|] == x.history;
    Record(x.loaded, x.history + [step], Next(x.run, step), x.clean && !InWindow(x.run, step))
  }

  /** What a connection does to a tracker: one that waits for it moves on and the quiet period starts. */
  predicate ConnectionNoted(t: Tracker, u: Tracker, now: nat) {
    u == if t.active && t.stage == Connecting then t.(stage := Contacts, settle := Some(now + SYNC_SETTLE_DELAY)) else t
  }

  /** What the contacts do: they are counted and restart the quiet period of an active sync. */
  predicate ContactsNoted(t: Tracker, u: Tracker, n: int, now: nat) {
    if !t.active then u == t
    else u == t.(contacts := n, settle := Some(now + SYNC_SETTLE_DELAY), stage := if t.stage == Connecting then
        Contacts else t.stage)
  }

  /** What a chunk does: it adds to the totals and restarts the quiet period, never the deadline. */
  predicate ChunkNoted(t: Tracker, u: Tracker, chats: int, messages: int, now: nat) {
    if !t.active then u == t
    else u == t.(stage := History, chunks := t.chunks + 1, chats := t.chats + chats, messages := t.messages + messages,
                 settle := Some(now + SYNC_SETTLE_DELAY))
  }

  lemma StepsAreNoted(t: Tracker, n: int, chats: nat, messages: nat, now: nat)
    ensures ConnectionNoted(t, Connected(t, now).t, now)
    ensures ContactsNoted(t, ContactsSynced(t, n, now).t, n, now)
    ensures ChunkNoted(t, Chunk(t, chats, messages, now).t, chats, messages, now)
  {
  }

  /** What an object's fields have to do with the run of its calls. */
  ghost predicate Tied(r: Run, t: Tracker, now: nat, stored: bool, published: seq<SyncState>) {
    r.t == t && r.now == now && r.stored == stored && EndsWith(published, r.published)
  }

  lemma EndsWithMore(all: seq<SyncState>, tail: seq<SyncState>, more: seq<SyncState>)
    requires EndsWith(all, tail)
    ensures EndsWith(all + more, tail + more) && EndsWith(all + more, [] + more)
  {
    assert (all + more)[|all| - |tail|..] == all[|all| - |tail|..] + more;
  }

  /**
   The tracker object. Valid() ties its fields, the stored flag and what it published to a run
   of the steps its calls have made. While that run is clean the object has the invariants
   proved above (ValidMeans): no Begin or Reset landed inside a finish() or Reset().
   */
  class FullSync {
    var active: bool
    var stage: Stage
    var chunks: nat
    var chats: int
    var messages: int
    var contacts: int
    var settle: Option<nat>
    var deadline: Option<nat>
    var completed: bool
    /** The stored "full_sync_completed" flag. */
    var stored: bool
    /** What the broker was handed, in order. */
    var published: seq<SyncState>
    /** The clock that the timers run on. */
    var now: nat
    ghost var trace: Trace

    function Fields(): (r: Tracker)
      reads `active, `stage, `chunks, `chats, `messages, `contacts, `settle, `deadline, `completed
    {
      Tracker(active, stage, chunks, chats, messages, contacts, settle, deadline, completed)
    }

    ghost predicate Valid()
      reads this
    {
      Tied(trace.run, Fields(), now, stored, published)
    }

    /** What a valid object has after any clean run. */
    lemma ValidMeans()
      requires Valid() && trace.clean
      ensures Inv(trace.run)
      ensures active <==> stage.Connecting? || stage.Contacts? || stage.History?
      ensures active ==> deadline.Some? && now <= deadline.value <= now + SYNC_HARD_DEADLINE
      ensures active && stage != Connecting ==> settle.Some? && now <= settle.value <= now + SYNC_SETTLE_DELAY
      ensures completed ==> stage == Done && stored
    {
      RunsKeepInv(trace.loaded, trace.history, trace.run);
    }

    /** A new tracker, after Load. */
    constructor (flag: bool)
      ensures Valid() && trace.clean && now == 0 && published == []
      ensures !active && InFlight(trace.run) == 0 && trace.run.clearing == 0
      ensures completed == stored == flag
    {
      active, stage := false, if flag then Done else Idle;
      chunks, chats, messages, contacts := 0, 0, 0, 0;
      settle, deadline := None, None;
      completed, stored, published, now := flag, flag, [], 0;
      trace := Record(flag, [], Start(flag), true);
    }

    /** Notes in the ghost state that a call has made its step of the run. */
    ghost method Note(step: Step, before: seq<SyncState>)
      requires Enabled(trace.run, step) && EndsWith(before, trace.run.published)
      requires Fields() == React(trace.run, step).t && published == before + React(trace.run, step).published
      requires now == (if step.Tick? then trace.run.now + step.ms else trace.run.now)
      requires stored == (step.DoPersist? || (trace.run.stored && !step.DoClear?))
      modifies `trace
      ensures Valid() && (trace.clean <==> old(trace.clean) && !InWindow(old(trace.run), step))
    {
      NoteCall(step, before);
    }

    /** The same, for the halves of a call. */
    ghost method NoteCall(step: Step, before: seq<SyncState>)
      requires Enabled(trace.run, step) && EndsWith(before, trace.run.published)
      requires Fields() == React(trace.run, step).t && published == before + React(trace.run, step).published
      requires now == (if step.Tick? then trace.run.now + step.ms else trace.run.now)
      requires stored == (step.DoPersist? || (trace.run.stored && !step.DoClear?))
      modifies `trace
      ensures Valid() && (trace.clean <==> old(trace.clean) && !InWindow(old(trace.run), step))
      ensures trace.run.reconciling == Moved(old(trace.run.reconciling), Finishes(old(trace.run), step),
              step.DoPersist?)
      ensures trace.run.storing == Moved(old(trace.run.storing), step.DoPersist?, step.DoFinishEnds?)
      ensures trace.run.clearing == Moved(old(trace.run.clearing), step.DoReset?, step.DoClear?)
    {
      EndsWithMore(before, trace.run.published, React(trace.run, step).published);
      trace := Extended(trace, step);
    }

    /** Time passes, up to the next timer. */
    method Wait(ms: nat)
      requires Valid() && NotPast(settle, now + ms) && NotPast(deadline, now + ms)
      modifies `now, `trace
      ensures Valid() && trace.clean == old(trace.clean) && now == old(now) + ms
    {
      now := now + ms;
      Note(Tick(ms), published);
    }

    method PublishLocked()
      modifies `published
      ensures published == old(published) + [StateOf(Fields())]
    {
      published := published + [StateOf(Fields())];
    }

    method ArmSettleLocked()
      modifies `settle
      ensures settle == Some(now + SYNC_SETTLE_DELAY)
    {
      settle := Some(now + SYNC_SETTLE_DELAY);
    }

    /** Starts a sync with three minutes to go, unless one runs or has completed. */
    method BeginSync()
      requires Valid()
      modifies `active, `stage, `deadline, `published, `trace
      ensures Valid()
      ensures trace.clean == (old(trace.clean) && old(InFlight(trace.run) + trace.run.clearing) == 0)
      ensures completed || active
      ensures old(completed || active) ==> Fields() == old(Fields()) && published == old(published)
      ensures !old(completed || active) ==>
                stage == Connecting && deadline == Some(now + SYNC_HARD_DEADLINE) && |published| == |old(published)| + 1
    {
      BeginLocked();
      Note(DoBegin, old(published));
    }

    method BeginLocked()
      modifies `active, `stage, `deadline, `published
      ensures var r := Begin(old(Fields()), now); Fields() == r.t && published == old(published) + r.published
    {
      if completed || active {
        return;
      }
      active := true;
      stage := Connecting;
      deadline := Some(now + SYNC_HARD_DEADLINE);
      PublishLocked();
    }

    /** Only a sync that waits for the connection moves on, and its quiet period starts. */
    method OnConnected()
      requires Valid()
      modifies `stage, `settle, `published, `trace
      ensures Valid() && trace.clean == old(trace.clean)
      ensures ConnectionNoted(old(Fields()), Fields(), now)
      ensures !active ==> published == old(published)
    {
      StepsAreNoted(Fields(), 0, 0, 0, now);
      ConnectedLocked();
      Note(DoConnected, old(published));
    }

    method ConnectedLocked()
      modifies `stage, `settle, `published
      ensures var r := Connected(old(Fields()), now); Fields() == r.t && published == old(published) + r.published
    {
      if !active || stage != Connecting {
        return;
      }
      stage := Contacts;
      PublishLocked();
      ArmSettleLocked();
    }

    /** Restarts the quiet period; the count is announced up to the contacts stage only. */
    method OnContacts(n: int)
      requires Valid()
      modifies `contacts, `stage, `settle, `published, `trace
      ensures Valid() && trace.clean == old(trace.clean)
      ensures ContactsNoted(old(Fields()), Fields(), n, now)
      ensures !active ==> published == old(published)
    {
      StepsAreNoted(Fields(), n, 0, 0, now);
      ContactsLocked(n);
      Note(DoContacts(n), old(published));
    }

    method ContactsLocked(n: int)
      modifies `contacts, `stage, `settle, `published
      ensures var r := ContactsSynced(old(Fields()), n, now);
              Fields() == r.t && published == old(published) + r.published
    {
      if !active {
        return;
      }
      contacts := n;
      if stage == Connecting || stage == Contacts {
        stage := Contacts;
        PublishLocked();
      }
      ArmSettleLocked();
    }

    /** Adds to the totals and restarts the quiet period; the deadline stays where it was. */
    method OnChunk(newChats: nat, newMessages: nat)
      requires Valid()
      modifies `chunks, `chats, `messages, `stage, `settle, `published, `trace
      ensures Valid() && trace.clean == old(trace.clean)
      ensures ChunkNoted(old(Fields()), Fields(), newChats, newMessages, now)
      ensures !active ==> published == old(published)
    {
      StepsAreNoted(Fields(), 0, newChats, newMessages, now);
      ChunkLocked(newChats, newMessages);
      Note(DoChunk(newChats, newMessages), old(published));
    }

    method ChunkLocked(newChats: nat, newMessages: nat)
      modifies `chunks, `chats, `messages, `stage, `settle, `published
      ensures var r := Chunk(old(Fields()), newChats, newMessages, now);
              Fields() == r.t && published == old(published) + r.published
    {
      if !active {
        return;
      }
      chunks := chunks + 1;
      chats := chats + newChats;
      messages := messages + newMessages;
      stage := History;
      PublishLocked();
      ArmSettleLocked();
    }

    /** A timer fires; false means there is nothing to finish. */
    method FinishStart() returns (goesOn: bool)
      requires Valid() && (active ==> settle == Some(now) || deadline == Some(now))
      modifies `active, `stage, `settle, `deadline, `published, `trace
      ensures Valid() && trace.clean == old(trace.clean)
      ensures goesOn == old(active) && !active
      ensures goesOn ==> trace.run.reconciling == old(trace.run.reconciling) + 1
      ensures goesOn ==> settle == None && deadline == None && stage == Finalizing
      ensures !goesOn ==> Fields() == old(Fields()) && published == old(published) && trace == old(trace)
    {
      if !active {
        return false;
      }
      ghost var step := if settle == Some(now) then SettleFires else DeadlineFires;
      FinishLocked();
      NoteCall(step, old(published));
      return true;
    }

    /** finish(), up to the release of the mutex. */
    method FinishLocked()
      requires active
      modifies `active, `stage, `settle, `deadline, `published
      ensures var r := FinishStarts(old(Fields())); Fields() == r.t && published == old(published) + r.published
    {
      active := false;
      stage := Finalizing;
      settle, deadline := None, None;
      PublishLocked();
    }

    /** finish() stores the flag while the mutex is free. */
    method FinishPersist()
      requires Valid() && trace.run.reconciling > 0
      modifies `stored, `trace
      ensures Valid() && trace.clean == old(trace.clean) && stored
      ensures trace.run.reconciling == old(trace.run.reconciling) - 1 && trace.run.storing == old(trace.run.storing) + 1
    {
      stored := true;
      NoteCall(DoPersist, published);
    }

    /** finish(), with the mutex again. In a clean run no sync is active and the flag is stored. */
    method FinishEnd()
      requires Valid() && trace.run.storing > 0
      modifies `completed, `stage, `published, `trace
      ensures Valid() && trace.clean == old(trace.clean)
      ensures completed && stage == Done && trace.run.storing == old(trace.run.storing) - 1
      ensures trace.clean ==> !active && stored && Quiet(trace.run)
    {
      completed := true;
      stage := Done;
      PublishLocked();
      NoteCall(DoFinishEnds, old(published));
      if trace.clean {
        ValidMeans();
      }
    }

    /** Everything back to the start, and clients are told. */
    method ResetSync()
      requires Valid()
      modifies `active, `stage, `chunks, `chats, `messages, `contacts, `settle, `deadline, `completed, `published,
          `trace
      ensures Valid()
      ensures trace.clean == (old(trace.clean) && old(InFlight(trace.run) + trace.run.clearing) == 0)
      ensures Fields() == Loaded(false) && trace.run.clearing == old(trace.run.clearing) + 1
      ensures InFlight(trace.run) == old(InFlight(trace.run))
      ensures published == old(published) + [StateOf(Loaded(false))]
    {
      ResetLocked();
      NoteCall(DoReset, old(published));
    }

    method ResetLocked()
      modifies `active, `stage, `chunks, `chats, `messages, `contacts, `settle, `deadline, `completed, `published
      ensures var r := Reset(old(Fields())); Fields() == r.t && published == old(published) + r.published
    {
      active, completed, stage := false, false, Idle;
      chunks, chats, messages, contacts := 0, 0, 0, 0;
      settle, deadline := None, None;
      PublishLocked();
    }

    /** Reset() clears the flag after it released the mutex. */
    method ResetClear()
      requires Valid() && trace.run.clearing > 0
      modifies `stored, `trace
      ensures Valid() && trace.clean == old(trace.clean)
      ensures !stored && trace.run.clearing == old(trace.run.clearing) - 1
    {
      stored := false;
      NoteCall(DoClear, published);
    }
  }
}
