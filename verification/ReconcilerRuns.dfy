/** Invariants of whole runs of the Helm reconciler, whatever fails. */
module ReconcilerRuns {
  import opened Wrappers
  import opened HelmStatus
  import opened ReleaseManager
  import opened Values
  import opened Reconciler

  // ---- runs ----

  /** What can happen to the world between two states of a run. */
  datatype Event =
    | Create(annotations: Annotations, spec: Map, finalizers: set<string>)
    | Edit(annotations: Annotations, spec: Map)
    | Delete
    | Outside(history: History, live: set<string>)
    | Pass(oc: Outcomes)

  function Next(env: Env, w: World, e: Event): World {
    match e
    case Create(annotations, spec, finalizers) =>
      if w.cr.Some? then w
      else w.(cr := Some(Resource(false, set f | f in finalizers :: OtherFinalizer(f), annotations, spec,
                                  EMPTY_STATUS)))
    case Edit(annotations, spec) =>
      if w.cr.None? then w else w.(cr := Some(w.cr.value.(annotations := annotations, spec := spec)))
    case Delete =>
      if w.cr.None? then w
      else if w.cr.value.finalizers == {} then w.(cr := None)
      else w.(cr := Some(w.cr.value.(deleting := true)))
    case Outside(history, live) => w.(history := history, live := live)
    case Pass(oc) => Reconcile(env, w, oc).world
  }

  /** `ws` is the sequence of worlds along the events. */
  ghost predicate IsRun(env: Env, ws: seq<World>, es: seq<Event>) {
    |ws| == |es| + 1 && forall i :: 0 <= i < |es| ==> ws[i + 1] == Next(env, ws[i], es[i])
  }

  // ---- what a pass over a live resource keeps ----

  /** A status built in one pass at time `now`: kinds stay distinct, and the transition time of
      a condition that passes never remove moves only with its status. */
  ghost predicate TimeKept(before: Option<Condition>, after: Option<Condition>, now: int) {
    && (before.Some? ==>
          && after.Some?
          && after.value.time == if before.value.status == after.value.status then before.value.time else now)
    && (before.None? && after.Some? ==> after.value.time == now)
  }

  ghost predicate StatusKept(before: Status, after: Status, now: int) {
    && DistinctKinds(after.conditions)
    && TimeKept(Find(before.conditions, Initialized), Find(after.conditions, Initialized), now)
    && TimeKept(Find(before.conditions, Deployed), Find(after.conditions, Deployed), now)
  }

  /** The same resource, with at least the finalizers it had. */
  ghost predicate SameResource(cr: Resource, cr': Resource) {
    && cr'.deleting == cr.deleting && cr'.annotations == cr.annotations && cr'.spec == cr.spec
    && cr.finalizers <= cr'.finalizers
  }

  /** A recorded release is protected by an uninstall finalizer. */
  ghost predicate RecordedIsGuarded(cr: Resource) {
    cr.status.deployedRelease.Some? && !cr.deleting ==> Guarded(cr.finalizers)
  }

  ghost predicate PassKeeps(cr: Resource, w: World, now: int) {
    && w.cr.Some? && SameResource(cr, w.cr.value)
    && StatusKept(cr.status, w.cr.value.status, now)
    && (RecordedIsGuarded(cr) ==> RecordedIsGuarded(w.cr.value))
  }

  /** A status under construction: the deployed condition and the recorded release are still
      those stored. */
  ghost predicate InProgress(cr: Resource, st: Status, now: int) {
    && StatusKept(cr.status, st, now)
    && Find(st.conditions, Deployed) == Find(cr.status.conditions, Deployed)
    && st.deployedRelease == cr.status.deployedRelease
  }

  lemma SetEffect(st: Status, kind: ConditionType, status: ConditionStatus, reason: Reason, message: string, now: int)
    requires DistinctKinds(st.conditions)
    ensures var st' := SetCond(st, kind, status, reason, message, now);
            && DistinctKinds(st'.conditions)
            && (forall k :: k != kind ==> Find(st'.conditions, k) == Find(st.conditions, k))
            && Find(st'.conditions, kind).Some?
            && (var c := Find(st'.conditions, kind).value;
                c.status == status && c.reason == reason && c.message == message
                && TimeKept(Find(st.conditions, kind), Some(c), now))
  {
    var c := Condition(kind, status, reason, message, 0);
    SetKeepsDistinct(st.conditions, c, now);
    forall k ensures k != kind ==> Find(SetIn(st.conditions, c, now), k) == Find(st.conditions, k) {
      FindAfterSet(st.conditions, c, now, k);
    }
    FindAfterSet(st.conditions, c, now, kind);
  }

  lemma RemoveEffect(st: Status, kind: ConditionType)
    requires DistinctKinds(st.conditions)
    ensures var st' := RemoveCond(st, kind);
            && DistinctKinds(st'.conditions)
            && (forall k :: k != kind ==> Find(st'.conditions, k) == Find(st.conditions, k))
            && Find(st'.conditions, kind).None?
  {
    RemoveKeepsDistinct(st.conditions, kind);
    forall k ensures Find(RemoveFrom(st.conditions, kind), k) == if k == kind then None else Find(st.conditions, k) {
      FindAfterRemove(st.conditions, kind, k);
    }
  }

  lemma FailWithKeeps(w: World, cr: Resource, stored: Resource, st: Status, kind: ConditionType, reason: Reason,
                      oc: Outcomes, calls: seq<Call>)
    requires w.cr == Some(stored) && SameResource(cr, stored) && stored.status == cr.status
    requires kind == ReleaseFailed || kind == Irreconcilable
    requires DistinctKinds(cr.status.conditions) && InProgress(cr, st, oc.now)
    ensures PassKeeps(cr, FailWith(w, st, kind, reason, oc, calls).world, oc.now)
  {
    SetEffect(st, kind, IsTrue, reason, oc.message, oc.now);
  }

  lemma FinishKeeps(env: Env, w: World, cr: Resource, stored: Resource, st: Status, r: Release, reason: Reason,
                    oc: Outcomes, calls: seq<Call>)
    requires w.cr == Some(stored) && SameResource(cr, stored) && stored.status == cr.status
             && Guarded(stored.finalizers)
    requires DistinctKinds(cr.status.conditions) && InProgress(cr, st, oc.now)
    ensures PassKeeps(cr, Finish(env, w, cr, DeployedStatus(st, r, reason, oc.now), oc, calls).world, oc.now)
  {
    SetEffect(st, Deployed, IsTrue, reason, Notes(r), oc.now);
  }

  lemma InstallStageKeeps(env: Env, w: World, cr: Resource, st: Status, oc: Outcomes)
    requires w.cr == Some(cr) && !cr.deleting && DistinctKinds(cr.status.conditions) && InProgress(cr, st, oc.now)
    ensures PassKeeps(cr, InstallStage(env, w, cr, st, oc).world, oc.now)
  {
    if oc.install.InstallFails? {
      FailWithKeeps(w.(history := oc.install.history, live := oc.install.live), cr, cr, st, ReleaseFailed, InstallError,
                    oc, [SyncCall, InstallCall]);
    } else {
      var w1 := w.(history := oc.install.history, live := oc.install.live);
      var w2 := PutFinalizers(w1, cr.finalizers + {UninstallFinalizer}, oc.update);
      RemoveEffect(st, ReleaseFailed);
      if oc.update.Stored? && !oc.hookFails {
        FinishKeeps(env, w2, cr, w2.cr.value, RemoveCond(st, ReleaseFailed), oc.install.release, InstallSuccessful, oc,
                    [SyncCall, InstallCall, UpdateCall]);
      }
    }
  }

  lemma UpgradeStageKeeps(env: Env, w: World, cr: Resource, stored: Resource, st: Status, oc: Outcomes,
                          calls: seq<Call>)
    requires w.cr == Some(stored) && SameResource(cr, stored) && stored.status == cr.status
             && Guarded(stored.finalizers)
    requires DistinctKinds(cr.status.conditions) && InProgress(cr, st, oc.now)
    ensures PassKeeps(cr, UpgradeStage(env, w, cr, st, oc, calls).world, oc.now)
  {
    var calls1 := calls + [UpgradeCall(HasAnnotation(cr.annotations.upgradeForce))];
    RemoveEffect(st, ReleaseFailed);
    match oc.upgrade
    case UpgradeNeedsRollback(_, _) =>
      FailWithKeeps(w.(history := oc.rollbackHistory, live := oc.rollbackLive), cr, stored, st, ReleaseFailed,
                    UpgradeError, oc,
                    calls1 + [RollbackCall(ReadBoolWithDefault(cr.annotations.rollbackForce, true))]);
    case UpgradeFails(history, live) =>
      FailWithKeeps(w.(history := history, live := live), cr, stored, st, ReleaseFailed, UpgradeError, oc, calls1);
    case UpgradedTo(r, history, live) =>
      FinishKeeps(env, w.(history := history, live := live), cr, stored, RemoveCond(st, ReleaseFailed), r,
                  UpgradeSuccessful, oc, calls1);
  }

  lemma ReconcileStageKeeps(env: Env, w: World, cr: Resource, stored: Resource, st: Status, deployed: Release,
                            oc: Outcomes, calls: seq<Call>)
    requires w.cr == Some(stored) && SameResource(cr, stored) && stored.status == cr.status
             && Guarded(stored.finalizers)
    requires DistinctKinds(cr.status.conditions) && InProgress(cr, st, oc.now)
    ensures PassKeeps(cr, ReconcileStage(env, w, cr, st, deployed, oc, calls).world, oc.now)
  {
    var st1 := RemoveCond(st, ReleaseFailed);
    var w1 := w.(live := oc.liveAfterReconcile);
    RemoveEffect(st, ReleaseFailed);
    RemoveEffect(st1, Irreconcilable);
    FailWithKeeps(w1, cr, stored, st1, Irreconcilable, ReconcileError, oc, calls + [ReconcileCall]);
    FinishKeeps(env, w1, cr, stored, RemoveCond(st1, Irreconcilable), deployed, ReasonFor(deployed.version), oc,
                calls + [ReconcileCall]);
  }

  lemma InstalledStageKeeps(env: Env, w: World, cr: Resource, st: Status, deployed: Release, upgrade: bool,
                            oc: Outcomes)
    requires w.cr == Some(cr) && !cr.deleting && DistinctKinds(cr.status.conditions) && InProgress(cr, st, oc.now)
    ensures PassKeeps(cr, InstalledStage(env, w, cr, st, deployed, upgrade, oc).world, oc.now)
  {
    var addFinalizer := !Guarded(cr.finalizers);
    var w1 := if addFinalizer then PutFinalizers(w, cr.finalizers + {UninstallFinalizer}, oc.update) else w;
    var calls := if addFinalizer then [SyncCall, UpdateCall] else [SyncCall];
    if !(addFinalizer && !oc.update.Stored?) {
      UpgradeStageKeeps(env, w1, cr, w1.cr.value, st, oc, calls);
      ReconcileStageKeeps(env, w1, cr, w1.cr.value, st, deployed, oc, calls);
    }
  }

  /** A pass over a live resource keeps its finalizers, keeps its condition kinds distinct,
      never loses the conditions it does not remove, never records an unprotected release, and
      gives each kind of condition its exact transition time. */
  lemma {:induction false} LivePassKeeps(env: Env, w: World, oc: Outcomes)
    requires w.cr.Some? && !w.cr.value.deleting && DistinctKinds(w.cr.value.status.conditions)
    ensures PassKeeps(w.cr.value, Reconcile(env, w, oc).world, oc.now)
    ensures forall kind :: TimeRule(w.cr.value, Reconcile(env, w, oc).world, kind, Resets(env, w, oc, kind), oc.now)
  {
    forall kind ensures TimeRule(w.cr.value, Reconcile(env, w, oc).world, kind, Resets(env, w, oc, kind), oc.now) {
      TransitionTimes(env, w, oc, kind);
    }
    LiveResourceKept(env, w, oc);
  }

  lemma {:induction false} LiveResourceKept(env: Env, w: World, oc: Outcomes)
    requires w.cr.Some? && !w.cr.value.deleting && DistinctKinds(w.cr.value.status.conditions)
    ensures PassKeeps(w.cr.value, Reconcile(env, w, oc).world, oc.now)
  {
    var cr := w.cr.value;
    var st := SetCond(cr.status, Initialized, IsTrue, NoReason, "", oc.now);
    SetEffect(cr.status, Initialized, IsTrue, NoReason, "", oc.now);
    match SyncOf(w.history, Candidate(env, cr.spec), oc.sync)
    case SyncFailed(history) =>
      FailWithKeeps(w.(history := history), cr, cr, st, Irreconcilable, ReconcileError, oc, [SyncCall]);
    case Synced(history, deployed, upgrade) =>
      var w1 := w.(history := history);
      var st1 := RemoveCond(st, Irreconcilable);
      RemoveEffect(st, Irreconcilable);
      InstallStageKeeps(env, w1, cr, st1, oc);
      if deployed.Some? {
        InstalledStageKeeps(env, w1, cr, st1, deployed.value, upgrade, oc);
      }
  }

  // ---- what a pass over a resource under deletion keeps ----

  ghost predicate Waits(cr: Resource) { HasAnnotation(cr.annotations.uninstallWait) && RecordsManifest(cr.status) }

  /** The resource stays under deletion as it was, except possibly for its uninstall
      finalizers; a recorded manifest that must be waited for stays recorded. */
  ghost predicate DeletionKeeps(cr: Resource, w: World, now: int) {
    w.cr.Some? ==>
      var cr' := w.cr.value;
      && cr'.deleting && cr'.annotations == cr.annotations && cr'.spec == cr.spec
      && StatusKept(cr.status, cr'.status, now)
      && (Waits(cr) ==> cr'.status.deployedRelease == cr.status.deployedRelease)
  }

  lemma DeletionStatusKeeps(cr: Resource, uninstalled: bool, now: int)
    requires DistinctKinds(cr.status.conditions)
    ensures var st := DeletionStatus(cr, uninstalled, now);
            && StatusKept(cr.status, st, now)
            && (HasAnnotation(cr.annotations.uninstallWait) ==> st.deployedRelease == cr.status.deployedRelease)
  {
    var st := RemoveCond(cr.status, ReleaseFailed);
    RemoveEffect(cr.status, ReleaseFailed);
    SetEffect(st, Deployed, IsFalse, UninstallSuccessful, WAITING, now);
    SetEffect(st, Deployed, IsFalse, UninstallSuccessful, "", now);
  }

  /** A status that keeps what a deletion pass must keep. */
  ghost predicate StatusMayStay(cr: Resource, st: Status, now: int) {
    StatusKept(cr.status, st, now) && (Waits(cr) ==> st.deployedRelease == cr.status.deployedRelease)
  }

  lemma {:induction false} PutKeeps(cr: Resource, w: World, st: Status, o: Write, now: int)
    requires cr.deleting && w.cr.Some? && StatusMayStay(cr, w.cr.value.status, now) && StatusMayStay(cr, st, now)
    requires w.cr.value == cr.(status := w.cr.value.status)
    ensures DeletionKeeps(cr, PutStatus(w, st, o), now)
  {
  }

  lemma {:induction false} ReleaseFailedMayStay(cr: Resource, st: Status, message: string, now: int)
    requires StatusMayStay(cr, st, now)
    ensures StatusMayStay(cr, SetCond(st, ReleaseFailed, IsTrue, UninstallError, message, now), now)
  {
    SetEffect(st, ReleaseFailed, IsTrue, UninstallError, message, now);
  }

  lemma {:induction false} StripKeeps(w: World, cr: Resource, st: Status, oc: Outcomes, calls: seq<Call>)
    requires w.cr == Some(cr.(status := st)) && cr.deleting && StatusMayStay(cr, st, oc.now)
    ensures DeletionKeeps(cr, StripFinalizers(w, cr, oc, calls).world, oc.now)
  {
  }

  lemma {:induction false} AfterUninstallKeeps(env: Env, w: World, cr: Resource, st: Status, oc: Outcomes,
                                               calls: seq<Call>)
    requires w.cr == Some(cr.(status := st)) && cr.deleting && StatusMayStay(cr, st, oc.now)
    ensures DeletionKeeps(cr, AfterUninstall(env, w, cr, st, oc, calls).world, oc.now)
  {
    if HasAnnotation(cr.annotations.uninstallWait) && RecordsManifest(st) {
      ReleaseFailedMayStay(cr, st, oc.message, oc.now);
      PutKeeps(cr, w.(live := oc.liveAfterCleanup),
               SetCond(st, ReleaseFailed, IsTrue, UninstallError, oc.message, oc.now),
               oc.lastStatusWrite, oc.now);
      StripKeeps(w, cr, st, oc, calls + [CleanupCall(st.deployedRelease.value.manifest)]);
    } else {
      StripKeeps(w, cr, st, oc, calls);
    }
  }

  /** A pass over a resource under deletion keeps the resource, its recorded manifest while it
      must be waited for, its kinds of conditions distinct, and gives each its exact time. */
  lemma {:induction false} DeletionPassKeeps(env: Env, w: World, oc: Outcomes)
    requires w.cr.Some? && w.cr.value.deleting && DistinctKinds(w.cr.value.status.conditions)
    ensures DeletionKeeps(w.cr.value, Reconcile(env, w, oc).world, oc.now)
    ensures forall kind :: TimeRule(w.cr.value, Reconcile(env, w, oc).world, kind, Resets(env, w, oc, kind), oc.now)
  {
    forall kind ensures TimeRule(w.cr.value, Reconcile(env, w, oc).world, kind, Resets(env, w, oc, kind), oc.now) {
      TransitionTimes(env, w, oc, kind);
    }
    DeletedResourceKept(env, w, oc);
  }

  lemma {:induction false} UninstallFailureKeeps(w: World, cr: Resource, oc: Outcomes, calls: seq<Call>)
    requires w.cr == Some(cr) && cr.deleting && DistinctKinds(cr.status.conditions)
    ensures DeletionKeeps(cr, FailWith(w, cr.status, ReleaseFailed, UninstallError, oc, calls).world, oc.now)
  {
    ReleaseFailedMayStay(cr, cr.status, oc.message, oc.now);
    PutKeeps(cr, w, SetCond(cr.status, ReleaseFailed, IsTrue, UninstallError, oc.message, oc.now), oc.statusWrite,
             oc.now);
  }

  lemma {:induction false} FinishKeepsDeleted(env: Env, w: World, cr: Resource, oc: Outcomes)
    requires w.cr == Some(cr) && cr.deleting && DistinctKinds(cr.status.conditions) && !oc.uninstall.UninstallFails?
    ensures DeletionKeeps(cr, FinishDeletion(env, w, cr, oc).world, oc.now)
  {
    var w1 := WorldAfterUninstall(w, oc);
    var st := DeletionStatus(cr, oc.uninstall.Uninstalled?, oc.now);
    DeletionStatusKeeps(cr, oc.uninstall.Uninstalled?, oc.now);
    PutKeeps(cr, w1, st, oc.statusWrite, oc.now);
    if oc.statusWrite.Stored? {
      AfterUninstallKeeps(env, PutStatus(w1, st, oc.statusWrite), cr, st, oc, [UninstallCall, StatusCall]);
    }
  }

  lemma {:induction false} DeletedResourceKept(env: Env, w: World, oc: Outcomes)
    requires w.cr.Some? && w.cr.value.deleting && DistinctKinds(w.cr.value.status.conditions)
    ensures DeletionKeeps(w.cr.value, Reconcile(env, w, oc).world, oc.now)
  {
    var cr := w.cr.value;
    if Begins(w, oc) && Guarded(cr.finalizers) {
      if oc.uninstall.UninstallFails? {
        var w1 := w.(history := oc.uninstall.history, live := oc.uninstall.live);
        UninstallFailureKeeps(w1, cr, oc, [UninstallCall]);
      } else {
        FinishKeepsDeleted(env, w, cr, oc);
      }
    } else {
      assert Reconcile(env, w, oc).world == w;
    }
  }

  // ---- transition times ----

  predicate Begins(w: World, oc: Outcomes) {
    !oc.getFails && !oc.managerFails && w.cr.Some? && !w.cr.value.annotations.reconcilePeriod.BadPeriod?
  }

  /** Reconciling fails and that is recorded. */
  ghost predicate RecordsReconcileFailure(env: Env, w: World, oc: Outcomes) {
    && Begins(w, oc) && !w.cr.value.deleting
    && var s := SyncOf(w.history, Candidate(env, w.cr.value.spec), oc.sync);
       && s.Synced? && s.deployed.Some? && !s.upgradeRequired
       && (Guarded(w.cr.value.finalizers) || oc.update.Stored?)
       && oc.reconcileFails && !oc.statusWrite.Rejected?
  }

  /** Cleaning up after uninstalling fails and that is recorded. */
  ghost predicate RecordsCleanupFailure(env: Env, w: World, oc: Outcomes) {
    && Begins(w, oc) && w.cr.value.deleting && Guarded(w.cr.value.finalizers)
    && !oc.uninstall.UninstallFails? && oc.statusWrite.Stored? && Waits(w.cr.value)
    && var manifest := w.cr.value.status.deployedRelease.value.manifest;
       CleanupOf(env.parse(manifest), WorldAfterUninstall(w, oc).live, oc.cleanup).CleanupFailed?
         && !oc.lastStatusWrite.Rejected?
  }

  /** The pass removes the condition and then sets it again. */
  ghost predicate Resets(env: Env, w: World, oc: Outcomes, kind: ConditionType) {
    || (kind == Irreconcilable && RecordsReconcileFailure(env, w, oc))
    || (kind == ReleaseFailed && RecordsCleanupFailure(env, w, oc))
  }

  /** The exact transition time of a condition: the old one if it had the same status before
      and was not removed in between, otherwise that of the pass. */
  ghost predicate TimeFits(before: Option<Condition>, after: Option<Condition>, resets: bool, now: int) {
    && (after.Some? ==>
          after.value.time == if before.Some? && before.value.status == after.value.status && !resets
            then before.value.time else now)
    && (resets ==> after.Some? && after.value.status == IsTrue)
  }

  ghost predicate TimeRule(cr: Resource, w: World, kind: ConditionType, resets: bool, now: int) {
    w.cr.Some? ==> TimeFits(Find(cr.status.conditions, kind), Find(w.cr.value.status.conditions, kind), resets, now)
  }

  /** The rule for a status that is to be written. */
  ghost predicate StatusFits(cr: Resource, st: Status, kind: ConditionType, resets: bool, now: int) {
    TimeFits(Find(cr.status.conditions, kind), Find(st.conditions, kind), resets, now)
  }

  lemma {:induction false} PutFits(cr: Resource, w: World, st: Status, o: Write, kind: ConditionType, resets: bool,
                                   now: int)
    requires w.cr.Some? && StatusFits(cr, w.cr.value.status, kind, false, now) && StatusFits(cr, st, kind, resets, now)
    ensures TimeRule(cr, PutStatus(w, st, o), kind, resets && !o.Rejected?, now)
  {
  }

  /** Half-way through a pass that got past synchronising. */
  ghost predicate PastSync(cr: Resource, st: Status, now: int) {
    && DistinctKinds(st.conditions) && Find(st.conditions, Irreconcilable).None?
    && Find(st.conditions, Deployed) == Find(cr.status.conditions, Deployed)
    && (Find(st.conditions, ReleaseFailed).Some? ==>
        Find(st.conditions, ReleaseFailed) == Find(cr.status.conditions, ReleaseFailed))
    && TimeKept(Find(cr.status.conditions, Initialized), Find(st.conditions, Initialized), now)
  }

  lemma {:induction false} WithoutReleaseFailed(cr: Resource, st: Status, now: int)
    requires PastSync(cr, st, now)
    ensures PastSync(cr, RemoveCond(st, ReleaseFailed), now)
  {
    RemoveEffect(st, ReleaseFailed);
  }

  lemma {:induction false} DeployedFits(cr: Resource, st: Status, r: Release, reason: Reason, now: int,
                                        kind: ConditionType)
    requires PastSync(cr, st, now)
    ensures StatusFits(cr, DeployedStatus(st, r, reason, now), kind, false, now)
  {
    SetEffect(st, Deployed, IsTrue, reason, Notes(r), now);
  }

  lemma {:induction false} ReleaseFailedFits(cr: Resource, st: Status, reason: Reason, message: string, now: int,
                                             kind: ConditionType)
    requires PastSync(cr, st, now) && Find(st.conditions, ReleaseFailed) == Find(cr.status.conditions, ReleaseFailed)
    ensures StatusFits(cr, SetCond(st, ReleaseFailed, IsTrue, reason, message, now), kind, false, now)
  {
    SetEffect(st, ReleaseFailed, IsTrue, reason, message, now);
  }

  lemma {:induction false} IrreconcilableFits(cr: Resource, st: Status, message: string, now: int, kind: ConditionType)
    requires PastSync(cr, st, now)
    ensures StatusFits(cr, SetCond(st, Irreconcilable, IsTrue, ReconcileError, message, now), kind,
                       kind == Irreconcilable, now)
  {
    SetEffect(st, Irreconcilable, IsTrue, ReconcileError, message, now);
  }

  lemma {:induction false} SyncFailureFits(cr: Resource, message: string, now: int, kind: ConditionType)
    requires DistinctKinds(cr.status.conditions)
    ensures var st := SetCond(cr.status, Initialized, IsTrue, NoReason, "", now);
            StatusFits(cr, SetCond(st, Irreconcilable, IsTrue, ReconcileError, message, now), kind, false, now)
  {
    var st := SetCond(cr.status, Initialized, IsTrue, NoReason, "", now);
    SetEffect(cr.status, Initialized, IsTrue, NoReason, "", now);
    SetEffect(st, Irreconcilable, IsTrue, ReconcileError, message, now);
  }

  lemma {:induction false} SyncIsPast(cr: Resource, now: int)
    requires DistinctKinds(cr.status.conditions)
    ensures var st := RemoveCond(SetCond(cr.status, Initialized, IsTrue, NoReason, "", now), Irreconcilable);
            PastSync(cr, st, now) && Find(st.conditions, ReleaseFailed) == Find(cr.status.conditions, ReleaseFailed)
  {
    SetEffect(cr.status, Initialized, IsTrue, NoReason, "", now);
    RemoveEffect(SetCond(cr.status, Initialized, IsTrue, NoReason, "", now), Irreconcilable);
  }

  lemma {:induction false} InstallTimes(env: Env, w: World, cr: Resource, st: Status, oc: Outcomes, kind: ConditionType)
    requires w.cr == Some(cr) && !cr.deleting && PastSync(cr, st, oc.now)
    requires Find(st.conditions, ReleaseFailed) == Find(cr.status.conditions, ReleaseFailed)
    ensures TimeRule(cr, InstallStage(env, w, cr, st, oc).world, kind, false, oc.now)
  {
    if oc.install.InstallFails? {
      ReleaseFailedFits(cr, st, InstallError, oc.message, oc.now, kind);
    } else {
      WithoutReleaseFailed(cr, st, oc.now);
      DeployedFits(cr, RemoveCond(st, ReleaseFailed), oc.install.release, InstallSuccessful, oc.now, kind);
    }
  }

  lemma {:induction false} UpgradeTimes(env: Env, w: World, cr: Resource, st: Status, oc: Outcomes, calls: seq<Call>,
                                        kind: ConditionType)
    requires w.cr.Some? && w.cr.value.status == cr.status && PastSync(cr, st, oc.now)
    requires Find(st.conditions, ReleaseFailed) == Find(cr.status.conditions, ReleaseFailed)
    ensures TimeRule(cr, UpgradeStage(env, w, cr, st, oc, calls).world, kind, false, oc.now)
  {
    if !oc.upgrade.UpgradedTo? {
      ReleaseFailedFits(cr, st, UpgradeError, oc.message, oc.now, kind);
    } else {
      WithoutReleaseFailed(cr, st, oc.now);
      DeployedFits(cr, RemoveCond(st, ReleaseFailed), oc.upgrade.release, UpgradeSuccessful, oc.now, kind);
    }
  }

  lemma {:induction false} ReconcileTimes(env: Env, w: World, cr: Resource, st: Status, deployed: Release, oc: Outcomes,
                                          calls: seq<Call>,
                                          kind: ConditionType)
    requires w.cr.Some? && w.cr.value.status == cr.status && PastSync(cr, st, oc.now)
    ensures TimeRule(cr, ReconcileStage(env, w, cr, st, deployed, oc, calls).world, kind,
                     kind == Irreconcilable && oc.reconcileFails && !oc.statusWrite.Rejected?, oc.now)
  {
    var st1 := RemoveCond(st, ReleaseFailed);
    var w1 := w.(live := oc.liveAfterReconcile);
    WithoutReleaseFailed(cr, st, oc.now);
    if oc.reconcileFails {
      IrreconcilableFits(cr, st1, oc.message, oc.now, kind);
      PutFits(cr, w1, SetCond(st1, Irreconcilable, IsTrue, ReconcileError, oc.message, oc.now), oc.statusWrite, kind,
              kind == Irreconcilable, oc.now);
    } else {
      RemoveAbsent(st1.conditions, Irreconcilable);
      DeployedFits(cr, st1, deployed, ReasonFor(deployed.version), oc.now, kind);
    }
  }

  lemma {:induction false} InstalledTimes(env: Env, w: World, cr: Resource, st: Status, deployed: Release,
                                          upgrade: bool, oc: Outcomes,
                                          kind: ConditionType)
    requires w.cr == Some(cr) && !cr.deleting && PastSync(cr, st, oc.now)
    requires Find(st.conditions, ReleaseFailed) == Find(cr.status.conditions, ReleaseFailed)
    ensures TimeRule(cr, InstalledStage(env, w, cr, st, deployed, upgrade, oc).world, kind,
                     kind == Irreconcilable && !upgrade && (Guarded(cr.finalizers) || oc.update.Stored?)
                     && oc.reconcileFails && !oc.statusWrite.Rejected?, oc.now)
  {
    var addFinalizer := !Guarded(cr.finalizers);
    var w1 := if addFinalizer then PutFinalizers(w, cr.finalizers + {UninstallFinalizer}, oc.update) else w;
    var calls := if addFinalizer then [SyncCall, UpdateCall] else [SyncCall];
    if !(addFinalizer && !oc.update.Stored?) {
      if upgrade {
        UpgradeTimes(env, w1, cr, st, oc, calls, kind);
      } else {
        ReconcileTimes(env, w1, cr, st, deployed, oc, calls, kind);
      }
    }
  }

  lemma {:induction false} LiveTimes(env: Env, w: World, oc: Outcomes, kind: ConditionType)
    requires Begins(w, oc) && !w.cr.value.deleting && DistinctKinds(w.cr.value.status.conditions)
    ensures TimeRule(w.cr.value, Reconcile(env, w, oc).world, kind, Resets(env, w, oc, kind), oc.now)
  {
    var cr := w.cr.value;
    var s := SyncOf(w.history, Candidate(env, cr.spec), oc.sync);
    if s.SyncFailed? {
      SyncFailureFits(cr, oc.message, oc.now, kind);
    } else {
      var w1 := w.(history := s.history);
      var st := RemoveCond(SetCond(cr.status, Initialized, IsTrue, NoReason, "", oc.now), Irreconcilable);
      SyncIsPast(cr, oc.now);
      if s.deployed.None? {
        InstallTimes(env, w1, cr, st, oc, kind);
      } else {
        InstalledTimes(env, w1, cr, st, s.deployed.value, s.upgradeRequired, oc, kind);
      }
    }
  }

  lemma {:induction false} DeletionStatusFits(cr: Resource, uninstalled: bool, now: int, kind: ConditionType)
    requires DistinctKinds(cr.status.conditions)
    ensures var st := DeletionStatus(cr, uninstalled, now);
            DistinctKinds(st.conditions) && Find(st.conditions, ReleaseFailed).None?
              && StatusFits(cr, st, kind, false, now)
  {
    var removed := RemoveCond(cr.status, ReleaseFailed);
    RemoveEffect(cr.status, ReleaseFailed);
    SetEffect(removed, Deployed, IsFalse, UninstallSuccessful, WAITING, now);
    SetEffect(removed, Deployed, IsFalse, UninstallSuccessful, "", now);
  }

  lemma {:induction false} CleanupFailureFits(cr: Resource, st: Status, message: string, now: int, kind: ConditionType)
    requires DistinctKinds(st.conditions) && Find(st.conditions, ReleaseFailed).None?
             && StatusFits(cr, st, kind, false, now)
    ensures StatusFits(cr, SetCond(st, ReleaseFailed, IsTrue, UninstallError, message, now), kind,
                       kind == ReleaseFailed, now)
  {
    SetEffect(st, ReleaseFailed, IsTrue, UninstallError, message, now);
  }

  lemma {:induction false} AfterUninstallTimes(env: Env, w: World, cr: Resource, st: Status, oc: Outcomes,
                                               calls: seq<Call>, kind: ConditionType)
    requires w.cr == Some(cr.(status := st))
    requires DistinctKinds(st.conditions) && Find(st.conditions, ReleaseFailed).None?
             && StatusFits(cr, st, kind, false, oc.now)
    ensures TimeRule(cr, AfterUninstall(env, w, cr, st, oc, calls).world, kind,
                     kind == ReleaseFailed && HasAnnotation(cr.annotations.uninstallWait) && RecordsManifest(st)
                     && CleanupOf(env.parse(st.deployedRelease.value.manifest), w.live, oc.cleanup).CleanupFailed?
                     && !oc.lastStatusWrite.Rejected?, oc.now)
  {
    if HasAnnotation(cr.annotations.uninstallWait) && RecordsManifest(st)
       && CleanupOf(env.parse(st.deployedRelease.value.manifest), w.live, oc.cleanup).CleanupFailed? {
      CleanupFailureFits(cr, st, oc.message, oc.now, kind);
      PutFits(cr, w.(live := oc.liveAfterCleanup),
              SetCond(st, ReleaseFailed, IsTrue, UninstallError, oc.message, oc.now),
              oc.lastStatusWrite, kind, kind == ReleaseFailed, oc.now);
    }
  }

  lemma {:induction false} DeletionTimes(env: Env, w: World, oc: Outcomes, kind: ConditionType)
    requires Begins(w, oc) && w.cr.value.deleting && DistinctKinds(w.cr.value.status.conditions)
    ensures TimeRule(w.cr.value, Reconcile(env, w, oc).world, kind, Resets(env, w, oc, kind), oc.now)
  {
    var cr := w.cr.value;
    if !Guarded(cr.finalizers) {
      assert Reconcile(env, w, oc).world == w;
    } else if oc.uninstall.UninstallFails? {
      SetEffect(cr.status, ReleaseFailed, IsTrue, UninstallError, oc.message, oc.now);
      assert !Resets(env, w, oc, kind);
    } else {
      FinishTimes(env, w, cr, oc, kind);
    }
  }

  lemma {:induction false} FinishTimes(env: Env, w: World, cr: Resource, oc: Outcomes, kind: ConditionType)
    requires w.cr == Some(cr) && Begins(w, oc) && cr.deleting && Guarded(cr.finalizers) && !oc.uninstall.UninstallFails?
    requires DistinctKinds(cr.status.conditions)
    ensures TimeRule(cr, FinishDeletion(env, w, cr, oc).world, kind, Resets(env, w, oc, kind), oc.now)
  {
    var st := DeletionStatus(cr, oc.uninstall.Uninstalled?, oc.now);
    var w2 := PutStatus(WorldAfterUninstall(w, oc), st, oc.statusWrite);
    DeletionStatusFits(cr, oc.uninstall.Uninstalled?, oc.now, kind);
    if oc.statusWrite.Stored? {
      if HasAnnotation(cr.annotations.uninstallWait) { KeptWhenWaiting(cr, oc.uninstall.Uninstalled?, oc.now); }
      AfterUninstallTimes(env, w2, cr, st, oc, [UninstallCall, StatusCall], kind);
    }
  }

  lemma {:induction false} KeptWhenWaiting(cr: Resource, uninstalled: bool, now: int)
    requires HasAnnotation(cr.annotations.uninstallWait)
    ensures DeletionStatus(cr, uninstalled, now).deployedRelease == cr.status.deployedRelease
  {
  }

  /** What a pass does to the transition time of every kind of condition. */
  lemma {:induction false} TransitionTimes(env: Env, w: World, oc: Outcomes, kind: ConditionType)
    requires w.cr.Some? && DistinctKinds(w.cr.value.status.conditions)
    ensures TimeRule(w.cr.value, Reconcile(env, w, oc).world, kind, Resets(env, w, oc, kind), oc.now)
  {
    if Begins(w, oc) {
      if w.cr.value.deleting {
        DeletionTimes(env, w, oc, kind);
      } else {
        LiveTimes(env, w, oc, kind);
      }
    }
  }

  /** The time of a condition that a pass leaves with the status it had moves exactly when the
      pass removes it in between. */
  lemma {:induction false} TimeLostIff(env: Env, w: World, oc: Outcomes, kind: ConditionType)
    requires w.cr.Some? && DistinctKinds(w.cr.value.status.conditions) && Reconcile(env, w, oc).world.cr.Some?
    requires var before, after := Find(w.cr.value.status.conditions, kind),
                                  Find(Reconcile(env, w, oc).world.cr.value.status.conditions, kind);
             before.Some? && after.Some? && before.value.status == after.value.status && before.value.time != oc.now
    ensures Find(Reconcile(env, w, oc).world.cr.value.status.conditions, kind).value.time
            != Find(w.cr.value.status.conditions, kind).value.time
       <==> Resets(env, w, oc, kind)
  {
    TransitionTimes(env, w, oc, kind);
  }

  /** None of the resources that uninstalling must delete exists: those of the files without
      a resource policy. */
  ghost predicate AllGone(files: seq<File>, live: set<string>) {
    forall f, r :: f in files && f.policy.None? && r in f.resources ==> r !in live
  }

  /** Why a pass may strip the uninstall finalizers of `cr`: the release is uninstalled or
      gone and, when waiting is asked for and a manifest is recorded, cleanup could look at
      every resource it must delete and saw each of them gone. */
  ghost predicate Justified(env: Env, w: World, cr: Resource, oc: Outcomes) {
    && cr.deleting
    && !oc.uninstall.UninstallFails?
    && (Waits(cr) ==>
          var parsed := env.parse(cr.status.deployedRelease.value.manifest);
          var live := if oc.uninstall.Uninstalled? then oc.uninstall.live else w.live;
          && parsed.Some?
          && !oc.cleanup.discoveryFails && !oc.cleanup.buildFails
          && AllGone(parsed.value, live)
          && forall f, r :: f in parsed.value && f.policy.None? && r in f.resources ==> !oc.cleanup.getFails(r))
  }

  /** The finalizers stay as they are unless stripping them is justified. */
  lemma DeletionPassSafe(env: Env, w: World, oc: Outcomes)
    requires w.cr.Some? && w.cr.value.deleting
    ensures var w' := Reconcile(env, w, oc).world;
            Justified(env, w, w.cr.value, oc) || (w'.cr.Some? && w'.cr.value.finalizers == w.cr.value.finalizers)
  {
    var cr := w.cr.value;
    if Waits(cr) {
      var parsed := env.parse(cr.status.deployedRelease.value.manifest);
      var live := if oc.uninstall.Uninstalled? then oc.uninstall.live else w.live;
      if parsed.Some? {
        CleanupSeesAllGone(parsed.value, live, oc.cleanup);
      }
    }
  }

  // ---- theorems about runs ----

  ghost predicate Inv(w: World) {
    w.cr.Some? ==> DistinctKinds(w.cr.value.status.conditions) && RecordedIsGuarded(w.cr.value)
  }

  lemma {:induction false} NextKeepsInv(env: Env, w: World, e: Event)
    requires Inv(w)
    ensures Inv(Next(env, w, e))
  {
    if e.Pass? && w.cr.Some? {
      if w.cr.value.deleting {
        DeletionPassKeeps(env, w, e.oc);
      } else {
        LivePassKeeps(env, w, e.oc);
      }
    }
  }

  /** In every reachable state condition kinds are pairwise distinct and a live resource with
      a recorded release carries an uninstall finalizer. */
  lemma {:induction false} InvAlways(env: Env, ws: seq<World>, es: seq<Event>, i: nat)
    requires IsRun(env, ws, es) && Inv(ws[0]) && i < |ws|
    ensures Inv(ws[i])
  {
    if i > 0 {
      InvAlways(env, ws, es, i - 1);
      NextKeepsInv(env, ws[i - 1], es[i - 1]);
      assert ws[i - 1 + 1] == Next(env, ws[i - 1], es[i - 1]);
    }
  }

  ghost predicate Protected(w: World) { w.cr.Some? && Guarded(w.cr.value.finalizers) }

  /** Finalizer safety over every run. */
  lemma StrippedOnlyWhenJustified(env: Env, ws: seq<World>, es: seq<Event>, i: nat)
    requires IsRun(env, ws, es) && Inv(ws[0]) && i < |es|
    requires Protected(ws[i]) && !Protected(ws[i + 1])
    ensures es[i].Pass? && Justified(env, ws[i], ws[i].cr.value, es[i].oc)
  {
    InvAlways(env, ws, es, i);
    assert ws[i + 1] == Next(env, ws[i], es[i]);
    if es[i].Pass? {
      if ws[i].cr.value.deleting {
        DeletionPassSafe(env, ws[i], es[i].oc);
      } else {
        LivePassKeeps(env, ws[i], es[i].oc);
      }
    }
  }

  /** From state `start` to state `end` the resource exists, under deletion and asking to wait. */
  ghost predicate WaitingThroughout(ws: seq<World>, start: nat, end: nat) {
    start <= end < |ws| && forall k :: start <= k <= end ==>
      ws[k].cr.Some? && ws[k].cr.value.deleting && HasAnnotation(ws[k].cr.value.annotations.uninstallWait)
  }

  /** The manifest recorded when waiting begins is still recorded however often the pass is
      repeated or fails. */
  lemma {:induction false} ManifestSurvives(env: Env, ws: seq<World>, es: seq<Event>, start: nat, end: nat)
    requires IsRun(env, ws, es) && Inv(ws[0]) && WaitingThroughout(ws, start, end)
    requires RecordsManifest(ws[start].cr.value.status)
    ensures ws[end].cr.value.status.deployedRelease == ws[start].cr.value.status.deployedRelease
    decreases end
  {
    if start < end {
      ManifestSurvives(env, ws, es, start, end - 1);
      InvAlways(env, ws, es, end - 1);
      assert ws[end - 1 + 1] == Next(env, ws[end - 1], es[end - 1]);
      assert ws[end].cr.Some? && ws[end - 1].cr.Some?;
      if es[end - 1].Pass? {
        DeletionPassKeeps(env, ws[end - 1], es[end - 1].oc);
      }
    }
  }

  /** Nothing is orphaned: when the finalizers go after waiting, every resource of the manifest
      recorded when the waiting began, other than those with a resource policy, is gone. */
  lemma NothingOrphaned(env: Env, ws: seq<World>, es: seq<Event>, start: nat, end: nat)
    requires IsRun(env, ws, es) && Inv(ws[0]) && WaitingThroughout(ws, start, end) && end < |es|
    requires RecordsManifest(ws[start].cr.value.status)
    requires Protected(ws[end]) && !Protected(ws[end + 1])
    ensures var parsed := env.parse(ws[start].cr.value.status.deployedRelease.value.manifest);
            && parsed.Some?
            && AllGone(parsed.value, ws[end + 1].live)
  {
    ManifestSurvives(env, ws, es, start, end);
    StrippedOnlyWhenJustified(env, ws, es, end);
    assert ws[end + 1] == Next(env, ws[end], es[end]);
    StrippingTouchesNoObject(env, ws[end], es[end].oc);
    var cr, oc := ws[end].cr.value, es[end].oc;
    assert Waits(cr) && Justified(env, ws[end], cr, oc);
    var live := if oc.uninstall.Uninstalled? then oc.uninstall.live else ws[end].live;
    assert ws[end + 1].live == live;
  }

  lemma StrippingTouchesNoObject(env: Env, w: World, oc: Outcomes)
    requires Protected(w) && w.cr.value.deleting && !Protected(Reconcile(env, w, oc).world)
    ensures Reconcile(env, w, oc).world.live == if oc.uninstall.Uninstalled? then oc.uninstall.live else w.live
  {
  }

  /** A deletion pass without faults strips the finalizers exactly when nothing must be waited
      for or everything is gone; otherwise it asks to be run again and keeps the manifest. */
  lemma DeletionPassDecides(env: Env, w: World, oc: Outcomes)
    requires Protected(w) && w.cr.value.deleting && !w.cr.value.annotations.reconcilePeriod.BadPeriod?
    requires !oc.getFails && !oc.managerFails && !oc.uninstall.UninstallFails?
    requires oc.statusWrite.Stored? && oc.update.Stored?
    requires !oc.cleanup.discoveryFails && !oc.cleanup.buildFails && !oc.cleanup.deleteFails
             && forall r :: !oc.cleanup.getFails(r)
    requires Waits(w.cr.value) ==> env.parse(w.cr.value.status.deployedRelease.value.manifest).Some?
    ensures var cr, step := w.cr.value, Reconcile(env, w, oc);
            var done := Waits(cr) ==>
              AllGone(env.parse(cr.status.deployedRelease.value.manifest).value, WorldAfterUninstall(w, oc).live);
            && (!Protected(step.world) <==> done)
            && (!done ==> step.result == Requeue(PeriodOf(env, cr.annotations))
                          && step.world.cr.value.status.deployedRelease == cr.status.deployedRelease)
  {
    var cr := w.cr.value;
    if Waits(cr) {
      var files := env.parse(cr.status.deployedRelease.value.manifest).value;
      CleanupSeesAllGone(files, WorldAfterUninstall(w, oc).live, oc.cleanup);
      CheckWithoutFaults(ResourcesOf(Remaining(files)), WorldAfterUninstall(w, oc).live, oc.cleanup);
    }
  }
}
