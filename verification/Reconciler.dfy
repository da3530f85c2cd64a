/** One pass of the Helm reconciler over a custom resource, as a function of the stored world
    and of the outcome of every outside call. */
module Reconciler {
  import opened Wrappers
  import opened HelmStatus
  import opened ReleaseManager
  import opened Values

  datatype Finalizer = UninstallFinalizer | LegacyFinalizer | OtherFinalizer(name: string)

  /** A boolean annotation: absent or empty, parsed, or not a boolean. */
  datatype Flag = Absent | Parsed(value: bool) | Malformed

  predicate HasAnnotation(f: Flag) { f == Parsed(true) }

  predicate ReadBoolWithDefault(f: Flag, fallback: bool) { if f.Parsed? then f.value else fallback }

  datatype Period = NoPeriod | Every(n: int) | BadPeriod

  datatype Annotations = Annotations(uninstallWait: Flag, upgradeForce: Flag, rollbackForce: Flag,
                                     reconcilePeriod: Period)

  datatype Resource = Resource(
    deleting: bool,
    finalizers: set<Finalizer>,
    annotations: Annotations,
    spec: Map,
    status: Status)

  /** What is stored outside the reconciler: the custom resource with its status, the Helm
      releases recorded under its name, and the cluster objects that exist. */
  datatype World = World(cr: Option<Resource>, history: History, live: set<string>)

  /** Fixed for one operator: its default period, its override values, what its chart renders
      to, and how a manifest splits into files. */
  datatype Env = Env(period: int, overrides: Map, render: Map -> string, parse: string -> Option<seq<File>>)

  function Candidate(env: Env, spec: Map): string { env.render(Merge(spec, env.overrides)) }

  /** An update may be stored even though the caller is told it failed. */
  datatype Write = Stored | Rejected | StoredButFailed

  datatype UninstallOutcome =
    | Uninstalled(history: History, live: set<string>)
    | UninstallNotFound
    | UninstallFails(history: History, live: set<string>)

  datatype InstallOutcome =
    | InstalledAs(release: Release, history: History, live: set<string>)
    | InstallFails(history: History, live: set<string>)

  datatype UpgradeOutcome =
    | UpgradedTo(release: Release, history: History, live: set<string>)
    | UpgradeNeedsRollback(history: History, live: set<string>)
    | UpgradeFails(history: History, live: set<string>)

  datatype Outcomes = Outcomes(
    getFails: bool,
    managerFails: bool,
    now: int,
    message: string,
    uninstall: UninstallOutcome,
    cleanup: CleanupFaults,
    liveAfterCleanup: set<string>,
    deletionSeen: bool,
    sync: SyncFaults,
    install: InstallOutcome,
    upgrade: UpgradeOutcome,
    rollbackHistory: History,
    rollbackLive: set<string>,
    reconcileFails: bool,
    liveAfterReconcile: set<string>,
    hookFails: bool,
    update: Write,
    statusWrite: Write,
    lastStatusWrite: Write)

  datatype Call =
    | UninstallCall
    | CleanupCall(manifest: string)
    | SyncCall
    | InstallCall
    | UpgradeCall(force: bool)
    | RollbackCall(force: bool)
    | ReconcileCall
    | UpdateCall
    | StatusCall

  datatype Result = Finished | Requeue(after: int) | Failed

  datatype Step = Step(world: World, result: Result, calls: seq<Call>)

  predicate Guarded(fs: set<Finalizer>) { UninstallFinalizer in fs || LegacyFinalizer in fs }

  function PutStatus(w: World, st: Status, o: Write): World {
    if w.cr.None? || o.Rejected? then w else w.(cr := Some(w.cr.value.(status := st)))
  }

  /** The API server removes a resource under deletion when its last finalizer goes. */
  function PutFinalizers(w: World, fs: set<Finalizer>, o: Write): World {
    if w.cr.None? || o.Rejected? then w
    else if w.cr.value.deleting && fs == {} then w.(cr := None)
    else w.(cr := Some(w.cr.value.(finalizers := fs)))
  }

  function SetCond(st: Status, kind: ConditionType, status: ConditionStatus, reason: Reason, message: string,
                   now: int): Status
  {
    st.(conditions := SetIn(st.conditions, Condition(kind, status, reason, message, 0), now))
  }

  function RemoveCond(st: Status, kind: ConditionType): Status {
    st.(conditions := RemoveFrom(st.conditions, kind))
  }

  /** Records a failure condition, whether or not the status can be written, and fails. */
  function FailWith(w: World, st: Status, kind: ConditionType, reason: Reason, oc: Outcomes, calls: seq<Call>): Step {
    Step(PutStatus(w, SetCond(st, kind, IsTrue, reason, oc.message, oc.now), oc.statusWrite), Failed,
         calls + [StatusCall])
  }

  const WAITING := "Waiting until all resources are deleted."

  function PeriodOf(env: Env, a: Annotations): int {
    if a.reconcilePeriod.Every? then a.reconcilePeriod.n else env.period
  }

  // ---- deletion ----

  function DeletionStatus(cr: Resource, uninstalled: bool, now: int): Status {
    var st := RemoveCond(cr.status, ReleaseFailed);
    if HasAnnotation(cr.annotations.uninstallWait)
      then SetCond(st, Deployed, IsFalse, UninstallSuccessful, WAITING, now)
    else if uninstalled then SetCond(st, Deployed, IsFalse, UninstallSuccessful, "", now).(deployedRelease := None)
    else st
  }

  predicate RecordsManifest(st: Status) { st.deployedRelease.Some? && st.deployedRelease.value.manifest != "" }

  function StripFinalizers(w: World, cr: Resource, oc: Outcomes, calls: seq<Call>): Step {
    var fs := cr.finalizers - {UninstallFinalizer, LegacyFinalizer};
    Step(PutFinalizers(w, fs, oc.update),
         if oc.update.Stored? && oc.deletionSeen then Finished else Failed,
         calls + [UpdateCall])
  }

  function AfterUninstall(env: Env, w: World, cr: Resource, st: Status, oc: Outcomes, calls: seq<Call>): Step {
    if HasAnnotation(cr.annotations.uninstallWait) && RecordsManifest(st) then
      var manifest := st.deployedRelease.value.manifest;
      var calls' := calls + [CleanupCall(manifest)];
      match CleanupOf(env.parse(manifest), w.live, oc.cleanup)
      case CleanupFailed =>
        var st' := SetCond(st, ReleaseFailed, IsTrue, UninstallError, oc.message, oc.now);
        Step(PutStatus(w.(live := oc.liveAfterCleanup), st', oc.lastStatusWrite), Failed, calls' + [StatusCall])
      case DeletedAgain =>
        Step(w.(live := oc.liveAfterCleanup), Requeue(PeriodOf(env, cr.annotations)), calls')
      case AllDeleted => StripFinalizers(w, cr, oc, calls')
    else StripFinalizers(w, cr, oc, calls)
  }

  function WorldAfterUninstall(w: World, oc: Outcomes): World {
    if oc.uninstall.Uninstalled? then w.(history := oc.uninstall.history, live := oc.uninstall.live) else w
  }

  function FinishDeletion(env: Env, w: World, cr: Resource, oc: Outcomes): Step
    requires !oc.uninstall.UninstallFails?
  {
    var st := DeletionStatus(cr, oc.uninstall.Uninstalled?, oc.now);
    var w2 := PutStatus(WorldAfterUninstall(w, oc), st, oc.statusWrite);
    if !oc.statusWrite.Stored? then Step(w2, Failed, [UninstallCall, StatusCall])
    else AfterUninstall(env, w2, cr, st, oc, [UninstallCall, StatusCall])
  }

  function ReconcileDeletion(env: Env, w: World, cr: Resource, oc: Outcomes): Step {
    if !Guarded(cr.finalizers) then Step(w, Finished, [])
    else if oc.uninstall.UninstallFails? then
      FailWith(w.(history := oc.uninstall.history, live := oc.uninstall.live), cr.status, ReleaseFailed, UninstallError,
               oc, [UninstallCall])
    else FinishDeletion(env, w, cr, oc)
  }

  // ---- installation, upgrade, reconciliation ----

  function Notes(r: Release): string { if r.info.Some? then r.info.value.notes else "" }

  function ReasonFor(version: nat): Reason { if version == 1 then InstallSuccessful else UpgradeSuccessful }

  function DeployedStatus(st: Status, r: Release, reason: Reason, now: int): Status {
    SetCond(st, Deployed, IsTrue, reason, Notes(r), now).(deployedRelease := Some(AppRelease(r.name, r.manifest)))
  }

  function Finish(env: Env, w: World, cr: Resource, st: Status, oc: Outcomes, calls: seq<Call>): Step {
    Step(PutStatus(w, st, oc.statusWrite),
         if oc.statusWrite.Stored? then Requeue(PeriodOf(env, cr.annotations)) else Failed,
         calls + [StatusCall])
  }

  function InstallStage(env: Env, w: World, cr: Resource, st: Status, oc: Outcomes): Step {
    if oc.install.InstallFails? then
      FailWith(w.(history := oc.install.history, live := oc.install.live), st, ReleaseFailed, InstallError, oc,
               [SyncCall, InstallCall])
    else
      var r := oc.install.release;
      var w1 := w.(history := oc.install.history, live := oc.install.live);
      var w2 := PutFinalizers(w1, cr.finalizers + {UninstallFinalizer}, oc.update);
      if !oc.update.Stored? || oc.hookFails then Step(w2, Failed, [SyncCall, InstallCall, UpdateCall])
      else
        Finish(env, w2, cr, DeployedStatus(RemoveCond(st, ReleaseFailed), r, InstallSuccessful, oc.now), oc,
               [SyncCall, InstallCall, UpdateCall])
  }

  function UpgradeStage(env: Env, w: World, cr: Resource, st: Status, oc: Outcomes, calls: seq<Call>): Step {
    var calls1 := calls + [UpgradeCall(HasAnnotation(cr.annotations.upgradeForce))];
    match oc.upgrade
    case UpgradeNeedsRollback(_, _) =>
      FailWith(w.(history := oc.rollbackHistory, live := oc.rollbackLive), st, ReleaseFailed, UpgradeError, oc,
               calls1 + [RollbackCall(ReadBoolWithDefault(cr.annotations.rollbackForce, true))])
    case UpgradeFails(history, live) =>
      FailWith(w.(history := history, live := live), st, ReleaseFailed, UpgradeError, oc, calls1)
    case UpgradedTo(r, history, live) =>
      var w1 := w.(history := history, live := live);
      if oc.hookFails then Step(w1, Failed, calls1)
      else Finish(env, w1, cr, DeployedStatus(RemoveCond(st, ReleaseFailed), r, UpgradeSuccessful, oc.now), oc, calls1)
  }

  function ReconcileStage(env: Env, w: World, cr: Resource, st: Status, deployed: Release, oc: Outcomes,
                          calls: seq<Call>): Step
  {
    var st1 := RemoveCond(st, ReleaseFailed);
    var w1 := w.(live := oc.liveAfterReconcile);
    var calls1 := calls + [ReconcileCall];
    if oc.reconcileFails then FailWith(w1, st1, Irreconcilable, ReconcileError, oc, calls1)
    else if oc.hookFails then Step(w1, Failed, calls1)
    else
      var st2 := DeployedStatus(RemoveCond(st1, Irreconcilable), deployed, ReasonFor(deployed.version), oc.now);
      if st2 == cr.status then Step(w1, Requeue(PeriodOf(env, cr.annotations)), calls1)
      else Finish(env, w1, cr, st2, oc, calls1)
  }

  function InstalledStage(env: Env, w: World, cr: Resource, st: Status, deployed: Release, upgrade: bool,
                          oc: Outcomes): Step
  {
    var addFinalizer := !Guarded(cr.finalizers);
    var w1 := if addFinalizer then PutFinalizers(w, cr.finalizers + {UninstallFinalizer}, oc.update) else w;
    var calls := if addFinalizer then [SyncCall, UpdateCall] else [SyncCall];
    if addFinalizer && !oc.update.Stored? then Step(w1, Failed, calls)
    else if upgrade then UpgradeStage(env, w1, cr, st, oc, calls)
    else ReconcileStage(env, w1, cr, st, deployed, oc, calls)
  }

  function ReconcileLive(env: Env, w: World, cr: Resource, oc: Outcomes): Step {
    var st := SetCond(cr.status, Initialized, IsTrue, NoReason, "", oc.now);
    match SyncOf(w.history, Candidate(env, cr.spec), oc.sync)
    case SyncFailed(history) =>
      FailWith(w.(history := history), st, Irreconcilable, ReconcileError, oc, [SyncCall])
    case Synced(history, deployed, upgrade) =>
      var w1 := w.(history := history);
      var st1 := RemoveCond(st, Irreconcilable);
      if deployed.None? then InstallStage(env, w1, cr, st1, oc)
      else InstalledStage(env, w1, cr, st1, deployed.value, upgrade, oc)
  }

  function Reconcile(env: Env, w: World, oc: Outcomes): Step {
    if oc.getFails then Step(w, Failed, [])
    else if w.cr.None? then Step(w, Finished, [])
    else
      var cr := w.cr.value;
      if oc.managerFails || cr.annotations.reconcilePeriod.BadPeriod? then Step(w, Failed, [])
      else if cr.deleting then ReconcileDeletion(env, w, cr, oc)
      else ReconcileLive(env, w, cr, oc)
  }
}
