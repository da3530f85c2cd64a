/** What one pass of the Helm reconciler calls, leaves behind, records and answers, branch by
    branch, in terms of what is stored before it and of the outcomes of the calls. */
module PassOutcomes {
  import opened Wrappers
  import opened HelmStatus
  import opened ReleaseManager
  import opened Values
  import opened Reconciler
  import opened ReconcilerRuns

  // ---- what a pass goes by ----

  /** Everything needed to begin can be read: the resource, its manager and its period. */
  predicate CanBegin(w: World, oc: Outcomes) {
    w.cr.Some? && !oc.getFails && !oc.managerFails && w.cr.value.annotations.reconcilePeriod != BadPeriod
  }

  function AskedPeriod(env: Env, cr: Resource): int {
    match cr.annotations.reconcilePeriod
    case Every(n) => n
    case _ => env.period
  }

  predicate HasUninstallFinalizer(cr: Resource) {
    exists f :: f in cr.finalizers && (f == UninstallFinalizer || f == LegacyFinalizer)
  }

  /** The manifest that rendering the chart now would give. */
  function Wanted(env: Env, cr: Resource): string { env.render(Merge(cr.spec, env.overrides)) }

  predicate IsStale(r: Release) { r.info.Some? && r.info.value.state == StateOther }

  predicate IsUp(r: Release) { r.info.Some? && r.info.value.state == StateDeployed }

  ghost predicate SomeUp(h: History) { exists r :: r in h && IsUp(r) }

  /** `d` is a deployed release of the highest version. */
  ghost predicate IsNewestUp(h: History, d: Release)
  {
    d in h && IsUp(d) && forall r :: r in h && IsUp(r) ==> r.version <= d.version
  }

  /** Synchronising fails: the history, a stale record, the deployed release or the chart. */
  ghost predicate SyncFails(h: History, faults: SyncFaults) {
    || faults.historyFails
    || (exists r :: r in h && IsStale(r) && faults.delete(r) == DeleteFails)
    || faults.deployedFails
    || (SomeUp(h) && faults.candidateFails)
  }

  lemma {:induction false} CleanFails(h: History, faults: SyncFaults)
    ensures CleanHistory(h, faults).0 <==> forall r :: r in h && IsStale(r) ==> faults.delete(r) != DeleteFails
  {
    if h != [] {
      assert h == [h[0]] + h[1..];
      CleanFails(h[1..], faults);
    }
  }

  /** Synchronising: when it fails, what is deployed, whether that must be upgraded, and which
      records are left. */
  lemma {:induction false} SyncOutcome(h: History, candidate: string, faults: SyncFaults)
    ensures var s := SyncOf(h, candidate, faults);
            && (s.SyncFailed? <==> SyncFails(h, faults))
            && (s.Synced? ==>
                  && (s.deployed.Some? <==> SomeUp(h))
                  && (s.deployed.Some? ==> IsNewestUp(h, s.deployed.value))
                  && (s.upgradeRequired <==> s.deployed.Some? && s.deployed.value.manifest != candidate)
                  && forall r :: r in s.history <==> r in h && !IsStale(r))
  {
    CleanFails(h, faults);
    CleanHistoryKeepsDeployed(h, faults);
    var c := CleanHistory(h, faults).1;
    assert forall r :: Stale(r) <==> IsStale(r);
    assert forall r :: IsDeployed(r) <==> IsUp(r);
    if DeployedRelease(h).None? { assert !SomeUp(h); }
  }

  /** An override wins over the resource's own value; where there is none the value stays. */
  lemma {:induction false} OverridesWin(env: Env, cr: Resource, path: seq<string>)
    requires path != []
    ensures exists values: Map ::
              && Candidate(env, cr.spec) == env.render(values)
              && (forall text :: At(Tree(env.overrides), path) == Some(Atom(text)) ==>
                  At(Tree(values), path) == Some(Atom(text)))
              && (path[0] !in env.overrides ==> At(Tree(values), path) == At(Tree(cr.spec), path))
  {
    var values := Merge(cr.spec, env.overrides);
    MergeAlongPath(cr.spec, env.overrides, path);
    assert Candidate(env, cr.spec) == env.render(values);
  }

  // ---- the status stored afterwards ----

  ghost predicate Shows(st: Status, kind: ConditionType, status: ConditionStatus, reason: Reason, message: string) {
    var c := Find(st.conditions, kind);
    c.Some? && c.value.status == status && c.value.reason == reason && c.value.message == message
  }

  ghost predicate Lacks(st: Status, kind: ConditionType) { Find(st.conditions, kind) == None }

  ghost predicate Keeps(st: Status, cr: Resource, kind: ConditionType) {
    Find(st.conditions, kind) == Find(cr.status.conditions, kind)
  }

  /** The status stored in the end is the old one if the write is rejected. */
  ghost predicate Stores(w: World, cr: Resource, o: Write, wanted: Status -> bool) {
    w.cr.Some? && if o == Rejected then w.cr.value.status == cr.status else wanted(w.cr.value.status)
  }

  ghost predicate SameStatus(w: World, cr: Resource) { w.cr.Some? && w.cr.value.status == cr.status }

  /** Installing or upgrading has failed. */
  ghost predicate ReleaseFailedIs(cr: Resource, st: Status, reason: Reason, message: string) {
    && Shows(st, ReleaseFailed, IsTrue, reason, message)
    && Lacks(st, Irreconcilable) && Shows(st, Initialized, IsTrue, NoReason, "") && Keeps(st, cr, Deployed)
    && st.deployedRelease == cr.status.deployedRelease
  }

  /** Synchronising has failed. */
  ghost predicate SyncFailedIs(cr: Resource, st: Status, message: string) {
    && Shows(st, Irreconcilable, IsTrue, ReconcileError, message)
    && Shows(st, Initialized, IsTrue, NoReason, "") && Keeps(st, cr, Deployed) && Keeps(st, cr, ReleaseFailed)
    && st.deployedRelease == cr.status.deployedRelease
  }

  /** Reconciling has failed. */
  ghost predicate ReconcileFailedIs(cr: Resource, st: Status, message: string) {
    && Shows(st, Irreconcilable, IsTrue, ReconcileError, message)
    && Shows(st, Initialized, IsTrue, NoReason, "") && Keeps(st, cr, Deployed) && Lacks(st, ReleaseFailed)
    && st.deployedRelease == cr.status.deployedRelease
  }

  /** The release is deployed and nothing is wrong. */
  ghost predicate DeployedIs(st: Status, r: Release, reason: Reason) {
    && Shows(st, Deployed, IsTrue, reason, if r.info.Some? then r.info.value.notes else "")
    && Lacks(st, ReleaseFailed) && Lacks(st, Irreconcilable) && Shows(st, Initialized, IsTrue, NoReason, "")
    && st.deployedRelease == Some(AppRelease(r.name, r.manifest))
  }

  // ---- passes that end early ----

  lemma {:induction false} EarlyEnd(env: Env, w: World, oc: Outcomes)
    requires !CanBegin(w, oc)
    ensures Reconcile(env, w, oc) == Step(w, if !oc.getFails && w.cr.None? then Finished else Failed, [])
  {
  }

  /** The pass over a live resource in which synchronising fails. */
  lemma {:induction false} SyncFailurePass(env: Env, w: World, oc: Outcomes)
    requires CanBegin(w, oc) && !w.cr.value.deleting && DistinctKinds(w.cr.value.status.conditions)
    requires SyncFails(w.history, oc.sync)
    ensures var cr, step := w.cr.value, Reconcile(env, w, oc);
            && step.calls == [SyncCall, StatusCall] && step.result == Failed
            && step.world.live == w.live && DeployedRelease(step.world.history) == DeployedRelease(w.history)
            && step.world.cr.Some? && step.world.cr.value.finalizers == cr.finalizers
            && Stores(step.world, cr, oc.statusWrite, st => SyncFailedIs(cr, st, oc.message))
  {
    var cr := w.cr.value;
    SyncOutcome(w.history, Wanted(env, cr), oc.sync);
    CleanHistoryKeepsDeployed(w.history, oc.sync);
    SyncFailedStatusShows(cr, oc.message, oc.now);
  }

  lemma {:induction false} SyncFailedStatusShows(cr: Resource, message: string, now: int)
    requires DistinctKinds(cr.status.conditions)
    ensures var st := SetCond(cr.status, Initialized, IsTrue, NoReason, "", now);
            SyncFailedIs(cr, SetCond(st, Irreconcilable, IsTrue, ReconcileError, message, now), message)
  {
    var st := SetCond(cr.status, Initialized, IsTrue, NoReason, "", now);
    SetEffect(cr.status, Initialized, IsTrue, NoReason, "", now);
    SetEffect(st, Irreconcilable, IsTrue, ReconcileError, message, now);
  }

  // ---- installation ----

  ghost predicate Installs(w: World, oc: Outcomes) {
    CanBegin(w, oc) && !w.cr.value.deleting && !SyncFails(w.history, oc.sync) && !SomeUp(w.history)
  }

  lemma {:induction false} InstallPass(env: Env, w: World, oc: Outcomes)
    requires Installs(w, oc)
    ensures var cr, step := w.cr.value, Reconcile(env, w, oc);
            && step.world.history == oc.install.history && step.world.live == oc.install.live
            && step.world.cr.Some?
            && match oc.install
               case InstallFails(_, _) =>
                 step.calls == [SyncCall, InstallCall, StatusCall] && step.result == Failed
                 && step.world.cr.value.finalizers == cr.finalizers
               case InstalledAs(_, _, _) =>
                 var goesOn := oc.update == Stored && !oc.hookFails;
                 && step.calls == [SyncCall, InstallCall, UpdateCall] + (if goesOn then [StatusCall] else [])
                 && step.result == (if goesOn && oc.statusWrite == Stored then Requeue(AskedPeriod(env, cr))
                                    else Failed)
                 && step.world.cr.value.finalizers
                    == cr.finalizers + if oc.update == Rejected then {} else {UninstallFinalizer}
  {
    SyncOutcome(w.history, Wanted(env, w.cr.value), oc.sync);
    assert [SyncCall, InstallCall, UpdateCall] + [] == [SyncCall, InstallCall, UpdateCall];
  }

  lemma {:induction false} InstallRecords(env: Env, w: World, oc: Outcomes)
    requires Installs(w, oc) && DistinctKinds(w.cr.value.status.conditions)
    ensures var cr, w' := w.cr.value, Reconcile(env, w, oc).world;
            match oc.install
            case InstallFails(_, _) => Stores(w', cr, oc.statusWrite,
                                              st => ReleaseFailedIs(cr, st, InstallError, oc.message))
            case InstalledAs(r, _, _) =>
              if oc.update != Stored || oc.hookFails then SameStatus(w', cr)
              else Stores(w', cr, oc.statusWrite, st => DeployedIs(st, r, InstallSuccessful))
  {
    var cr := w.cr.value;
    SyncOutcome(w.history, Wanted(env, cr), oc.sync);
    if oc.install.InstallFails? {
      FailedStatusShows(cr, InstallError, oc.message, oc.now);
    } else {
      DeployedStatusShows(cr, oc.install.release, InstallSuccessful, oc.now);
    }
  }

  lemma {:induction false} BeforeStageShows(cr: Resource, now: int)
    requires DistinctKinds(cr.status.conditions)
    ensures var st := BeforeStage(cr, now);
            && DistinctKinds(st.conditions) && st.deployedRelease == cr.status.deployedRelease
            && Find(st.conditions, Irreconcilable) == None
            && Find(st.conditions, Deployed) == Find(cr.status.conditions, Deployed)
            && Find(st.conditions, ReleaseFailed) == Find(cr.status.conditions, ReleaseFailed)
            && (var c := Find(st.conditions, Initialized);
                c.Some? && c.value.status == IsTrue && c.value.reason == NoReason && c.value.message == "")
  {
    var st := SetCond(cr.status, Initialized, IsTrue, NoReason, "", now);
    SetEffect(cr.status, Initialized, IsTrue, NoReason, "", now);
    RemoveEffect(st, Irreconcilable);
  }

  /** What the stages write when they are reached with `st`: a failed release, or a success. */
  lemma {:induction false} FailedStatusShows(cr: Resource, reason: Reason, message: string, now: int)
    requires DistinctKinds(cr.status.conditions)
    ensures var st := SetCond(BeforeStage(cr, now), ReleaseFailed, IsTrue, reason, message, now);
            ReleaseFailedIs(cr, st, reason, message)
  {
    BeforeStageShows(cr, now);
    SetEffect(BeforeStage(cr, now), ReleaseFailed, IsTrue, reason, message, now);
  }

  lemma {:induction false} DeployedStatusShows(cr: Resource, r: Release, reason: Reason, now: int)
    requires DistinctKinds(cr.status.conditions)
    ensures var st := RemoveCond(BeforeStage(cr, now), ReleaseFailed);
            && DeployedIs(DeployedStatus(st, r, reason, now), r, reason)
            && DeployedIs(DeployedStatus(RemoveCond(st, Irreconcilable), r, reason, now), r, reason)
  {
    var st := BeforeStage(cr, now);
    var st1 := RemoveCond(st, ReleaseFailed);
    BeforeStageShows(cr, now);
    RemoveEffect(st, ReleaseFailed);
    RemoveEffect(st1, Irreconcilable);
    SetEffect(st1, Deployed, IsTrue, reason, Notes(r), now);
    SetEffect(RemoveCond(st1, Irreconcilable), Deployed, IsTrue, reason, Notes(r), now);
  }

  // ---- a deployed release ----

  /** A release is deployed, `d` is the one found, and it is or becomes protected. */
  ghost predicate Maintains(env: Env, w: World, oc: Outcomes, d: Release) {
    && CanBegin(w, oc) && !w.cr.value.deleting && !SyncFails(w.history, oc.sync)
    && DeployedRelease(w.history) == Some(d)
    && (HasUninstallFinalizer(w.cr.value) || oc.update == Stored)
  }

  /** The calls up to the upgrade or reconciliation. */
  function FirstCalls(cr: Resource): seq<Call> {
    if HasUninstallFinalizer(cr) then [SyncCall] else [SyncCall, UpdateCall]
  }

  lemma {:induction false} FoundDeployed(env: Env, w: World, oc: Outcomes)
    requires CanBegin(w, oc) && !w.cr.value.deleting && !SyncFails(w.history, oc.sync)
    ensures var s := SyncOf(w.history, Candidate(env, w.cr.value.spec), oc.sync);
            && s.Synced? && s.deployed == DeployedRelease(w.history)
            && (s.deployed.Some? ==> IsNewestUp(w.history, s.deployed.value))
            && (s.upgradeRequired <==> s.deployed.Some? && s.deployed.value.manifest != Wanted(env, w.cr.value))
            && forall r :: r in s.history <==> r in w.history && !IsStale(r)
  {
    SyncOutcome(w.history, Wanted(env, w.cr.value), oc.sync);
    CleanHistoryKeepsDeployed(w.history, oc.sync);
  }

  /** The world once the release is protected. */
  function Protecting(env: Env, w: World, oc: Outcomes): World
    requires w.cr.Some?
  {
    var cr := w.cr.value;
    var s := SyncOf(w.history, Candidate(env, cr.spec), oc.sync);
    var w1 := w.(history := s.history);
    if HasUninstallFinalizer(cr) then w1 else w1.(cr := Some(cr.(finalizers := cr.finalizers + {UninstallFinalizer})))
  }

  function BeforeStage(cr: Resource, now: int): Status {
    RemoveCond(SetCond(cr.status, Initialized, IsTrue, NoReason, "", now), Irreconcilable)
  }

  /** Which stage a pass over a deployed release reaches, and with what. */
  lemma {:induction false} ReachesStage(env: Env, w: World, oc: Outcomes, d: Release)
    requires Maintains(env, w, oc, d)
    ensures var cr, w1 := w.cr.value, Protecting(env, w, oc);
            && w1.cr.Some? && w1.cr.value.status == cr.status && w1.live == w.live
            && (forall r :: r in w1.history <==> r in w.history && !IsStale(r))
            && Reconcile(env, w, oc)
               == if d.manifest != Wanted(env, cr)
                 then UpgradeStage(env, w1, cr, BeforeStage(cr, oc.now), oc, FirstCalls(cr))
                  else ReconcileStage(env, w1, cr, BeforeStage(cr, oc.now), d, oc, FirstCalls(cr))
  {
    FoundDeployed(env, w, oc);
  }

  /** Without protection for it nothing is done to a deployed release. */
  lemma {:induction false} UnprotectedPass(env: Env, w: World, oc: Outcomes)
    requires CanBegin(w, oc) && !w.cr.value.deleting && !SyncFails(w.history, oc.sync)
             && DeployedRelease(w.history).Some?
    requires !HasUninstallFinalizer(w.cr.value) && oc.update != Stored
    ensures var cr, step := w.cr.value, Reconcile(env, w, oc);
            && step.calls == [SyncCall, UpdateCall] && step.result == Failed && step.world.live == w.live
            && (forall r :: r in step.world.history <==> r in w.history && !IsStale(r))
            && SameStatus(step.world, cr)
            && step.world.cr.value.finalizers == cr.finalizers + if oc.update == Rejected then {}
              else {UninstallFinalizer}
  {
    FoundDeployed(env, w, oc);
  }

  // ---- upgrade ----

  ghost predicate Upgrades(env: Env, w: World, oc: Outcomes, d: Release) {
    Maintains(env, w, oc, d) && d.manifest != Wanted(env, w.cr.value)
  }

  /** A required upgrade is called once, forced exactly if the annotation says so. If it must be
      rolled back that is called right after it, forced unless the annotation says otherwise, and
      the storage and objects left are those of the rollback. */
  lemma {:induction false} UpgradePass(env: Env, w: World, oc: Outcomes, d: Release)
    requires Upgrades(env, w, oc, d)
    ensures var cr, step := w.cr.value, Reconcile(env, w, oc);
            var upgraded := FirstCalls(cr) + [UpgradeCall(cr.annotations.upgradeForce == Parsed(true))];
            && step.world.cr.Some?
            && match oc.upgrade
               case UpgradeNeedsRollback(_, _) =>
                 && step.calls == upgraded + [RollbackCall(cr.annotations.rollbackForce != Parsed(false)), StatusCall]
                 && step.world.history == oc.rollbackHistory && step.world.live == oc.rollbackLive
                 && step.result == Failed
               case UpgradeFails(history, live) =>
                 && step.calls == upgraded + [StatusCall]
                 && step.world.history == history && step.world.live == live && step.result == Failed
               case UpgradedTo(r, history, live) =>
                 && step.calls == upgraded + (if oc.hookFails then [] else [StatusCall])
                 && step.world.history == history && step.world.live == live
                 && step.result == (if !oc.hookFails && oc.statusWrite == Stored then Requeue(AskedPeriod(env, cr))
                                    else Failed)
  {
    ReachesStage(env, w, oc, d);
    var calls1 := FirstCalls(w.cr.value) + [UpgradeCall(w.cr.value.annotations.upgradeForce == Parsed(true))];
    var rollback := RollbackCall(w.cr.value.annotations.rollbackForce != Parsed(false));
    assert calls1 + [rollback, StatusCall] == (calls1 + [rollback]) + [StatusCall];
    assert calls1 + [] == calls1;
  }

  lemma {:induction false} UpgradeRecords(env: Env, w: World, oc: Outcomes, d: Release)
    requires Upgrades(env, w, oc, d) && DistinctKinds(w.cr.value.status.conditions)
    ensures var cr, w' := w.cr.value, Reconcile(env, w, oc).world;
            match oc.upgrade
            case UpgradedTo(r, _, _) =>
              if oc.hookFails then SameStatus(w', cr)
              else Stores(w', cr, oc.statusWrite, st => DeployedIs(st, r, UpgradeSuccessful))
            case _ => Stores(w', cr, oc.statusWrite, st => ReleaseFailedIs(cr, st, UpgradeError, oc.message))
  {
    ReachesStage(env, w, oc, d);
    if oc.upgrade.UpgradedTo? {
      DeployedStatusShows(w.cr.value, oc.upgrade.release, UpgradeSuccessful, oc.now);
    } else {
      FailedStatusShows(w.cr.value, UpgradeError, oc.message, oc.now);
    }
  }

  // ---- reconciliation ----

  ghost predicate Reconciles(env: Env, w: World, oc: Outcomes, d: Release) {
    Maintains(env, w, oc, d) && d.manifest == Wanted(env, w.cr.value)
  }

  lemma {:induction false} ReconcilePass(env: Env, w: World, oc: Outcomes, d: Release)
    requires Reconciles(env, w, oc, d)
    ensures var cr, step := w.cr.value, Reconcile(env, w, oc);
            var reconciled := FirstCalls(cr) + [ReconcileCall];
            && step.world.cr.Some? && step.world.live == oc.liveAfterReconcile
            && (forall r :: r in step.world.history <==> r in w.history && !IsStale(r))
            && (oc.reconcileFails ==> step.calls == reconciled + [StatusCall] && step.result == Failed)
            && (!oc.reconcileFails && oc.hookFails ==> step.calls == reconciled && step.result == Failed)
            && (!oc.reconcileFails && !oc.hookFails ==>
                  || (step.calls == reconciled && SameStatus(step.world, cr)
                      && step.result == Requeue(AskedPeriod(env, cr)))
                  || (step.calls == reconciled + [StatusCall]
                      && step.result == if oc.statusWrite == Stored then Requeue(AskedPeriod(env, cr)) else Failed))
  {
    ReachesStage(env, w, oc, d);
  }

  lemma {:induction false} ReconcileRecords(env: Env, w: World, oc: Outcomes, d: Release)
    requires Reconciles(env, w, oc, d) && DistinctKinds(w.cr.value.status.conditions)
    ensures var cr, w' := w.cr.value, Reconcile(env, w, oc).world;
            if oc.reconcileFails then Stores(w', cr, oc.statusWrite, st => ReconcileFailedIs(cr, st, oc.message))
            else if oc.hookFails then SameStatus(w', cr)
            else Stores(w', cr, oc.statusWrite,
                        st => DeployedIs(st, d, if d.version == 1 then InstallSuccessful else UpgradeSuccessful))
  {
    ReachesStage(env, w, oc, d);
    if oc.reconcileFails {
      ReconcileFailedStatusShows(w.cr.value, oc.message, oc.now);
    } else {
      DeployedStatusShows(w.cr.value, d, ReasonFor(d.version), oc.now);
    }
  }

  lemma {:induction false} ReconcileFailedStatusShows(cr: Resource, message: string, now: int)
    requires DistinctKinds(cr.status.conditions)
    ensures var st := RemoveCond(BeforeStage(cr, now), ReleaseFailed);
            ReconcileFailedIs(cr, SetCond(st, Irreconcilable, IsTrue, ReconcileError, message, now), message)
  {
    var st := BeforeStage(cr, now);
    var st1 := RemoveCond(st, ReleaseFailed);
    BeforeStageShows(cr, now);
    RemoveEffect(st, ReleaseFailed);
    SetEffect(st1, Irreconcilable, IsTrue, ReconcileError, message, now);
  }

  // ---- deletion ----

  /** The uninstall finalizers are there to be acted on. */
  ghost predicate Deletes(w: World, oc: Outcomes) {
    CanBegin(w, oc) && w.cr.value.deleting && HasUninstallFinalizer(w.cr.value)
  }

  predicate AsksToWait(cr: Resource) { cr.annotations.uninstallWait == Parsed(true) }

  lemma {:induction false} NothingToDelete(env: Env, w: World, oc: Outcomes)
    requires CanBegin(w, oc) && w.cr.value.deleting && !HasUninstallFinalizer(w.cr.value)
    ensures Reconcile(env, w, oc) == Step(w, Finished, [])
  {
  }

  lemma {:induction false} UninstallFailurePass(env: Env, w: World, oc: Outcomes)
    requires Deletes(w, oc) && oc.uninstall.UninstallFails? && DistinctKinds(w.cr.value.status.conditions)
    ensures var cr, step := w.cr.value, Reconcile(env, w, oc);
            && step.calls == [UninstallCall, StatusCall] && step.result == Failed
            && step.world.history == oc.uninstall.history && step.world.live == oc.uninstall.live
            && Stores(step.world, cr, oc.statusWrite,
                      st => Shows(st, ReleaseFailed, IsTrue, UninstallError, oc.message) && Keeps(st, cr, Deployed)
                            && Keeps(st, cr, Initialized) && Keeps(st, cr, Irreconcilable)
                            && st.deployedRelease == cr.status.deployedRelease)
  {
    SetEffect(w.cr.value.status, ReleaseFailed, IsTrue, UninstallError, oc.message, oc.now);
  }

  /** The status that says the release is uninstalled: while waiting is asked for, that it is
      waited for, and the manifest stays recorded; otherwise nothing is recorded any more. */
  ghost predicate UninstalledIs(cr: Resource, st: Status, found: bool) {
    && Lacks(st, ReleaseFailed) && Keeps(st, cr, Initialized) && Keeps(st, cr, Irreconcilable)
    && (if AsksToWait(cr) then
          && Shows(st, Deployed, IsFalse, UninstallSuccessful, "Waiting until all resources are deleted.")
          && st.deployedRelease == cr.status.deployedRelease
        else if found then Shows(st, Deployed, IsFalse, UninstallSuccessful, "") && st.deployedRelease == None
        else Keeps(st, cr, Deployed) && st.deployedRelease == cr.status.deployedRelease)
  }

  lemma {:induction false} UninstalledStatusShows(cr: Resource, found: bool, now: int)
    requires DistinctKinds(cr.status.conditions)
    ensures var st := DeletionStatus(cr, found, now); UninstalledIs(cr, st, found) && DistinctKinds(st.conditions)
  {
    var removed := RemoveCond(cr.status, ReleaseFailed);
    RemoveEffect(cr.status, ReleaseFailed);
    SetEffect(removed, Deployed, IsFalse, UninstallSuccessful, WAITING, now);
    SetEffect(removed, Deployed, IsFalse, UninstallSuccessful, "", now);
  }

  /** The manifest whose objects are waited for. */
  function AwaitedManifest(cr: Resource): Option<string> {
    if AsksToWait(cr) && cr.status.deployedRelease.Some? && cr.status.deployedRelease.value.manifest != ""
    then Some(cr.status.deployedRelease.value.manifest) else None
  }

  /** The objects there are after uninstalling. */
  function LiveLeft(w: World, oc: Outcomes): set<string> {
    if oc.uninstall.Uninstalled? then oc.uninstall.live else w.live
  }

  /** What has been stored when the status after uninstalling could not be, or not be seen to be,
      written. */
  lemma {:induction false} UninstalledUnrecorded(env: Env, w: World, oc: Outcomes)
    requires Deletes(w, oc) && !oc.uninstall.UninstallFails? && oc.statusWrite != Stored
    requires DistinctKinds(w.cr.value.status.conditions)
    ensures var cr, step := w.cr.value, Reconcile(env, w, oc);
            && step.calls == [UninstallCall, StatusCall] && step.result == Failed && step.world.live == LiveLeft(w, oc)
            && step.world.history == (if oc.uninstall.Uninstalled? then oc.uninstall.history else w.history)
            && Stores(step.world, cr, oc.statusWrite, st => UninstalledIs(cr, st, oc.uninstall.Uninstalled?))
  {
    UninstalledStatusShows(w.cr.value, oc.uninstall.Uninstalled?, oc.now);
  }

  /** Uninstalled, and waiting is over or not asked for: the uninstall finalizers are removed. */
  lemma {:induction false} StrippingPass(env: Env, w: World, oc: Outcomes)
    requires Deletes(w, oc) && !oc.uninstall.UninstallFails? && oc.statusWrite == Stored
    requires DistinctKinds(w.cr.value.status.conditions)
    requires var m := AwaitedManifest(w.cr.value);
             m.Some? ==> CleanupOf(env.parse(m.value), LiveLeft(w, oc), oc.cleanup) == AllDeleted
    ensures var cr, step := w.cr.value, Reconcile(env, w, oc);
            var m := AwaitedManifest(cr);
            && step.calls == [UninstallCall, StatusCall] + (if m.Some? then [CleanupCall(m.value)] else [])
              + [UpdateCall]
            && step.result == (if oc.update == Stored && oc.deletionSeen then Finished else Failed)
            && step.world.live == LiveLeft(w, oc)
            && step.world.history == (if oc.uninstall.Uninstalled? then oc.uninstall.history else w.history)
            && (step.world.cr == None
                <==> oc.update != Rejected && forall f :: f in cr.finalizers ==>
                  f == UninstallFinalizer || f == LegacyFinalizer)
            && (step.world.cr.Some? ==>
                  && UninstalledIs(cr, step.world.cr.value.status, oc.uninstall.Uninstalled?)
                  && step.world.cr.value.finalizers
                     == cr.finalizers - if oc.update == Rejected then {} else {UninstallFinalizer, LegacyFinalizer})
  {
    var cr := w.cr.value;
    UninstalledStatusShows(cr, oc.uninstall.Uninstalled?, oc.now);
    OnlyUninstallFinalizers(cr.finalizers);
    assert cr.finalizers - {} == cr.finalizers;
    assert [UninstallCall, StatusCall] + [] + [UpdateCall] == [UninstallCall, StatusCall] + [UpdateCall];
  }

  lemma {:induction false} OnlyUninstallFinalizers(fs: set<Finalizer>)
    ensures fs - {UninstallFinalizer, LegacyFinalizer} == {}
       <==> forall f :: f in fs ==> f == UninstallFinalizer || f == LegacyFinalizer
  {
    var others := fs - {UninstallFinalizer, LegacyFinalizer};
    assert forall f :: f in others <==> f in fs && f != UninstallFinalizer && f != LegacyFinalizer;
    if others != {} {
      var f :| f in others;
    } else {
      assert forall f :: f in fs ==> f !in others ==> f == UninstallFinalizer || f == LegacyFinalizer;
    }
  }

  /** Uninstalled, and there is still something to wait for, or it could not be seen. */
  lemma {:induction false} WaitingPass(env: Env, w: World, oc: Outcomes)
    requires Deletes(w, oc) && !oc.uninstall.UninstallFails? && oc.statusWrite == Stored
    requires DistinctKinds(w.cr.value.status.conditions) && AwaitedManifest(w.cr.value).Some?
    requires CleanupOf(env.parse(AwaitedManifest(w.cr.value).value), LiveLeft(w, oc), oc.cleanup) != AllDeleted
    ensures var cr, step := w.cr.value, Reconcile(env, w, oc);
            var fails := CleanupOf(env.parse(AwaitedManifest(cr).value), LiveLeft(w, oc), oc.cleanup) == CleanupFailed;
            && step.calls == [UninstallCall, StatusCall, CleanupCall(AwaitedManifest(cr).value)]
                             + (if fails then [StatusCall] else [])
            && step.result == (if fails then Failed else Requeue(AskedPeriod(env, cr)))
            && step.world.live == oc.liveAfterCleanup
            && step.world.cr.Some? && step.world.cr.value.finalizers == cr.finalizers
            && var st := step.world.cr.value.status;
               if fails && oc.lastStatusWrite != Rejected then
                 && Shows(st, ReleaseFailed, IsTrue, UninstallError, oc.message)
                 && Shows(st, Deployed, IsFalse, UninstallSuccessful, "Waiting until all resources are deleted.")
                 && st.deployedRelease == cr.status.deployedRelease
               else UninstalledIs(cr, st, oc.uninstall.Uninstalled?)
  {
    var cr := w.cr.value;
    var st := DeletionStatus(cr, oc.uninstall.Uninstalled?, oc.now);
    UninstalledStatusShows(cr, oc.uninstall.Uninstalled?, oc.now);
    SetEffect(st, ReleaseFailed, IsTrue, UninstallError, oc.message, oc.now);
    var m := CleanupCall(AwaitedManifest(cr).value);
    assert [UninstallCall, StatusCall] + [m] == [UninstallCall, StatusCall, m];
    assert [UninstallCall, StatusCall, m] + [] == [UninstallCall, StatusCall, m];
  }

  // ---- what is called only when ----

  /** The call belongs to the branch the pass takes. */
  ghost predicate Belongs(env: Env, w: World, oc: Outcomes, c: Call) {
    match c
    case InstallCall => Installs(w, oc)
    case UpgradeCall(_) => SomeUpgrade(env, w, oc)
    case RollbackCall(_) => SomeUpgrade(env, w, oc) && oc.upgrade.UpgradeNeedsRollback?
    case ReconcileCall => exists d :: Reconciles(env, w, oc, d)
    case UninstallCall => Deletes(w, oc)
    case CleanupCall(_) => Deletes(w, oc)
    case _ => CanBegin(w, oc)
  }

  ghost predicate SomeUpgrade(env: Env, w: World, oc: Outcomes) { exists d :: Upgrades(env, w, oc, d) }

  lemma {:induction false} UpgradeCallsBelong(env: Env, w: World, oc: Outcomes, d: Release, c: Call)
    requires Upgrades(env, w, oc, d) && c in Reconcile(env, w, oc).calls
    ensures Belongs(env, w, oc, c)
  {
    UpgradePass(env, w, oc, d);
    assert SomeUpgrade(env, w, oc);
    if c in FirstCalls(w.cr.value) { FirstCallsOnly(w.cr.value, c); }
  }

  lemma {:induction false} FirstCallsOnly(cr: Resource, c: Call)
    requires c in FirstCalls(cr)
    ensures c == SyncCall || c == UpdateCall
  {
  }

  lemma {:induction false} ReconcileCallsBelong(env: Env, w: World, oc: Outcomes, d: Release, c: Call)
    requires Reconciles(env, w, oc, d) && c in Reconcile(env, w, oc).calls
    ensures Belongs(env, w, oc, c)
  {
    ReconcilePass(env, w, oc, d);
    if c in FirstCalls(w.cr.value) { FirstCallsOnly(w.cr.value, c); }
  }

  lemma {:induction false} InstallCallsBelong(env: Env, w: World, oc: Outcomes, c: Call)
    requires Installs(w, oc) && c in Reconcile(env, w, oc).calls
    ensures Belongs(env, w, oc, c)
  {
    InstallPass(env, w, oc);
  }

  /** Every call of Helm is made only in the branch it belongs to, and a rollback only for an
      upgrade that needs it. */
  lemma {:induction false} CallsOnlyWhen(env: Env, w: World, oc: Outcomes, c: Call)
    requires c in Reconcile(env, w, oc).calls
    ensures Belongs(env, w, oc, c)
  {
    if !CanBegin(w, oc) {
      EarlyEnd(env, w, oc);
    } else if w.cr.value.deleting {
      DeletionCallsBelong(env, w, oc, c);
    } else {
      LiveCallsBelong(env, w, oc, c);
    }
  }

  lemma {:induction false} DeletionCallsBelong(env: Env, w: World, oc: Outcomes, c: Call)
    requires CanBegin(w, oc) && w.cr.value.deleting && c in Reconcile(env, w, oc).calls
    ensures Belongs(env, w, oc, c)
  {
  }

  lemma {:induction false} LiveCallsBelong(env: Env, w: World, oc: Outcomes, c: Call)
    requires CanBegin(w, oc) && !w.cr.value.deleting && c in Reconcile(env, w, oc).calls
    ensures Belongs(env, w, oc, c)
  {
    var cr := w.cr.value;
    SyncOutcome(w.history, Wanted(env, cr), oc.sync);
    if SyncFails(w.history, oc.sync) {
      assert Reconcile(env, w, oc).calls == [SyncCall, StatusCall];
    } else if !SomeUp(w.history) {
      InstallCallsBelong(env, w, oc, c);
    } else {
      FoundDeployed(env, w, oc);
      if !HasUninstallFinalizer(cr) && oc.update != Stored {
        UnprotectedPass(env, w, oc);
      } else if DeployedRelease(w.history).value.manifest != Wanted(env, cr) {
        UpgradeCallsBelong(env, w, oc, DeployedRelease(w.history).value, c);
      } else {
        ReconcileCallsBelong(env, w, oc, DeployedRelease(w.history).value, c);
      }
    }
  }
}
